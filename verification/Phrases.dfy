/** What a parse keeps: operators nest by precedence, and the ordinary words of the line are the arguments of the tree,
    each exactly once and in order. */
module Phrases {
  import opened Words
  import opened Grammar

  function Rank(t: Tree): nat
  {
    match t
    case Pipe(_, _, _) => 1
    case And(_, _) => 2
    case Or(_, _) => 3
    case List(_, _) => 4
    case _ => 0
  }

  /** `&` and `;` bind less than `||`, that less than `&&`, and that less than `|`; all of them group to the right. */
  predicate Ordered(t: Tree)
  {
    match t
    case Null => true
    case Command(_, _) => true
    case Paren(body, _) => body != Null && Ordered(body)
    case List(car, cdr) => Rank(car) < 4 && Ordered(car) && Ordered(cdr) && (car != Null || cdr != Null)
    case _ =>
      && t.car != Null && t.cdr != Null && Rank(t.car) < Rank(t) && Rank(t.cdr) <= Rank(t)
      && Ordered(t.car) && Ordered(t.cdr)
  }

  lemma {:induction false} LineOrdered(ws: Line, i: nat, j: nat, c: Context, t: Tree)
    requires i <= j <= |ws| && IsLine(ws, i, j, c, t)
    ensures Ordered(t) && t != Null
    decreases j - i, 5
  {
    hide KindOf, Is, IsSequence, IsSentence;
    if IsSequence(ws, i, j, c, t) {
      SequenceOrdered(ws, i, j, c, t);
    } else {
      var k, first :| i < k < j && AmpAt(ws, i, k, j, c, first, t);
      SequenceOrdered(ws, i, k, c, first);
      SentenceOrdered(ws, k, j, c, t.cdr);
    }
  }

  lemma {:induction false} SentenceOrdered(ws: Line, i: nat, j: nat, c: Context, t: Tree)
    requires i <= j <= |ws| && IsSentence(ws, i, j, c, t)
    ensures Ordered(t)
    decreases j - i, 6
  {
    hide KindOf, Is, IsLine;
    if i < j {
      if KindOf(ws[i]) in {Amp, AndAnd, Semi} {
        SentenceOrdered(ws, i + 1, j, c, t);
      } else {
        LineOrdered(ws, i, j, c, t);
      }
    }
  }

  lemma {:induction false} SequenceOrdered(ws: Line, i: nat, j: nat, c: Context, t: Tree)
    requires i <= j <= |ws| && IsSequence(ws, i, j, c, t)
    ensures Ordered(t) && t != Null
    decreases j - i, 4
  {
    hide KindOf, Is, IsInfix, IsSentence;
    if IsInfix(ws, i, j, c, OrOr, t) {
      InfixOrdered(ws, i, j, c, OrOr, t);
    } else {
      var k :| i < k < j && SemiAt(ws, i, k, j, c, t);
      InfixOrdered(ws, i, k, c, OrOr, if t.car.Null? then t.cdr else t.car);
      if !t.car.Null? {
        SentenceOrdered(ws, k + 1, j, c, t.cdr);
      }
    }
  }

  lemma {:induction false} InfixOrdered(ws: Line, i: nat, j: nat, c: Context, op: Kind, t: Tree)
    requires i <= j <= |ws| && (op == OrOr || op == AndAnd) && IsInfix(ws, i, j, c, op, t)
    ensures Ordered(t) && t != Null && Rank(t) <= if op.OrOr? then 3 else 2
    decreases j - i, if op.OrOr? then 3 else 2, 1
  {
    hide KindOf, Is, IsOperand;
    if IsOperand(ws, i, j, c, op, t) {
      OperandOrdered(ws, i, j, c, op, t);
    } else {
      var k :| i < k < j && InfixAt(ws, i, k, j, c, op, t);
      OperandOrdered(ws, i, k, c, op, t.car);
      InfixOrdered(ws, k + 1, j, c, op, t.cdr);
    }
  }

  lemma {:induction false} OperandOrdered(ws: Line, i: nat, j: nat, c: Context, op: Kind, t: Tree)
    requires i <= j <= |ws| && (op == OrOr || op == AndAnd) && IsOperand(ws, i, j, c, op, t)
    ensures Ordered(t) && t != Null && Rank(t) < if op.OrOr? then 3 else 2
    decreases j - i, if op.OrOr? then 3 else 2, 0
  {
    hide KindOf, Is, IsInfix, IsPipeline;
    if op.OrOr? {
      InfixOrdered(ws, i, j, c, AndAnd, t);
    } else {
      PipelineOrdered(ws, i, j, c, t);
    }
  }

  lemma {:induction false} PipelineOrdered(ws: Line, i: nat, j: nat, c: Context, t: Tree)
    requires i <= j <= |ws| && IsPipeline(ws, i, j, c, t)
    ensures Ordered(t) && t != Null && Rank(t) <= 1
    decreases j - i, 1
  {
    hide KindOf, Is, IsSimple;
    if IsSimple(ws, i, j, c, t) {
      SimpleOrdered(ws, i, j, c, t);
    } else {
      var k :| i < k < j && BarAt(ws, i, k, j, c, t);
      var both := k + 1 < j && Is(ws[k + 1], "&");
      SimpleOrdered(ws, i, k, c.(pout := true, perr := c.perr || both), t.car);
      PipelineOrdered(ws, if both then k + 2 else k + 1, j, c.(pin := true), t.cdr);
    }
  }

  lemma {:induction false} SimpleOrdered(ws: Line, i: nat, j: nat, c: Context, t: Tree)
    requires i <= j <= |ws| && IsSimple(ws, i, j, c, t)
    ensures Ordered(t) && t != Null && Rank(t) == 0
    decreases j - i, 0
  {
    hide KindOf, Is, Clause, IsLine;
    if t.Paren? {
      var (lp, rp) := Clause(ws, i, j, c, Special(ws, i, j), Bare(ws, j)).value.group.value;
      LineOrdered(ws, lp, rp, SUBSHELL, t.body);
    }
  }

  // Word conservation

  /** The arguments of all the commands of a tree, from left to right. */
  function Arguments(t: Tree): seq<Word>
  {
    match t
    case Null => []
    case Command(av, _) => av
    case Paren(body, _) => Arguments(body)
    case _ => Arguments(t.car) + Arguments(t.cdr)
  }

  /** Where a reader of the line is: before a command word, in a command, before a file name (with what may still come
      before it), or in the parentheses of a special command. */
  datatype Mode = Fresh | Body(special: bool) | Name(special: bool, stage: nat) | Deep(depth: nat)

  function Next(m: Mode, w: Word): Mode
  {
    match m
    case Deep(d) =>
      if KindOf(w).Open? then Deep(d + 1)
      else if KindOf(w).Close? then if d <= 1 then Body(true) else Deep(d - 1)
      else m
    case Name(special, stage) =>
      if stage == 0 && Is(w, "&") then Name(special, 1)
      else if stage <= 1 && Is(w, "!") then Name(special, 2)
      else Body(special)
    case _ =>
      var special := m.Body? && m.special;
      match KindOf(w)
      case Plain =>
        if m.Body? then m
        else if Keyword(w) then Body(true)
        else if Is(w, "else") then Fresh
        else Body(false)
      case Open => if special then Deep(1) else Fresh
      case Close => Body(false)
      case Less => Name(special, 2)
      case Greater => Name(special, 0)
      case _ => Fresh
  }

  /** Whether the word is an ordinary one: not a separator, not part of a redirection, not the parenthesis of a
      subshell. */
  predicate Kept(m: Mode, w: Word)
  {
    match m
    case Deep(_) => true
    case Name(_, _) => false
    case _ => KindOf(w).Plain? || (KindOf(w).Open? && m == Body(true))
  }

  function ModeAt(ws: Line, i: nat, k: nat, m: Mode): Mode
    requires i <= k <= |ws|
    decreases k
  {
    if k == i then m else Next(ModeAt(ws, i, k - 1, m), ws[k - 1])
  }

  /** The ordinary words from `i` up to `j`, read from left to right in one pass. */
  function Ordinary(ws: Line, i: nat, j: nat, m: Mode): seq<Word>
    requires i <= j <= |ws|
    decreases j
  {
    if j == i then []
    else Ordinary(ws, i, j - 1, m) + if Kept(ModeAt(ws, i, j - 1, m), ws[j - 1]) then [ws[j - 1]] else []
  }

  lemma {:induction false} Split(ws: Line, i: nat, k: nat, j: nat, m: Mode)
    requires i <= k <= j <= |ws|
    ensures ModeAt(ws, i, j, m) == ModeAt(ws, k, j, ModeAt(ws, i, k, m))
    ensures Ordinary(ws, i, j, m) == Ordinary(ws, i, k, m) + Ordinary(ws, k, j, ModeAt(ws, i, k, m))
    decreases j
  {
    hide Next, Kept;
    if k < j {
      Split(ws, i, k, j - 1, m);
    }
  }

  predicate Settled(m: Mode)
  {
    m.Fresh? || m.Body?
  }

  /** One word from the left. */
  lemma {:induction false} OneWord(ws: Line, i: nat, j: nat, m: Mode)
    requires i < j <= |ws|
    ensures ModeAt(ws, i, j, m) == ModeAt(ws, i + 1, j, Next(m, ws[i]))
    ensures Ordinary(ws, i, j, m) == (if Kept(m, ws[i]) then [ws[i]] else []) + Ordinary(ws, i + 1, j, Next(m, ws[i]))
  {
    hide Next, Kept;
    Split(ws, i, i + 1, j, m);
    assert ModeAt(ws, i, i, m) == m && Ordinary(ws, i, i, m) == [];
    assert ModeAt(ws, i, i + 1, m) == Next(m, ws[i]);
  }

  lemma {:induction false} Nothing(ws: Line, k: nat)
    requires k <= |ws|
    ensures forall m :: ModeAt(ws, k, k, m) == m && Ordinary(ws, k, k, m) == []
  {
  }

  /** A separator between two phrases. */
  lemma {:induction false} Between(ws: Line, i: nat, k: nat, j: nat, m: Mode)
    requires i <= k < j <= |ws| && Settled(ModeAt(ws, i, k, m)) && KindOf(ws[k]) in SEPARATORS
    ensures ModeAt(ws, i, j, m) == ModeAt(ws, k + 1, j, Fresh)
    ensures Ordinary(ws, i, j, m) == Ordinary(ws, i, k, m) + Ordinary(ws, k + 1, j, Fresh)
  {
    hide KindOf, Is, Keyword, ModeAt, Ordinary;
    Split(ws, i, k, j, m);
    OneWord(ws, k, j, ModeAt(ws, i, k, m));
  }

  // Simple commands

  /** Inside the parentheses of a special command every word is kept. */
  lemma {:induction false} DeepWords(ws: Line, i: nat, j: nat, d: nat)
    requires i <= j <= |ws| && d >= 1
    ensures var k := Closing(ws, i, j, d);
      k <= j ==> ModeAt(ws, i, k, Deep(d)) == Body(true) && Ordinary(ws, i, k, Deep(d)) == ws[i..k]
    decreases j - i
  {
    hide KindOf, Is, Keyword, ModeAt, Ordinary;
    var k := Closing(ws, i, j, d);
    if i < j && k <= j {
      OneWord(ws, i, k, Deep(d));
      Nothing(ws, k);
      assert ws[i..k] == [ws[i]] + ws[i + 1..k];
      if !(KindOf(ws[i]).Close? && d <= 1) {
        DeepWords(ws, i + 1, j, d + Delta(ws[i]));
      }
    }
  }

  /** The mode fits a command that is or is not special, of which the words from `i` are still to come. */
  predicate Fits(ws: Line, i: nat, j: nat, special: bool, m: Mode)
    requires i <= j <= |ws|
  {
    m == Body(special) || (m == Fresh && Special(ws, i, j) == special)
  }

  /** The words an item adds: all of a group in a special command, what is inside it in any other, none of a
      redirection. */
  function Added(ws: Line, i: nat, j: nat, special: bool): seq<Word>
    requires i < j <= |ws| && i < ItemEnd(ws, i, j)
  {
    var k := ItemEnd(ws, i, j);
    match KindOf(ws[i])
    case Plain => [ws[i]]
    case Open => if special then ws[i..k] else Ordinary(ws, i + 1, k - 1, Fresh)
    case _ => []
  }

  lemma {:induction false} RedirectionWords(ws: Line, i: nat, j: nat, special: bool, m: Mode)
    requires i < j <= |ws| && i < ItemEnd(ws, i, j) && Fits(ws, i, j, special, m)
    requires KindOf(ws[i]).Less? || KindOf(ws[i]).Greater?
    ensures ModeAt(ws, i, ItemEnd(ws, i, j), m) == Body(special) && Ordinary(ws, i, ItemEnd(ws, i, j), m) == []
  {
    hide KindOf, Is, Keyword, ModeAt, Ordinary;
    var k := ItemEnd(ws, i, j);
    FixedWords(ws[i]);
    OneWord(ws, i, k, m);
    var n := Name(special, if KindOf(ws[i]).Less? then 2 else 0);
    OneWord(ws, i + 1, k, n);
    if i + 2 < k {
      OneWord(ws, i + 2, k, Next(n, ws[i + 1]));
      if i + 3 < k {
        OneWord(ws, i + 3, k, Next(Next(n, ws[i + 1]), ws[i + 2]));
      }
    }
    Nothing(ws, k);
  }

  lemma {:induction false} GroupWords(ws: Line, i: nat, j: nat, special: bool, m: Mode)
    requires i < j <= |ws| && KindOf(ws[i]).Open? && i < ItemEnd(ws, i, j) && Fits(ws, i, j, special, m)
    requires special || Settled(ModeAt(ws, i + 1, ItemEnd(ws, i, j) - 1, Fresh))
    ensures ModeAt(ws, i, ItemEnd(ws, i, j), m) == Body(special)
    ensures Ordinary(ws, i, ItemEnd(ws, i, j), m) == Added(ws, i, j, special)
  {
    hide KindOf, Is, Keyword, ModeAt, Ordinary, Closing;
    var k := ItemEnd(ws, i, j);
    FixedWords(ws[i]);
    OneWord(ws, i, k, m);
    if special {
      DeepWords(ws, i + 1, j, 1);
      assert ws[i..k] == [ws[i]] + ws[i + 1..k];
    } else {
      Split(ws, i + 1, k - 1, k, Fresh);
      OneWord(ws, k - 1, k, ModeAt(ws, i + 1, k - 1, Fresh));
      Nothing(ws, k);
    }
  }

  lemma {:induction false} ItemWords(ws: Line, i: nat, j: nat, special: bool, m: Mode)
    requires i < j <= |ws| && i < ItemEnd(ws, i, j) && Fits(ws, i, j, special, m)
    requires KindOf(ws[i]).Open? && !special ==> Settled(ModeAt(ws, i + 1, ItemEnd(ws, i, j) - 1, Fresh))
    ensures Fits(ws, ItemEnd(ws, i, j), j, special, ModeAt(ws, i, ItemEnd(ws, i, j), m))
    ensures Ordinary(ws, i, ItemEnd(ws, i, j), m) == Added(ws, i, j, special)
  {
    hide KindOf, Is, Keyword, ModeAt, Ordinary, Closing;
    if KindOf(ws[i]).Open? {
      GroupWords(ws, i, j, special, m);
    } else if KindOf(ws[i]).Plain? {
      OneWord(ws, i, i + 1, m);
      Nothing(ws, i + 1);
    } else {
      RedirectionWords(ws, i, j, special, m);
    }
  }

  /** Gathering only adds words, and keeps the group it has. */
  lemma {:induction false} ClauseGrows(ws: Line, i: nat, j: nat, c: Context, special: bool, leaf: Leaf)
    requires i <= j <= |ws| && Clause(ws, i, j, c, special, leaf).Some?
    ensures var out := Clause(ws, i, j, c, special, leaf).value;
      leaf.av <= out.av && (leaf.group.Some? || special ==> out.group == leaf.group)
    decreases j - i
  {
    hide KindOf, Is, ItemEnd;
    if i < j {
      ClauseGrows(ws, ItemEnd(ws, i, j), j, c, special, Take(ws, i, j, c, special, leaf).value);
    }
  }

  lemma {:induction false} TakeAdds(ws: Line, i: nat, j: nat, c: Context, special: bool, leaf: Leaf)
    requires i < j <= |ws| && i < ItemEnd(ws, i, j) && Take(ws, i, j, c, special, leaf).Some?
    ensures var more := Take(ws, i, j, c, special, leaf).value;
      if KindOf(ws[i]).Open? && !special then more.av == leaf.av && more.group == Some((i + 1, ItemEnd(ws, i, j) - 1))
      else more.av == leaf.av + Added(ws, i, j, special) && more.group == leaf.group
  {
    hide KindOf, Is, Ordinary, Closing;
  }

  /** A subshell stands alone, and its body has been read to an end. */
  predicate Enclosed(ws: Line, leaf: Leaf)
  {
    leaf.group.Some? ==>
      && leaf.av == [] && leaf.group.value.0 <= leaf.group.value.1 <= |ws|
      && Settled(ModeAt(ws, leaf.group.value.0, leaf.group.value.1, Fresh))
  }

  lemma {:induction false} ClauseWords(ws: Line, i: nat, j: nat, c: Context, special: bool, leaf: Leaf, m: Mode)
    requires i <= j <= |ws| && Clause(ws, i, j, c, special, leaf).Some? && Fits(ws, i, j, special, m)
    requires (special ==> leaf.group.None?) && Enclosed(ws, Clause(ws, i, j, c, special, leaf).value)
    ensures Settled(ModeAt(ws, i, j, m))
    ensures var out := Clause(ws, i, j, c, special, leaf).value;
      if out.group.None? then out.av == leaf.av + Ordinary(ws, i, j, m)
      else if leaf.group.Some? then Ordinary(ws, i, j, m) == []
      else Ordinary(ws, i, j, m) == Ordinary(ws, out.group.value.0, out.group.value.1, Fresh)
    decreases j - i
  {
    hide KindOf, Is, ItemEnd, ModeAt, Ordinary, Keyword, Special;
    Nothing(ws, i);
    if i < j {
      var k := ItemEnd(ws, i, j);
      var more := Take(ws, i, j, c, special, leaf).value;
      ClauseGrows(ws, k, j, c, special, more);
      ItemWords(ws, i, j, special, m);
      ClauseWords(ws, k, j, c, special, more, ModeAt(ws, i, k, m));
      Split(ws, i, k, j, m);
      TakeAdds(ws, i, j, c, special, leaf);
    }
  }

  // The theorem, phrase by phrase

  /** What is claimed of a phrase. */
  ghost predicate Conserved(ws: Line, i: nat, j: nat, t: Tree)
    requires i <= j <= |ws|
  {
    Arguments(t) == Ordinary(ws, i, j, Fresh) && Settled(ModeAt(ws, i, j, Fresh))
  }

  lemma {:induction false} Joined(ws: Line, i: nat, k: nat, j: nat, car: Tree, cdr: Tree)
    requires i <= k < j <= |ws| && KindOf(ws[k]) in SEPARATORS && Conserved(ws, i, k, car)
    requires Conserved(ws, k + 1, j, cdr)
    ensures Arguments(car) + Arguments(cdr) == Ordinary(ws, i, j, Fresh) && Settled(ModeAt(ws, i, j, Fresh))
  {
    hide KindOf, Arguments, Ordinary, ModeAt;
    Between(ws, i, k, j, Fresh);
  }

  lemma {:induction false} SimpleWords(ws: Line, i: nat, j: nat, c: Context, t: Tree)
    requires i <= j <= |ws| && IsSimple(ws, i, j, c, t)
    ensures Conserved(ws, i, j, t)
    decreases j - i, 0
  {
    hide KindOf, Is, Clause, IsLine, Ordinary, ModeAt;
    var special := Special(ws, i, j);
    var leaf := Clause(ws, i, j, c, special, Bare(ws, j)).value;
    ClauseGrows(ws, i, j, c, special, Bare(ws, j));
    if leaf.group.Some? {
      LineWords(ws, leaf.group.value.0, leaf.group.value.1, SUBSHELL, t.body);
    }
    ClauseWords(ws, i, j, c, special, Bare(ws, j), Fresh);
  }

  lemma {:induction false} PipelineWords(ws: Line, i: nat, j: nat, c: Context, t: Tree)
    requires i <= j <= |ws| && IsPipeline(ws, i, j, c, t)
    ensures Conserved(ws, i, j, t)
    decreases j - i, 1
  {
    hide KindOf, Is, IsSimple, Ordinary, ModeAt;
    if IsSimple(ws, i, j, c, t) {
      SimpleWords(ws, i, j, c, t);
    } else {
      var k :| i < k < j && BarAt(ws, i, k, j, c, t);
      var both := k + 1 < j && Is(ws[k + 1], "&");
      SimpleWords(ws, i, k, c.(pout := true, perr := c.perr || both), t.car);
      PipelineWords(ws, if both then k + 2 else k + 1, j, c.(pin := true), t.cdr);
      if both {
        FixedWords(ws[k + 1]);
        Nothing(ws, k + 1);
        Between(ws, k + 1, k + 1, j, Fresh);
      }
      Joined(ws, i, k, j, t.car, t.cdr);
    }
  }

  lemma {:induction false} InfixWords(ws: Line, i: nat, j: nat, c: Context, op: Kind, t: Tree)
    requires i <= j <= |ws| && (op == OrOr || op == AndAnd) && IsInfix(ws, i, j, c, op, t)
    ensures Conserved(ws, i, j, t)
    decreases j - i, if op.OrOr? then 3 else 2, 1
  {
    hide KindOf, Is, IsOperand, Ordinary, ModeAt;
    if IsOperand(ws, i, j, c, op, t) {
      OperandWords(ws, i, j, c, op, t);
    } else {
      var k :| i < k < j && InfixAt(ws, i, k, j, c, op, t);
      OperandWords(ws, i, k, c, op, t.car);
      InfixWords(ws, k + 1, j, c, op, t.cdr);
      Joined(ws, i, k, j, t.car, t.cdr);
    }
  }

  lemma {:induction false} OperandWords(ws: Line, i: nat, j: nat, c: Context, op: Kind, t: Tree)
    requires i <= j <= |ws| && (op == OrOr || op == AndAnd) && IsOperand(ws, i, j, c, op, t)
    ensures Conserved(ws, i, j, t)
    decreases j - i, if op.OrOr? then 3 else 2, 0
  {
    hide KindOf, Is, IsInfix, IsPipeline, Ordinary, ModeAt;
    if op.OrOr? {
      InfixWords(ws, i, j, c, AndAnd, t);
    } else {
      PipelineWords(ws, i, j, c, t);
    }
  }

  lemma {:induction false} SequenceWords(ws: Line, i: nat, j: nat, c: Context, t: Tree)
    requires i <= j <= |ws| && IsSequence(ws, i, j, c, t)
    ensures Conserved(ws, i, j, t)
    decreases j - i, 4
  {
    hide KindOf, Is, IsInfix, IsSentence, Ordinary, ModeAt;
    if IsInfix(ws, i, j, c, OrOr, t) {
      InfixWords(ws, i, j, c, OrOr, t);
    } else {
      var k :| i < k < j && SemiAt(ws, i, k, j, c, t);
      var car, cdr := if t.car.Null? then t.cdr else t.car, if t.car.Null? then Null else t.cdr;
      InfixWords(ws, i, k, c, OrOr, car);
      SentenceWords(ws, k + 1, j, c, cdr);
      Joined(ws, i, k, j, car, cdr);
    }
  }

  lemma {:induction false} LineWords(ws: Line, i: nat, j: nat, c: Context, t: Tree)
    requires i <= j <= |ws| && IsLine(ws, i, j, c, t)
    ensures Conserved(ws, i, j, t)
    decreases j - i, 5
  {
    hide KindOf, Is, IsSequence, IsSentence, Ordinary, ModeAt;
    if IsSequence(ws, i, j, c, t) {
      SequenceWords(ws, i, j, c, t);
    } else {
      var k, first :| i < k < j && AmpAt(ws, i, k, j, c, first, t);
      SequenceWords(ws, i, k, c, first);
      SentenceWords(ws, k, j, c, t.cdr);
      Nothing(ws, k);
      Between(ws, k, k, j, Fresh);
      Between(ws, i, k, j, Fresh);
      assert Arguments(Background(first)) == Arguments(first);
    }
  }

  /** The ordinary words of the line are the arguments of its tree, each once and in order. */
  lemma {:induction false} SentenceWords(ws: Line, i: nat, j: nat, c: Context, t: Tree)
    requires i <= j <= |ws| && IsSentence(ws, i, j, c, t)
    ensures Conserved(ws, i, j, t)
    decreases j - i, 6
  {
    hide KindOf, Is, IsLine, Ordinary, ModeAt;
    Nothing(ws, i);
    if i < j {
      if KindOf(ws[i]) in {Amp, AndAnd, Semi} {
        SentenceWords(ws, i + 1, j, c, t);
        Between(ws, i, i, j, Fresh);
      } else {
        LineWords(ws, i, j, c, t);
      }
    }
  }
}
