/** The command grammar of the shell: which tree, if any, a line of words stands for. */
module Grammar {
  import opened Words

  /** What the parser looks at in a word: its first unit, and whether the second doubles it. */
  datatype Kind = Open | Close | Less | Greater | Amp | AndAnd | Bar | OrOr | Semi | Plain

  function KindOf(w: Word): Kind
  {
    var c := At(w, 0);
    if c == '(' as int then Open
    else if c == ')' as int then Close
    else if c == '<' as int then Less
    else if c == '>' as int then Greater
    else if c == '&' as int then if At(w, 1) == c then AndAnd else Amp
    else if c == '|' as int then if At(w, 1) == c then OrOr else Bar
    else if c == ';' as int || c == '\n' as int then Semi
    else Plain
  }

  predicate Keyword(w: Word)
  {
    Is(w, "@") || Is(w, "exit") || Is(w, "foreach") || Is(w, "if") || Is(w, "set") || Is(w, "switch") || Is(w, "while")
  }

  lemma {:induction false} FixedWords(w: Word)
    ensures Is(w, "&") ==> KindOf(w) == Amp
    ensures Is(w, "!") || Is(w, "else") || Keyword(w) ==> KindOf(w) == Plain
  {
  }

  datatype Flag = Ampersand | NoInterrupt | NoFork | Append | Stderr | Overwrite | ReadHere

  /** The redirections of a command: `t_dlef`, `t_drit` and the flags. */
  datatype Io = Io(lef: Option<Word>, rit: Option<Word>, flags: set<Flag>)

  /** `struct command`, by node type; the pointer 0 is Null. */
  datatype Tree =
    | Null
    | Command(av: seq<Word>, io: Io)
    | Paren(body: Tree, io: Io)
    | Pipe(car: Tree, cdr: Tree, flags: set<Flag>)
    | And(car: Tree, cdr: Tree)
    | Or(car: Tree, cdr: Tree)
    | List(car: Tree, cdr: Tree)

  /** The flags PHERE, PIN, POUT and PERR handed down to a command. */
  datatype Context = Context(here: bool, pin: bool, pout: bool, perr: bool)

  const TOP := Context(false, false, false, false)

  const SUBSHELL := Context(true, false, false, false)

  type Line = seq<Word>

  // Parentheses

  function Delta(w: Word): int
  {
    if KindOf(w).Open? then 1 else if KindOf(w).Close? then -1 else 0
  }

  /** Opening less closing parentheses among the words from `i` up to `k`. */
  function Depth(ws: Line, i: nat, k: nat): int
    requires i <= k <= |ws|
    decreases k
  {
    if k == i then 0 else Depth(ws, i, k - 1) + Delta(ws[k - 1])
  }

  lemma {:induction false} DepthSplit(ws: Line, i: nat, k: nat, j: nat)
    requires i <= k <= j <= |ws|
    ensures Depth(ws, i, j) == Depth(ws, i, k) + Depth(ws, k, j)
    decreases j
  {
    if k < j {
      DepthSplit(ws, i, k, j - 1);
    }
  }

  /** Nothing closes that was not opened. */
  ghost predicate Nested(ws: Line, i: nat, j: nat)
    requires i <= j <= |ws|
  {
    forall k :: i <= k <= j ==> Depth(ws, i, k) >= 0
  }

  ghost predicate Balanced(ws: Line, i: nat, j: nat)
    requires i <= j <= |ws|
  {
    Depth(ws, i, j) == 0 && Nested(ws, i, j)
  }

  /** The `&` of `>&` or `|&`. */
  predicate Excused(ws: Line, i: nat, k: nat)
    requires i <= k < |ws|
  {
    Is(ws[k], "&") && i < k && (KindOf(ws[k - 1]).Greater? || KindOf(ws[k - 1]).Bar?)
  }

  /** No word of the kinds `ks` stands outside all parentheses, the `&` of `>&` and `|&` apart. */
  ghost predicate NoTop(ws: Line, i: nat, j: nat, ks: set<Kind>)
    requires i <= j <= |ws|
  {
    forall k :: i <= k < j && Depth(ws, i, k) == 0 && KindOf(ws[k]) in ks ==> Excused(ws, i, k)
  }

  // Simple commands

  /** The command word, past any number of `else`, is one that takes a parenthesised expression. */
  predicate Special(ws: Line, i: nat, j: nat)
    requires i <= j <= |ws|
    decreases j - i
  {
    i < j && (Keyword(ws[i]) || (Is(ws[i], "else") && Special(ws, i + 1, j)))
  }

  /** The position after the parenthesis that brings the depth `d` back to 0, or after `j` if there is none. */
  function Closing(ws: Line, i: nat, j: nat, d: nat): (k: nat)
    requires i <= j <= |ws|
    ensures i <= k <= j + 1
    ensures k <= j ==> i < k && KindOf(ws[k - 1]).Close?
    decreases j - i
  {
    if i == j then j + 1
    else if KindOf(ws[i]).Close? && d <= 1 then i + 1
    else Closing(ws, i + 1, j, d + Delta(ws[i]))
  }

  /** How many words the modifiers `&` and `!` take after the `>` at `i`. */
  function Modifiers(ws: Line, i: nat, j: nat): (n: nat)
    requires i < j <= |ws|
    ensures n <= 2 && i + n < j
  {
    var a := if i + 1 < j && Is(ws[i + 1], "&") then 1 else 0;
    if i + 1 + a < j && Is(ws[i + 1 + a], "!") then a + 1 else a
  }

  /** The end of the item that starts at `i`: a word, a redirection with its file name, or a parenthesised group.
      `i` itself if no item starts there. */
  function ItemEnd(ws: Line, i: nat, j: nat): (k: nat)
    requires i < j <= |ws|
    ensures i <= k <= j
  {
    match KindOf(ws[i])
    case Plain => i + 1
    case Open =>
      var k := Closing(ws, i + 1, j, 1);
      if k <= j then k else i
    case Less => if i + 1 < j && KindOf(ws[i + 1]).Plain? then i + 2 else i
    case Greater =>
      var k := i + 1 + Modifiers(ws, i, j);
      if k < j && KindOf(ws[k]).Plain? then k + 1 else i
    case _ => i
  }

  /** What has been gathered of a simple command: its words, its redirections, and the group of a subshell. */
  datatype Leaf = Leaf(av: seq<Word>, io: Io, group: Option<(nat, nat)>)

  function TakeInput(c: Context, io: Io, op: Word, name: Word): Option<Io>
  {
    var flags := if At(op, 1) == '<' as int then io.flags + {ReadHere} else io.flags;
    if (c.here && ReadHere in flags) || c.pin || io.lef.Some? then None
    else Some(Io(Some(name), io.rit, flags))
  }

  function TakeOutput(c: Context, io: Io, op: Word, both: bool, force: bool, name: Word): Option<Io>
  {
    var appended := if At(op, 1) == '>' as int then io.flags + {Append} else io.flags;
    var joined := if both then appended + {Stderr} else appended;
    var flags := if force then joined + {Overwrite} else joined;
    if (both && (c.pout || c.perr)) || (c.pout && (!c.perr || io.rit.Some?)) then None
    else Some(Io(io.lef, Some(name), flags))
  }

  /** The item that starts at `i` added to `leaf`. In a special command a group is so many words; in any other it is the
      subshell, and there can be only one. */
  function Take(ws: Line, i: nat, j: nat, c: Context, special: bool, leaf: Leaf): Option<Leaf>
    requires i < j <= |ws| && i < ItemEnd(ws, i, j)
  {
    var k := ItemEnd(ws, i, j);
    match KindOf(ws[i])
    case Open =>
      if special then Some(leaf.(av := leaf.av + ws[i..k]))
      else if leaf.group.Some? then None
      else Some(leaf.(group := Some((i + 1, k - 1))))
    case Less =>
      (match TakeInput(c, leaf.io, ws[i], ws[k - 1])
       case None => None
       case Some(io) => Some(leaf.(io := io)))
    case Greater =>
      var both := Is(ws[i + 1], "&");
      (match TakeOutput(c, leaf.io, ws[i], both, Modifiers(ws, i, j) == (if both then 2 else 1), ws[k - 1])
       case None => None
       case Some(io) => Some(leaf.(io := io)))
    case _ => Some(leaf.(av := leaf.av + [ws[i]]))
  }

  /** All the items from `i` up to `j` added to `leaf`. */
  function Clause(ws: Line, i: nat, j: nat, c: Context, special: bool, leaf: Leaf): Option<Leaf>
    requires i <= j <= |ws|
    decreases j - i
  {
    if i == j then Some(leaf)
    else
      var k := ItemEnd(ws, i, j);
      if k == i then None
      else
        match Take(ws, i, j, c, special, leaf)
        case None => None
        case Some(more) => Clause(ws, k, j, c, special, more)
  }

  /** Nothing gathered yet; the last command before a closing parenthesis need not fork. */
  function Bare(ws: Line, j: nat): Leaf
    requires j <= |ws|
  {
    Leaf([], Io(None, None, if j < |ws| && KindOf(ws[j]).Close? then {NoFork} else {}), None)
  }

  // The grammar, from the lowest precedence to the highest. The words from `i` up to `j` stand for the tree `t`.

  /** Lines, with any separators before them skipped. */
  ghost predicate IsSentence(ws: Line, i: nat, j: nat, c: Context, t: Tree)
    requires i <= j <= |ws|
    decreases j - i, 6
  {
    if i == j then t == Null
    else if KindOf(ws[i]) in {Amp, AndAnd, Semi} then IsSentence(ws, i + 1, j, c, t)
    else IsLine(ws, i, j, c, t)
  }

  /** What `&` does to the tree before it. */
  function Background(t: Tree): Tree
  {
    match t
    case Command(av, io) => Command(av, io.(flags := io.flags + {Ampersand, NoInterrupt}))
    case Paren(body, io) => Paren(body, io.(flags := io.flags + {Ampersand, NoInterrupt}))
    case Pipe(car, cdr, flags) => Pipe(car, cdr, flags + {Ampersand, NoInterrupt})
    case _ => Paren(t, Io(None, None, {Ampersand, NoInterrupt}))
  }

  /** sequence, or sequence & sentence */
  ghost predicate IsLine(ws: Line, i: nat, j: nat, c: Context, t: Tree)
    requires i <= j <= |ws|
    decreases j - i, 5
  {
    || IsSequence(ws, i, j, c, t)
    || (t.List? && exists k, first :: i < k < j && AmpAt(ws, i, k, j, c, first, t))
  }

  ghost predicate AmpAt(ws: Line, i: nat, k: nat, j: nat, c: Context, first: Tree, t: Tree)
    requires i < k < j <= |ws| && t.List?
    decreases j - i, 4
  {
    KindOf(ws[k]).Amp? && IsSequence(ws, i, k, c, first) && t.car == Background(first) && IsSentence(ws, k, j, c, t.cdr)
  }

  /** disjunction, or disjunction ; sentence, where the sentence has no `&` of its own */
  ghost predicate IsSequence(ws: Line, i: nat, j: nat, c: Context, t: Tree)
    requires i <= j <= |ws|
    decreases j - i, 3
  {
    || IsInfix(ws, i, j, c, OrOr, t)
    || (t.List? && exists k :: i < k < j && SemiAt(ws, i, k, j, c, t))
  }

  /** Nothing after the semicolon leaves the left branch empty instead. */
  ghost predicate SemiAt(ws: Line, i: nat, k: nat, j: nat, c: Context, t: Tree)
    requires i < k < j <= |ws| && t.List?
    decreases j - i, 2, 4
  {
    && KindOf(ws[k]).Semi? && NoTop(ws, k + 1, j, {Amp})
    && (if t.car.Null? then IsInfix(ws, i, k, c, OrOr, t.cdr) && IsSentence(ws, k + 1, j, c, Null)
        else t.cdr != Null && IsInfix(ws, i, k, c, OrOr, t.car) && IsSentence(ws, k + 1, j, c, t.cdr))
  }

  /** conjunction, or conjunction || disjunction; pipeline, or pipeline && conjunction */
  ghost predicate IsInfix(ws: Line, i: nat, j: nat, c: Context, op: Kind, t: Tree)
    requires i <= j <= |ws| && (op == OrOr || op == AndAnd)
    decreases j - i, 2, if op.OrOr? then 3 else 1
  {
    || IsOperand(ws, i, j, c, op, t)
    || ((if op.OrOr? then t.Or? else t.And?) && exists k :: i < k < j && InfixAt(ws, i, k, j, c, op, t))
  }

  ghost predicate IsOperand(ws: Line, i: nat, j: nat, c: Context, op: Kind, t: Tree)
    requires i <= j <= |ws| && (op == OrOr || op == AndAnd)
    decreases j - i, 2, if op.OrOr? then 2 else 0
  {
    if op.OrOr? then IsInfix(ws, i, j, c, AndAnd, t) else IsPipeline(ws, i, j, c, t)
  }

  ghost predicate InfixAt(ws: Line, i: nat, k: nat, j: nat, c: Context, op: Kind, t: Tree)
    requires i < k < j <= |ws| && (op == OrOr || op == AndAnd) && (t.Or? || t.And?)
    decreases j - i, 1
  {
    KindOf(ws[k]) == op && IsOperand(ws, i, k, c, op, t.car) && IsInfix(ws, k + 1, j, c, op, t.cdr)
  }

  /** command, or command | pipeline, or command |& pipeline */
  ghost predicate IsPipeline(ws: Line, i: nat, j: nat, c: Context, t: Tree)
    requires i <= j <= |ws|
    decreases j - i, 1
  {
    || IsSimple(ws, i, j, c, t)
    || (t.Pipe? && exists k :: i < k < j && BarAt(ws, i, k, j, c, t))
  }

  ghost predicate BarAt(ws: Line, i: nat, k: nat, j: nat, c: Context, t: Tree)
    requires i < k < j <= |ws| && t.Pipe?
    decreases j - i, 0
  {
    var both := k + 1 < j && Is(ws[k + 1], "&");
    && KindOf(ws[k]).Bar? && t.flags == (if both then {Stderr} else {})
    && IsSimple(ws, i, k, c.(pout := true, perr := c.perr || both), t.car)
    && IsPipeline(ws, if both then k + 2 else k + 1, j, c.(pin := true), t.cdr)
  }

  /** words and redirections, or a line in parentheses with redirections about it */
  ghost predicate IsSimple(ws: Line, i: nat, j: nat, c: Context, t: Tree)
    requires i <= j <= |ws|
    decreases j - i, 0
  {
    var special := Special(ws, i, j);
    match Clause(ws, i, j, c, special, Bare(ws, j))
    case None => false
    case Some(leaf) =>
      if special || leaf.group.None? then leaf.av != [] && t == Command(leaf.av, leaf.io)
      else
        var (lp, rp) := leaf.group.value;
        leaf.av == [] && t.Paren? && t.io == leaf.io && i <= lp <= rp < j && IsLine(ws, lp, rp, SUBSHELL, t.body)
  }

  // What every phrase of the grammar has in common: balanced parentheses, none of the separators of lower precedence
  // outside them, and a proper last word.

  lemma {:induction false} Splice(ws: Line, i: nat, m: nat, j: nat, ks: set<Kind>)
    requires i <= m <= j <= |ws| && Balanced(ws, i, m) && Balanced(ws, m, j)
    ensures Balanced(ws, i, j)
    ensures NoTop(ws, i, m, ks) && NoTop(ws, m, j, ks) ==> NoTop(ws, i, j, ks)
  {
    hide KindOf, Is;
    forall k | m <= k <= j
      ensures Depth(ws, i, k) == Depth(ws, m, k)
    {
      DepthSplit(ws, i, m, k);
    }
  }

  lemma {:induction false} OneMore(ws: Line, i: nat, k: nat, ks: set<Kind>)
    requires i <= k < |ws| && Balanced(ws, i, k) && Delta(ws[k]) == 0
    ensures Balanced(ws, i, k + 1)
    ensures NoTop(ws, i, k, ks) && (KindOf(ws[k]) in ks ==> Excused(ws, i, k)) ==> NoTop(ws, i, k + 1, ks)
  {
    hide KindOf, Is;
  }

  const SEPARATORS := {Amp, AndAnd, Bar, OrOr, Semi}

  ghost predicate Tidy(ws: Line, i: nat, j: nat, ks: set<Kind>)
    requires i <= j <= |ws|
  {
    i < j && Balanced(ws, i, j) && NoTop(ws, i, j, ks) && !KindOf(ws[j - 1]).Greater? && !KindOf(ws[j - 1]).Bar?
  }

  lemma {:induction false} ClosingBalances(ws: Line, i: nat, j: nat, d: nat)
    requires i <= j <= |ws| && d >= 1
    ensures var k := Closing(ws, i, j, d);
      && (k <= j ==> Depth(ws, i, k) + d == 0)
      && (forall m :: i <= m < k && m <= j ==> Depth(ws, i, m) + d > 0)
    decreases j - i
  {
    hide KindOf;
    var k := Closing(ws, i, j, d);
    if i < j && !(KindOf(ws[i]).Close? && d <= 1) {
      var d' := d + Delta(ws[i]);
      ClosingBalances(ws, i + 1, j, d');
      forall m | i < m <= j
        ensures Depth(ws, i, m) == Delta(ws[i]) + Depth(ws, i + 1, m)
      {
        DepthSplit(ws, i, i + 1, m);
      }
    }
  }

  lemma {:induction false} GroupTidy(ws: Line, i: nat, j: nat)
    requires i < j <= |ws| && KindOf(ws[i]).Open? && i < ItemEnd(ws, i, j)
    ensures Tidy(ws, i, ItemEnd(ws, i, j), SEPARATORS)
    ensures forall m :: i < m < ItemEnd(ws, i, j) ==> Depth(ws, i, m) > 0
  {
    hide KindOf, Is;
    var k := ItemEnd(ws, i, j);
    ClosingBalances(ws, i + 1, j, 1);
    forall m | i < m <= k
      ensures Depth(ws, i, m) == 1 + Depth(ws, i + 1, m)
    {
      DepthSplit(ws, i, i + 1, m);
    }
  }

  lemma {:induction false} ItemTidy(ws: Line, i: nat, j: nat)
    requires i < j <= |ws| && i < ItemEnd(ws, i, j)
    ensures Tidy(ws, i, ItemEnd(ws, i, j), SEPARATORS)
  {
    hide KindOf, Is;
    if KindOf(ws[i]).Open? {
      GroupTidy(ws, i, j);
    } else {
      var k := ItemEnd(ws, i, j);
      forall m | i <= m < k
        ensures Delta(ws[m]) == 0 && (KindOf(ws[m]) in SEPARATORS ==> Excused(ws, i, m))
      {
        FixedWords(ws[m]);
      }
      StepByStep(ws, i, k);
    }
  }

  lemma {:induction false} StepByStep(ws: Line, i: nat, k: nat)
    requires i <= k <= |ws| && forall m :: i <= m < k ==> Delta(ws[m]) == 0
    ensures forall m :: i <= m <= k ==> Depth(ws, i, m) == 0
    decreases k
  {
    if i < k {
      StepByStep(ws, i, k - 1);
    }
  }

  lemma {:induction false} ClauseTidy(ws: Line, i: nat, j: nat, c: Context, special: bool, leaf: Leaf)
    requires i < j <= |ws| && Clause(ws, i, j, c, special, leaf).Some?
    ensures Tidy(ws, i, j, SEPARATORS)
    decreases j - i
  {
    hide KindOf, Is, Depth, ItemEnd, Take;
    var k := ItemEnd(ws, i, j);
    ItemTidy(ws, i, j);
    if k < j {
      var more := Take(ws, i, j, c, special, leaf).value;
      ClauseTidy(ws, k, j, c, special, more);
      Splice(ws, i, k, j, SEPARATORS);
    }
  }

  lemma {:induction false} SimpleTidy(ws: Line, i: nat, j: nat, c: Context, t: Tree)
    requires i <= j <= |ws| && IsSimple(ws, i, j, c, t)
    ensures Tidy(ws, i, j, SEPARATORS)
  {
    hide KindOf, Is, Depth, ItemEnd, Take, IsLine;
    if i < j {
      ClauseTidy(ws, i, j, c, Special(ws, i, j), Bare(ws, j));
    }
  }

  lemma {:induction false} PipelineTidy(ws: Line, i: nat, j: nat, c: Context, t: Tree)
    requires i <= j <= |ws| && IsPipeline(ws, i, j, c, t)
    ensures Tidy(ws, i, j, SEPARATORS - {Bar})
    decreases j - i
  {
    hide KindOf, Is, Depth, IsSimple;
    if IsSimple(ws, i, j, c, t) {
      SimpleTidy(ws, i, j, c, t);
    } else {
      var k :| i < k < j && BarAt(ws, i, k, j, c, t);
      var both := k + 1 < j && Is(ws[k + 1], "&");
      var m, ks := if both then k + 2 else k + 1, SEPARATORS - {Bar};
      SimpleTidy(ws, i, k, c.(pout := true, perr := c.perr || both), t.car);
      PipelineTidy(ws, m, j, c.(pin := true), t.cdr);
      OneMore(ws, i, k, ks);
      if both {
        FixedWords(ws[k + 1]);
        OneMore(ws, i, k + 1, ks);
      }
      Splice(ws, i, m, j, ks);
    }
  }

  /** The separators that cannot stand in the open in an operand of `op`. */
  function Barred(op: Kind): set<Kind>
  {
    if op.OrOr? then {Amp, Semi} else {Amp, Semi, OrOr}
  }

  lemma {:induction false} InfixTidy(ws: Line, i: nat, j: nat, c: Context, op: Kind, t: Tree)
    requires i <= j <= |ws| && (op == OrOr || op == AndAnd) && IsInfix(ws, i, j, c, op, t)
    ensures Tidy(ws, i, j, Barred(op))
    decreases j - i, if op.OrOr? then 3 else 1
  {
    hide KindOf, Is, Depth, IsOperand;
    if IsOperand(ws, i, j, c, op, t) {
      OperandTidy(ws, i, j, c, op, t);
    } else {
      var k :| i < k < j && InfixAt(ws, i, k, j, c, op, t);
      OperandTidy(ws, i, k, c, op, t.car);
      InfixTidy(ws, k + 1, j, c, op, t.cdr);
      OneMore(ws, i, k, Barred(op));
      Splice(ws, i, k + 1, j, Barred(op));
    }
  }

  lemma {:induction false} OperandTidy(ws: Line, i: nat, j: nat, c: Context, op: Kind, t: Tree)
    requires i <= j <= |ws| && (op == OrOr || op == AndAnd) && IsOperand(ws, i, j, c, op, t)
    ensures Tidy(ws, i, j, Barred(op) + {op})
    decreases j - i, if op.OrOr? then 2 else 0
  {
    hide KindOf, Is, Depth, IsInfix, IsPipeline;
    if op.OrOr? {
      InfixTidy(ws, i, j, c, AndAnd, t);
    } else {
      PipelineTidy(ws, i, j, c, t);
    }
  }

  lemma {:induction false} SequenceTidy(ws: Line, i: nat, j: nat, c: Context, t: Tree)
    requires i <= j <= |ws| && IsSequence(ws, i, j, c, t)
    ensures Tidy(ws, i, j, {Amp})
    decreases j - i, 0
  {
    hide KindOf, Is, Depth, IsInfix;
    if IsInfix(ws, i, j, c, OrOr, t) {
      InfixTidy(ws, i, j, c, OrOr, t);
    } else {
      var k :| i < k < j && SemiAt(ws, i, k, j, c, t);
      InfixTidy(ws, i, k, c, OrOr, if t.car.Null? then t.cdr else t.car);
      SentenceTidy(ws, k + 1, j, c, if t.car.Null? then Null else t.cdr);
      OneMore(ws, i, k, {Amp});
      Splice(ws, i, k + 1, j, {Amp});
    }
  }

  lemma {:induction false} SentenceTidy(ws: Line, i: nat, j: nat, c: Context, t: Tree)
    requires i <= j <= |ws| && IsSentence(ws, i, j, c, t)
    ensures Balanced(ws, i, j) && (i < j ==> Tidy(ws, i, j, {}))
    decreases j - i, 2
  {
    hide KindOf, Is, IsLine;
    if i < j {
      if KindOf(ws[i]) in {Amp, AndAnd, Semi} {
        SentenceTidy(ws, i + 1, j, c, t);
        OneMore(ws, i, i, {});
        Splice(ws, i, i + 1, j, {});
      } else {
        LineTidy(ws, i, j, c, t);
      }
    }
  }

  lemma {:induction false} LineTidy(ws: Line, i: nat, j: nat, c: Context, t: Tree)
    requires i <= j <= |ws| && IsLine(ws, i, j, c, t)
    ensures Tidy(ws, i, j, {})
    decreases j - i, 1
  {
    hide KindOf, Is, Depth, IsSequence, IsSentence;
    if IsSequence(ws, i, j, c, t) {
      SequenceTidy(ws, i, j, c, t);
    } else {
      var k, first :| i < k < j && AmpAt(ws, i, k, j, c, first, t);
      SequenceTidy(ws, i, k, c, first);
      SentenceTidy(ws, k, j, c, t.cdr);
      Splice(ws, i, k, j, {});
    }
  }

  // Where a phrase is cut: the first separator of its level in the open is the only place.

  lemma {:induction false} NestedParts(ws: Line, i: nat, k: nat, j: nat)
    requires i <= k <= j <= |ws| && Depth(ws, i, k) == 0
    ensures Depth(ws, i, j) == Depth(ws, k, j)
    ensures Nested(ws, i, j) ==> Nested(ws, i, k) && Nested(ws, k, j)
  {
    hide KindOf;
    forall m | k <= m <= j
      ensures Depth(ws, i, m) == Depth(ws, k, m)
    {
      DepthSplit(ws, i, k, m);
    }
  }

  /** Behind a cut the words in the open are those of the whole; the first of them must not have been excused. */
  lemma {:induction false} NoTopParts(ws: Line, i: nat, k: nat, j: nat, ks: set<Kind>)
    requires i <= k <= j <= |ws| && Depth(ws, i, k) == 0 && NoTop(ws, i, j, ks)
    ensures NoTop(ws, i, k, ks) && ((k < j ==> !Excused(ws, i, k)) ==> NoTop(ws, k, j, ks))
  {
    hide KindOf, Is;
    forall m | k <= m <= j
      ensures Depth(ws, i, m) == Depth(ws, k, m)
    {
      DepthSplit(ws, i, k, m);
    }
  }

  /** One word further in a scan. */
  lemma {:induction false} Step(ws: Line, i: nat, p: nat, ks: set<Kind>)
    requires i <= p < |ws|
    ensures Depth(ws, i, p + 1) == Depth(ws, i, p) + Delta(ws[p])
    ensures NoTop(ws, i, p, ks) && (Depth(ws, i, p) == 0 && KindOf(ws[p]) in ks ==> Excused(ws, i, p))
            ==> NoTop(ws, i, p + 1, ks)
  {
    hide KindOf, Is;
  }

  lemma {:induction false} StepNested(ws: Line, i: nat, p: nat)
    requires i <= p < |ws|
    ensures Nested(ws, i, p + 1) <==> Nested(ws, i, p) && Depth(ws, i, p + 1) >= 0
    ensures Nested(ws, i, p) ==> Depth(ws, i, p) >= 0
  {
    hide KindOf, Is, Depth;
  }

  lemma {:induction false} Start(ws: Line, i: nat, ks: set<Kind>)
    requires i <= |ws|
    ensures Depth(ws, i, i) == 0 && Nested(ws, i, i) && NoTop(ws, i, i, ks)
  {
  }

  lemma {:induction false} NoTopUnion(ws: Line, i: nat, j: nat, ks: set<Kind>, more: set<Kind>)
    requires i <= j <= |ws| && NoTop(ws, i, j, ks) && NoTop(ws, i, j, more)
    ensures NoTop(ws, i, j, ks + more)
  {
    hide KindOf, Is, Depth;
  }

  lemma {:induction false} ExcusedIsAmp(ws: Line, i: nat, k: nat)
    requires i <= k < |ws|
    ensures Excused(ws, i, k) ==> KindOf(ws[k]).Amp?
  {
    FixedWords(ws[k]);
  }

  /** The first word of kind `op` in the open, from two points of view. */
  lemma {:induction false} SameCut(ws: Line, i: nat, p: nat, k: nat, op: Kind)
    requires i <= p < |ws| && i <= k < |ws| && KindOf(ws[p]) == op == KindOf(ws[k])
    requires Depth(ws, i, p) == 0 && NoTop(ws, i, p, {op}) && !Excused(ws, i, p)
    requires Depth(ws, i, k) == 0 && NoTop(ws, i, k, {op}) && !Excused(ws, i, k)
    ensures p == k
  {
  }

  lemma {:induction false} InfixCut(ws: Line, i: nat, j: nat, c: Context, op: Kind, t: Tree, p: nat)
    requires i <= p < j <= |ws| && (op == OrOr || op == AndAnd) && IsInfix(ws, i, j, c, op, t)
    requires KindOf(ws[p]) == op && Depth(ws, i, p) == 0 && NoTop(ws, i, p, {op})
    ensures i < p && (if op.OrOr? then t.Or? else t.And?) && InfixAt(ws, i, p, j, c, op, t)
  {
    hide KindOf, Is, Depth, IsOperand;
    ExcusedIsAmp(ws, i, p);
    if IsOperand(ws, i, j, c, op, t) {
      OperandTidy(ws, i, j, c, op, t);
    } else {
      var k :| i < k < j && InfixAt(ws, i, k, j, c, op, t);
      ExcusedIsAmp(ws, i, k);
      OperandTidy(ws, i, k, c, op, t.car);
      SameCut(ws, i, p, k, op);
    }
  }

  lemma {:induction false} InfixUncut(ws: Line, i: nat, j: nat, c: Context, op: Kind, t: Tree)
    requires i <= j <= |ws| && (op == OrOr || op == AndAnd) && IsInfix(ws, i, j, c, op, t) && NoTop(ws, i, j, {op})
    ensures IsOperand(ws, i, j, c, op, t)
  {
    hide KindOf, Is, Depth, IsOperand;
    if !IsOperand(ws, i, j, c, op, t) {
      var k :| i < k < j && InfixAt(ws, i, k, j, c, op, t);
      ExcusedIsAmp(ws, i, k);
      OperandTidy(ws, i, k, c, op, t.car);
      assert false;
    }
  }

  lemma {:induction false} PipelineCut(ws: Line, i: nat, j: nat, c: Context, t: Tree, p: nat)
    requires i <= p < j <= |ws| && IsPipeline(ws, i, j, c, t)
    requires KindOf(ws[p]).Bar? && Depth(ws, i, p) == 0 && NoTop(ws, i, p, {Bar})
    ensures i < p && t.Pipe? && BarAt(ws, i, p, j, c, t)
  {
    hide KindOf, Is, Depth, IsSimple;
    ExcusedIsAmp(ws, i, p);
    if IsSimple(ws, i, j, c, t) {
      SimpleTidy(ws, i, j, c, t);
    } else {
      var k :| i < k < j && BarAt(ws, i, k, j, c, t);
      ExcusedIsAmp(ws, i, k);
      SimpleTidy(ws, i, k, c.(pout := true, perr := c.perr || (k + 1 < j && Is(ws[k + 1], "&"))), t.car);
      SameCut(ws, i, p, k, Bar);
    }
  }

  lemma {:induction false} PipelineUncut(ws: Line, i: nat, j: nat, c: Context, t: Tree)
    requires i <= j <= |ws| && IsPipeline(ws, i, j, c, t) && NoTop(ws, i, j, {Bar})
    ensures IsSimple(ws, i, j, c, t)
  {
    hide KindOf, Is, Depth, IsSimple;
    if !IsSimple(ws, i, j, c, t) {
      var k :| i < k < j && BarAt(ws, i, k, j, c, t);
      ExcusedIsAmp(ws, i, k);
      SimpleTidy(ws, i, k, c.(pout := true, perr := c.perr || (k + 1 < j && Is(ws[k + 1], "&"))), t.car);
      assert false;
    }
  }

  lemma {:induction false} SequenceCut(ws: Line, i: nat, j: nat, c: Context, t: Tree, p: nat)
    requires i <= p < j <= |ws| && IsSequence(ws, i, j, c, t)
    requires KindOf(ws[p]).Semi? && Depth(ws, i, p) == 0 && NoTop(ws, i, p, {Semi})
    ensures i < p && t.List? && SemiAt(ws, i, p, j, c, t)
  {
    hide KindOf, Is, Depth, IsInfix, IsSentence;
    ExcusedIsAmp(ws, i, p);
    if IsInfix(ws, i, j, c, OrOr, t) {
      InfixTidy(ws, i, j, c, OrOr, t);
    } else {
      var k :| i < k < j && SemiAt(ws, i, k, j, c, t);
      ExcusedIsAmp(ws, i, k);
      InfixTidy(ws, i, k, c, OrOr, if t.car.Null? then t.cdr else t.car);
      SameCut(ws, i, p, k, Semi);
    }
  }

  lemma {:induction false} SequenceUncut(ws: Line, i: nat, j: nat, c: Context, t: Tree)
    requires i <= j <= |ws| && IsSequence(ws, i, j, c, t) && NoTop(ws, i, j, {Semi})
    ensures IsInfix(ws, i, j, c, OrOr, t)
  {
    hide KindOf, Is, Depth, IsInfix, IsSentence;
    if !IsInfix(ws, i, j, c, OrOr, t) {
      var k :| i < k < j && SemiAt(ws, i, k, j, c, t);
      ExcusedIsAmp(ws, i, k);
      InfixTidy(ws, i, k, c, OrOr, if t.car.Null? then t.cdr else t.car);
      assert false;
    }
  }

  lemma {:induction false} LineCut(ws: Line, i: nat, j: nat, c: Context, t: Tree, p: nat) returns (first: Tree)
    requires i <= p < j <= |ws| && IsLine(ws, i, j, c, t)
    requires KindOf(ws[p]).Amp? && Depth(ws, i, p) == 0 && NoTop(ws, i, p, {Amp}) && !Excused(ws, i, p)
    ensures i < p && t.List? && AmpAt(ws, i, p, j, c, first, t)
  {
    hide KindOf, Is, Depth, IsSequence, IsSentence;
    if IsSequence(ws, i, j, c, t) {
      SequenceTidy(ws, i, j, c, t);
    } else {
      var k, one :| i < k < j && AmpAt(ws, i, k, j, c, one, t);
      first := one;
      SequenceTidy(ws, i, k, c, first);
      SameCut(ws, i, p, k, Amp);
    }
  }

  lemma {:induction false} LineUncut(ws: Line, i: nat, j: nat, c: Context, t: Tree)
    requires i <= j <= |ws| && IsLine(ws, i, j, c, t) && NoTop(ws, i, j, {Amp})
    ensures IsSequence(ws, i, j, c, t)
  {
    hide KindOf, Is, Depth, IsSequence, IsSentence;
    if !IsSequence(ws, i, j, c, t) {
      var k, first :| i < k < j && AmpAt(ws, i, k, j, c, first, t);
      SequenceTidy(ws, i, k, c, first);
      assert false;
    }
  }
}
