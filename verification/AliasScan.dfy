/** The scan for aliases that every line goes through before it is parsed, with no alias to substitute. */
module AliasScan {
  import opened Words
  import opened Grammar
  import opened Clauses
  import opened Parser
  import Phrases
  import Spelling

  const SKIPPED := {Amp, AndAnd, Semi}

  /** What `asyntax`, `asyn0` and `asyn3` let through. */
  predicate Scan(ws: Line, p1: nat, p2: nat)
    requires p1 <= p2 <= |ws|
    decreases p2 - p1, 3, 0
  {
    p1 == p2 || (if KindOf(ws[p1]) in SKIPPED then Scan(ws, p1 + 1, p2) else Scan0(ws, p1, p1, 0, p2))
  }

  /** The command that starts at `p1`, from `p` on, where `l` parentheses are open. */
  predicate Scan0(ws: Line, p1: nat, p: nat, l: int, p2: nat)
    requires p1 <= p <= p2 <= |ws|
    decreases p2 - p1, 2, p2 - p
  {
    if p == p2 then l == 0 ==> Scan3(ws, p1, p2)
    else match KindOf(ws[p])
      case Open => Scan0(ws, p1, p + 1, l + 1, p2)
      case Close => l > 0 && Scan0(ws, p1, p + 1, l - 1, p2)
      case Greater => Scan0(ws, p1, if p + 1 != p2 && Is(ws[p + 1], "&") then p + 2 else p + 1, l, p2)
      case Less => Scan0(ws, p1, p + 1, l, p2)
      case Plain => Scan0(ws, p1, p + 1, l, p2)
      case _ => if l != 0 then Scan0(ws, p1, p + 1, l, p2) else Scan3(ws, p1, p) && Scan(ws, p + 1, p2)
  }

  predicate Scan3(ws: Line, p1: nat, p2: nat)
    requires p1 <= p2 <= |ws|
    decreases p2 - p1, 1, 0
  {
    p1 == p2 || !KindOf(ws[p1]).Open? ||
    var e := LastClose(ws, p1, p2);
    e <= p1 + 1 || Scan0(ws, p1 + 1, p1 + 1, 0, e)
  }

  /** The last closing parenthesis, or `p1` if there is none. */
  function LastClose(ws: Line, p1: nat, p2: nat): (e: nat)
    requires p1 < p2 <= |ws|
    ensures p1 <= e < p2
    decreases p2
  {
    if KindOf(ws[p2 - 1]).Close? || p2 - 1 == p1 then p2 - 1 else LastClose(ws, p1, p2 - 1)
  }

  lemma {:induction false} NestedJoin(ws: Line, i: nat, k: nat, j: nat)
    requires i <= k <= j <= |ws| && Depth(ws, i, k) == 0 && Nested(ws, i, k) && Nested(ws, k, j)
    ensures Nested(ws, i, j)
  {
    hide KindOf;
    forall m | k <= m <= j
      ensures Depth(ws, i, m) == Depth(ws, k, m)
    {
      DepthSplit(ws, i, k, m);
    }
  }

  /** `asyntax`. */
  method Asyntax(ws: Line, p1: nat, p2: nat) returns (ok: bool)
    requires p1 <= p2 <= |ws|
    ensures ok == Scan(ws, p1, p2) && (ok ==> Nested(ws, p1, p2))
    decreases p2 - p1, 3
  {
    hide KindOf, Depth, Nested, Scan0;
    var p := p1;
    Start(ws, p1, {});
    while p != p2
      invariant p1 <= p <= p2 && Depth(ws, p1, p) == 0 && Nested(ws, p1, p) && Scan(ws, p, p2) == Scan(ws, p1, p2)
      decreases p2 - p
    {
      if KindOf(ws[p]) in SKIPPED {
        Step(ws, p1, p, {});
        StepNested(ws, p1, p);
        p := p + 1;
      } else {
        ok := Asyn0(ws, p, p2);
        if ok {
          NestedJoin(ws, p1, p, p2);
        }
        return;
      }
    }
    ok := true;
  }

  /** `asyn0`: a parenthesis that closes what was not opened is an error. */
  method Asyn0(ws: Line, p1: nat, p2: nat) returns (ok: bool)
    requires p1 <= p2 <= |ws|
    ensures ok == Scan0(ws, p1, p1, 0, p2) && (ok ==> Nested(ws, p1, p2))
    decreases p2 - p1, 2
  {
    hide KindOf, Is, Depth, Nested, Scan, Scan3;
    var p, l := p1, 0;
    Start(ws, p1, {});
    while p != p2
      invariant p1 <= p <= p2 && l == Depth(ws, p1, p) && Nested(ws, p1, p)
      invariant Scan0(ws, p1, p, l, p2) == Scan0(ws, p1, p1, 0, p2)
      decreases p2 - p
    {
      Step(ws, p1, p, {});
      StepNested(ws, p1, p);
      match KindOf(ws[p]) {
        case Open => l := l + 1;
        case Close =>
          l := l - 1;
          if l < 0 {
            return false;
          }
        case Greater =>
          if p + 1 != p2 && Is(ws[p + 1], "&") {
            FixedWords(ws[p + 1]);
            Step(ws, p1, p + 1, {});
            StepNested(ws, p1, p + 1);
            p := p + 1;
          }
        case Less | Plain =>
        case _ =>
          if l == 0 {
            ok := Asyn3(ws, p1, p);
            if ok {
              ok := Asyntax(ws, p + 1, p2);
            }
            if ok {
              NestedJoin(ws, p1, p + 1, p2);
            }
            return;
          }
      }
      p := p + 1;
    }
    ok := true;
    if l == 0 {
      ok := Asyn3(ws, p1, p2);
    }
  }

  /** `asyn3` on a command whose word has no alias: only a parenthesised one is looked into. */
  method Asyn3(ws: Line, p1: nat, p2: nat) returns (ok: bool)
    requires p1 <= p2 <= |ws|
    ensures ok == Scan3(ws, p1, p2)
    decreases p2 - p1, 1
  {
    hide KindOf, Scan0;
    if p1 == p2 || !KindOf(ws[p1]).Open? {
      return true;
    }
    var e := p2 - 1;
    while !KindOf(ws[e]).Close?
      invariant p1 <= e < p2 && LastClose(ws, p1, e + 1) == LastClose(ws, p1, p2)
      decreases e
    {
      if e == p1 {
        return true;
      }
      e := e - 1;
    }
    ok := true;
    if e > p1 + 1 {
      ok := Asyn0(ws, p1 + 1, e);
    }
  }

  // Every sentence gets through

  ghost predicate Cmd(ws: Line, i: nat, j: nat)
    requires i <= j <= |ws|
  {
    exists c, t :: IsSimple(ws, i, j, c, t)
  }

  /** A command, or a command, a separator and more. */
  ghost predicate Chain(ws: Line, i: nat, j: nat)
    requires i <= j <= |ws|
    decreases j - i, 1
  {
    Cmd(ws, i, j) || exists k :: i < k < j && Link(ws, i, k, j)
  }

  ghost predicate Link(ws: Line, i: nat, k: nat, j: nat)
    requires i < k < j <= |ws|
    decreases j - i, 0
  {
    Cmd(ws, i, k) && KindOf(ws[k]) in SEPARATORS && Loose(ws, k + 1, j)
  }

  /** A chain behind any number of separators, or only these. */
  ghost predicate Loose(ws: Line, i: nat, j: nat)
    requires i <= j <= |ws|
    decreases j - i, 2
  {
    i == j || (KindOf(ws[i]) in SKIPPED && Loose(ws, i + 1, j)) || Chain(ws, i, j)
  }

  lemma {:induction false} ChainParts(ws: Line, i: nat, j: nat) returns (k: nat)
    requires i <= j <= |ws| && Chain(ws, i, j)
    ensures i <= k <= j && Cmd(ws, i, k) && (k < j ==> i < k && KindOf(ws[k]) in SEPARATORS && Loose(ws, k + 1, j))
  {
    hide KindOf, Cmd;
    k := j;
    if !Cmd(ws, i, j) {
      k :| i < k < j && Link(ws, i, k, j);
    }
  }

  lemma {:induction false} CmdTidy(ws: Line, i: nat, j: nat) returns (c: Context, t: Tree)
    requires i <= j <= |ws| && Cmd(ws, i, j)
    ensures IsSimple(ws, i, j, c, t) && Tidy(ws, i, j, SEPARATORS)
  {
    hide IsSimple;
    c, t :| IsSimple(ws, i, j, c, t);
    SimpleTidy(ws, i, j, c, t);
  }

  /** More may follow a chain behind a separator. */
  lemma {:induction false} LooseJoin(ws: Line, i: nat, k: nat, j: nat)
    requires i <= k < j <= |ws| && KindOf(ws[k]) in SKIPPED && Loose(ws, k + 1, j)
    ensures Loose(ws, i, k) ==> Loose(ws, i, j)
    ensures Chain(ws, i, k) ==> Chain(ws, i, j)
    decreases k - i
  {
    hide KindOf, Cmd;
    if i < k {
      LooseJoin(ws, i + 1, k, j);
      if Chain(ws, i, k) {
        var m := ChainParts(ws, i, k);
        if m < k {
          LooseJoin(ws, m + 1, k, j);
        }
        assert Link(ws, i, m, j);
      }
    } else {
      NoCmd(ws, i);
    }
  }

  lemma {:induction false} NoCmd(ws: Line, i: nat)
    requires i <= |ws|
    ensures !Chain(ws, i, i)
  {
    hide IsSimple, Cmd;
    if Cmd(ws, i, i) {
      var c, t := CmdTidy(ws, i, i);
    }
  }

  /** A chain behind a command and a separator. */
  lemma {:induction false} Prefixed(ws: Line, i: nat, k: nat, c: Context, t: Tree, j: nat)
    requires i < k < j <= |ws| && IsSimple(ws, i, k, c, t) && KindOf(ws[k]) in SEPARATORS && Loose(ws, k + 1, j)
    ensures Chain(ws, i, j)
  {
    assert Link(ws, i, k, j);
  }

  /** A pipeline, with what may follow it, is a chain. */
  lemma {:induction false} PipelineChain(ws: Line, i: nat, j: nat, c: Context, t: Tree, k: nat)
    requires i <= j <= k <= |ws| && IsPipeline(ws, i, j, c, t)
    requires j < k ==> KindOf(ws[j]) in SEPARATORS && Loose(ws, j + 1, k)
    ensures Chain(ws, i, k)
    decreases j - i
  {
    hide KindOf, Is, IsSimple, Loose, Chain;
    if IsSimple(ws, i, j, c, t) {
      SimpleTidy(ws, i, j, c, t);
      SimpleChain(ws, i, j, c, t, k);
    } else {
      var m :| i < m < j && BarAt(ws, i, m, j, c, t);
      var both := m + 1 < j && Is(ws[m + 1], "&");
      var next := if both then m + 2 else m + 1;
      PipelineTidy(ws, next, j, c.(pin := true), t.cdr);
      PipelineChain(ws, next, j, c.(pin := true), t.cdr, k);
      if both {
        FixedWords(ws[m + 1]);
      }
      ChainLoose(ws, m + 1, next, k);
      Prefixed(ws, i, m, c.(pout := true, perr := c.perr || both), t.car, k);
    }
  }

  lemma {:induction false} SimpleChain(ws: Line, i: nat, j: nat, c: Context, t: Tree, k: nat)
    requires i < j <= k <= |ws| && IsSimple(ws, i, j, c, t)
    requires j < k ==> KindOf(ws[j]) in SEPARATORS && Loose(ws, j + 1, k)
    ensures Chain(ws, i, k)
  {
    hide KindOf, IsSimple, Loose;
    if j < k {
      assert Link(ws, i, j, k);
    }
  }

  lemma {:induction false} ChainLoose(ws: Line, i: nat, next: nat, j: nat)
    requires i <= next <= j <= |ws| && next <= i + 1 && Chain(ws, next, j) && (i < next ==> KindOf(ws[i]) in SKIPPED)
    ensures Loose(ws, i, j)
  {
    hide KindOf, Chain;
  }

  lemma {:induction false} InfixChain(ws: Line, i: nat, j: nat, c: Context, op: Kind, t: Tree, k: nat)
    requires i <= j <= k <= |ws| && (op == OrOr || op == AndAnd) && IsInfix(ws, i, j, c, op, t)
    requires j < k ==> KindOf(ws[j]) in SEPARATORS && Loose(ws, j + 1, k)
    ensures Chain(ws, i, k)
    decreases j - i, if op.OrOr? then 3 else 1
  {
    hide KindOf, IsPipeline, Loose, Chain;
    if IsOperand(ws, i, j, c, op, t) {
      OperandChain(ws, i, j, c, op, t, k);
    } else {
      var m :| i < m < j && InfixAt(ws, i, m, j, c, op, t);
      InfixChain(ws, m + 1, j, c, op, t.cdr, k);
      ChainLoose(ws, m + 1, m + 1, k);
      OperandChain(ws, i, m, c, op, t.car, k);
    }
  }

  lemma {:induction false} OperandChain(ws: Line, i: nat, j: nat, c: Context, op: Kind, t: Tree, k: nat)
    requires i <= j <= k <= |ws| && (op == OrOr || op == AndAnd) && IsOperand(ws, i, j, c, op, t)
    requires j < k ==> KindOf(ws[j]) in SEPARATORS && Loose(ws, j + 1, k)
    ensures Chain(ws, i, k)
    decreases j - i, if op.OrOr? then 2 else 0
  {
    hide KindOf, IsPipeline, Loose, Chain;
    if op.OrOr? {
      InfixChain(ws, i, j, c, AndAnd, t, k);
    } else {
      PipelineChain(ws, i, j, c, t, k);
    }
  }

  lemma {:induction false} SequenceChain(ws: Line, i: nat, j: nat, c: Context, t: Tree)
    requires i <= j <= |ws| && IsSequence(ws, i, j, c, t)
    ensures Chain(ws, i, j)
    decreases j - i, 3
  {
    hide KindOf, IsInfix, Loose, Chain, IsSentence, NoTop;
    if IsInfix(ws, i, j, c, OrOr, t) {
      InfixChain(ws, i, j, c, OrOr, t, j);
    } else {
      var k :| i < k < j && SemiAt(ws, i, k, j, c, t);
      var rest := if t.car.Null? then Null else t.cdr;
      SentenceLoose(ws, k + 1, j, c, rest);
      InfixChain(ws, i, k, c, OrOr, if t.car.Null? then t.cdr else t.car, j);
    }
  }

  lemma {:induction false} LineChain(ws: Line, i: nat, j: nat, c: Context, t: Tree)
    requires i <= j <= |ws| && IsLine(ws, i, j, c, t)
    ensures Chain(ws, i, j)
    decreases j - i, 5
  {
    hide KindOf, IsSequence, Chain, IsSentence;
    if IsSequence(ws, i, j, c, t) {
      SequenceChain(ws, i, j, c, t);
    } else {
      var k, first :| i < k < j && AmpAt(ws, i, k, j, c, first, t);
      SequenceChain(ws, i, k, c, first);
      SentenceLoose(ws, k, j, c, t.cdr);
      LooseTail(ws, k, j);
      LooseJoin(ws, i, k, j);
    }
  }

  lemma {:induction false} LooseTail(ws: Line, k: nat, j: nat)
    requires k < j <= |ws| && KindOf(ws[k]) in SKIPPED && Loose(ws, k, j)
    ensures Loose(ws, k + 1, j)
  {
    hide KindOf, Chain;
    if Chain(ws, k, j) {
      ChainStart(ws, k, j);
    }
  }

  /** A chain starts with no separator. */
  lemma {:induction false} ChainStart(ws: Line, i: nat, j: nat)
    requires i <= j <= |ws| && Chain(ws, i, j)
    ensures i < j && KindOf(ws[i]) !in SEPARATORS
  {
    hide KindOf, IsSimple, Is, Loose, Chain;
    var k := ChainParts(ws, i, j);
    var c, t := CmdTidy(ws, i, k);
    assert Depth(ws, i, i) == 0;
  }

  lemma {:induction false} SentenceLoose(ws: Line, i: nat, j: nat, c: Context, t: Tree)
    requires i <= j <= |ws| && IsSentence(ws, i, j, c, t)
    ensures Loose(ws, i, j)
    decreases j - i, 6
  {
    hide KindOf, IsLine, Chain;
    if i < j {
      if KindOf(ws[i]) in SKIPPED {
        SentenceLoose(ws, i + 1, j, c, t);
      } else {
        LineChain(ws, i, j, c, t);
      }
    }
  }

  /** The scan passes over a command. */
  lemma {:induction false} Walk(ws: Line, i: nat, p: nat, k: nat, j: nat)
    requires i <= p <= k <= j <= |ws| && Tidy(ws, i, k, SEPARATORS)
    requires i < p < k && KindOf(ws[p - 1]).Greater? ==> !Is(ws[p], "&")
    ensures Scan0(ws, i, p, Depth(ws, i, p), j) == Scan0(ws, i, k, 0, j)
    decreases k - p
  {
    hide KindOf, Is, Scan0, Depth, Tidy;
    if p == k {
      assert Depth(ws, i, k) == 0 by {
        Ended(ws, i, k);
      }
    } else {
      AtWord(ws, i, p, k);
      ScanStep(ws, i, p, Depth(ws, i, p), j);
      if KindOf(ws[p]).Greater? && p + 1 != j && Is(ws[p + 1], "&") {
        FixedWords(ws[p + 1]);
        Step(ws, i, p + 1, {});
        Walk(ws, i, p + 2, k, j);
      } else {
        Walk(ws, i, p + 1, k, j);
      }
    }
  }

  lemma {:induction false} Ended(ws: Line, i: nat, k: nat)
    requires i <= k <= |ws| && Tidy(ws, i, k, SEPARATORS)
    ensures Depth(ws, i, k) == 0
  {
  }

  /** A word inside a command: no parenthesis closes too much, and a separator in the open is the `&` of `>&`. */
  lemma {:induction false} AtWord(ws: Line, i: nat, p: nat, k: nat)
    requires i <= p < k <= |ws| && Tidy(ws, i, k, SEPARATORS)
    ensures Depth(ws, i, p) >= 0 && Depth(ws, i, p + 1) == Depth(ws, i, p) + Delta(ws[p]) >= 0
    ensures Depth(ws, i, p) == 0 && KindOf(ws[p]) in SEPARATORS ==>
      i < p && KindOf(ws[p - 1]).Greater? && Is(ws[p], "&")
    ensures p + 1 == k ==> !KindOf(ws[p]).Greater?
  {
    hide KindOf, Is, Depth;
    Step(ws, i, p, {});
    if Depth(ws, i, p) == 0 && KindOf(ws[p]) in SEPARATORS {
      NotInTheOpen(ws, i, p, k);
    }
  }

  /** One word of the scan. */
  lemma {:induction false} ScanStep(ws: Line, i: nat, p: nat, l: int, j: nat)
    requires i <= p < j <= |ws| && l >= 0 && l + Delta(ws[p]) >= 0 && (l == 0 ==> KindOf(ws[p]) !in SEPARATORS)
    ensures Scan0(ws, i, p, l, j) ==
      if KindOf(ws[p]).Greater? && p + 1 != j && Is(ws[p + 1], "&") then Scan0(ws, i, p + 2, l, j)
      else Scan0(ws, i, p + 1, l + Delta(ws[p]), j)
  {
    hide KindOf, Is, Scan, Scan3;
  }

  lemma {:induction false} NotInTheOpen(ws: Line, i: nat, p: nat, k: nat)
    requires i <= p < k <= |ws| && Tidy(ws, i, k, SEPARATORS) && Depth(ws, i, p) == 0 && KindOf(ws[p]) in SEPARATORS
    ensures i < p && KindOf(ws[p - 1]).Greater? && Is(ws[p], "&")
  {
    hide KindOf, Is;
    if KindOf(ws[p - 1]).Bar? {
      assert Depth(ws, i, p - 1) == 0;
      ExcusedIsAmp(ws, i, p - 1);
    }
  }

  /** After the group of a subshell there is no other parenthesis. */
  lemma {:induction false} AfterGroup(ws: Line, i: nat, j: nat, c: Context, leaf: Leaf)
    requires i <= j <= |ws| && leaf.group.Some? && Clause(ws, i, j, c, false, leaf).Some?
    ensures forall m :: i <= m < j ==> !KindOf(ws[m]).Close?
    decreases j - i
  {
    hide KindOf, Is;
    if i < j {
      var k := ItemEnd(ws, i, j);
      var more := Take(ws, i, j, c, false, leaf).value;
      AfterGroup(ws, k, j, c, more);
      forall m | i <= m < k
        ensures !KindOf(ws[m]).Close?
      {
        FixedWords(ws[m]);
      }
    }
  }

  lemma {:induction false} LastCloseIs(ws: Line, i: nat, e: nat, j: nat)
    requires i < e < j <= |ws| && KindOf(ws[e]).Close? && forall m :: e < m < j ==> !KindOf(ws[m]).Close?
    ensures LastClose(ws, i, j) == e
    decreases j
  {
    hide KindOf;
    if e + 1 < j {
      LastCloseIs(ws, i, e, j - 1);
    }
  }

  /** A command that starts with a parenthesis is a subshell: its group, and no parenthesis after that. */
  lemma {:induction false} Subshell(ws: Line, i: nat, j: nat, c: Context, t: Tree)
    requires i < j <= |ws| && IsSimple(ws, i, j, c, t) && KindOf(ws[i]).Open?
    ensures var e := LastClose(ws, i, j); i < e && t.Paren? && IsLine(ws, i + 1, e, SUBSHELL, t.body)
  {
    hide KindOf, Is, IsLine, Take;
    FixedWords(ws[i]);
    var k := ItemEnd(ws, i, j);
    var more := Take(ws, i, j, c, false, Bare(ws, j)).value;
    Phrases.TakeAdds(ws, i, j, c, false, Bare(ws, j));
    AfterGroup(ws, k, j, c, more);
    Phrases.ClauseGrows(ws, k, j, c, false, more);
    LastCloseIs(ws, i, k - 1, j);
  }

  lemma {:induction false} CommandPasses(ws: Line, i: nat, j: nat, c: Context, t: Tree)
    requires i <= j <= |ws| && IsSimple(ws, i, j, c, t)
    ensures Scan3(ws, i, j)
    decreases j - i, 0
  {
    hide KindOf, IsSimple, Scan0, Chain;
    if i < j && KindOf(ws[i]).Open? {
      Subshell(ws, i, j, c, t);
      var e := LastClose(ws, i, j);
      LineChain(ws, i + 1, e, SUBSHELL, t.body);
      ChainPasses(ws, i + 1, e);
    }
  }

  lemma {:induction false} ChainPasses(ws: Line, i: nat, j: nat)
    requires i <= j <= |ws| && Chain(ws, i, j)
    ensures Scan0(ws, i, i, 0, j)
    decreases j - i, 1
  {
    hide KindOf, IsSimple, Loose, Scan, Scan3, Scan0, Chain;
    var k := ChainParts(ws, i, j);
    var c, t := CmdTidy(ws, i, k);
    Walk(ws, i, i, k, j);
    CommandPasses(ws, i, k, c, t);
    if k < j {
      LoosePasses(ws, k + 1, j);
    }
    AtEnd(ws, i, k, j);
  }

  lemma {:induction false} AtEnd(ws: Line, i: nat, k: nat, j: nat)
    requires i <= k <= j <= |ws| && Scan3(ws, i, k) && (k < j ==> KindOf(ws[k]) in SEPARATORS && Scan(ws, k + 1, j))
    ensures Scan0(ws, i, k, 0, j) && Depth(ws, i, i) == 0
  {
    hide KindOf, Scan3, Scan;
  }

  lemma {:induction false} LoosePasses(ws: Line, i: nat, j: nat)
    requires i <= j <= |ws| && Loose(ws, i, j)
    ensures Scan(ws, i, j)
    decreases j - i, 2
  {
    hide KindOf, Chain, Scan0;
    if Chain(ws, i, j) {
      ChainStart(ws, i, j);
      ChainPasses(ws, i, j);
    } else if i < j {
      LoosePasses(ws, i + 1, j);
    }
  }

  /** Every sentence gets through the scan. */
  lemma {:induction false} SentencePasses(ws: Line, c: Context, t: Tree)
    requires IsSentence(ws, 0, |ws|, c, t)
    ensures Scan(ws, 0, |ws|)
  {
    hide IsSentence, Loose, Scan;
    SentenceLoose(ws, 0, |ws|, c, t);
    LoosePasses(ws, 0, |ws|);
  }

  /** A line as the main loop handles it: the alias scan and then the parser, which now never loses its way. Accepted
      are exactly the sentences, each as the only tree it stands for. */
  method ParseLine(ws: Line) returns (t: Tree, s: Status)
    ensures !s.Lost?
    ensures s.Clean? <==> exists u :: IsSentence(ws, 0, |ws|, TOP, u)
    ensures s.Clean? ==> forall u :: IsSentence(ws, 0, |ws|, TOP, u) <==> u == t
    ensures s.Clean? ==> Spelling.Written(t) == Spelling.Whole(ws)
  {
    hide IsSentence, Nested, Scan, Spelling.Written, Spelling.Whole;
    var ok := Asyntax(ws, 0, |ws|);
    if ok {
      t, s := Parse(ws);
    } else {
      if u :| IsSentence(ws, 0, |ws|, TOP, u) {
        SentencePasses(ws, TOP, u);
      }
      t, s := Null, Failed(TooManyRp);
    }
  }
}
