/** Short lines, and the trees they get: every connective between two plain commands, `&` behind them, every
    redirection, a subshell, the keywords, and two errors. */
module PlainLines {
  import opened Words
  import opened Grammar
  import Clauses
  import Parser

  /** A word that is no operator. */
  predicate Ordinary(w: Word)
  {
    At(w, 0) !in {'(' as int, ')' as int, '<' as int, '>' as int, '&' as int, '|' as int, ';' as int, '\n' as int}
  }

  predicate PlainWords(av: seq<Word>)
  {
    av != [] && forall i :: 0 <= i < |av| ==> Ordinary(av[i])
  }

  const NOIO := Io(None, None, {})

  const AMP: Word := ['&' as int]

  datatype Joint = JAnd | JOr | JPipe | JPipeBoth | JThen

  function Sign(op: Joint): seq<Word>
  {
    match op
    case JAnd => [['&' as int, '&' as int]]
    case JOr => [['|' as int, '|' as int]]
    case JPipe => [['|' as int]]
    case JPipeBoth => [['|' as int], AMP]
    case JThen => [[';' as int]]
  }

  function Node(op: Joint, l: Tree, r: Tree): Tree
  {
    match op
    case JAnd => And(l, r)
    case JOr => Or(l, r)
    case JPipe => Pipe(l, r, {})
    case JPipeBoth => Pipe(l, r, {Stderr})
    case JThen => List(l, r)
  }

  /** In the background: a pipeline is marked itself, the others are put into a subshell that is. */
  function BackNode(op: Joint, l: Tree, r: Tree): Tree
  {
    match op
    case JPipe => Pipe(l, r, {Ampersand, NoInterrupt})
    case JPipeBoth => Pipe(l, r, {Stderr, Ampersand, NoInterrupt})
    case _ => Paren(Node(op, l, r), Io(None, None, {Ampersand, NoInterrupt}))
  }

  // Simple commands

  lemma {:induction false} PlainClause(ws: Line, i: nat, j: nat, c: Context, special: bool, leaf: Leaf)
    requires i <= j <= |ws| && forall k :: i <= k < j ==> Ordinary(ws[k])
    ensures Clause(ws, i, j, c, special, leaf) == Some(leaf.(av := leaf.av + ws[i..j]))
    decreases j - i
  {
    if i < j {
      PlainClause(ws, i + 1, j, c, special, leaf.(av := leaf.av + [ws[i]]));
      assert ws[i..j] == [ws[i]] + ws[i + 1..j];
      assert leaf.av + [ws[i]] + ws[i + 1..j] == leaf.av + ws[i..j];
    } else {
      assert leaf.av + ws[i..j] == leaf.av;
    }
  }

  /** The words from `i` up to `j` are a command of their own. */
  ghost predicate Run(ws: Line, i: nat, j: nat)
  {
    i < j <= |ws| && forall k :: i <= k < j ==> Ordinary(ws[k])
  }

  lemma {:induction false} PlainSimple(ws: Line, i: nat, j: nat, c: Context)
    requires Run(ws, i, j)
    ensures var last := j < |ws| && At(ws[j], 0) == ')' as int;
      IsSimple(ws, i, j, c, Command(ws[i..j], Io(None, None, if last then {NoFork} else {})))
  {
    hide Clause, IsLine;
    PlainClause(ws, i, j, c, Special(ws, i, j), Bare(ws, j));
    assert [] + ws[i..j] == ws[i..j];
  }

  // From a simple command up

  lemma {:induction false} Upward(ws: Line, i: nat, j: nat, c: Context, t: Tree)
    requires i <= j <= |ws|
    ensures IsPipeline(ws, i, j, c, t) ==> IsInfix(ws, i, j, c, AndAnd, t)
    ensures IsInfix(ws, i, j, c, AndAnd, t) ==> IsInfix(ws, i, j, c, OrOr, t)
    ensures IsInfix(ws, i, j, c, OrOr, t) ==> IsSequence(ws, i, j, c, t)
    ensures IsSequence(ws, i, j, c, t) ==> IsLine(ws, i, j, c, t)
    ensures IsSimple(ws, i, j, c, t) ==> IsPipeline(ws, i, j, c, t)
  {
    hide IsSimple, BarAt, InfixAt, SemiAt, AmpAt;
  }

  /** The operator stands at `k`. */
  ghost predicate Stands(ws: Line, k: nat, op: Joint)
  {
    k + |Sign(op)| <= |ws| && ws[k..k + |Sign(op)|] == Sign(op)
  }

  lemma {:induction false} SignKind(ws: Line, k: nat, op: Joint)
    requires Stands(ws, k, op)
    ensures op.JAnd? ==> KindOf(ws[k]).AndAnd?
    ensures op.JOr? ==> KindOf(ws[k]).OrOr?
    ensures op.JPipe? || op.JPipeBoth? ==> KindOf(ws[k]).Bar?
    ensures op.JPipeBoth? ==> Is(ws[k + 1], "&")
    ensures op.JThen? ==> KindOf(ws[k]).Semi?
    ensures At(ws[k], 0) != ')' as int
  {
    var s := Sign(op);
    assert ws[k] == ws[k..k + |s|][0] == s[0];
    assert |s| == 2 ==> ws[k + 1] == ws[k..k + |s|][1] == s[1];
  }

  lemma {:induction false} PlainKind(w: Word)
    requires Ordinary(w)
    ensures KindOf(w).Plain? && !Is(w, "&")
  {
    FixedWords(w);
  }

  lemma {:induction false} PlainOpen(ws: Line, i: nat, j: nat)
    requires Run(ws, i, j)
    ensures NoTop(ws, i, j, {Amp})
  {
    hide KindOf, Is, Ordinary;
    forall k | i <= k < j ensures KindOf(ws[k]).Plain? {
      PlainKind(ws[k]);
    }
  }

  /** Two commands and what is between them. */
  lemma {:induction false} TwoCommands(ws: Line, i: nat, k: nat, j: nat, c: Context, op: Joint)
    requires Run(ws, i, k) && Stands(ws, k, op) && Run(ws, k + |Sign(op)|, j)
    requires j < |ws| ==> At(ws[j], 0) != ')' as int
    ensures IsSequence(ws, i, j, c, Node(op, Command(ws[i..k], NOIO), Command(ws[k + |Sign(op)|..j], NOIO)))
  {
    hide KindOf, Is, IsSimple, Ordinary, NoTop;
    var m := k + |Sign(op)|;
    var l, r := Command(ws[i..k], NOIO), Command(ws[m..j], NOIO);
    var t := Node(op, l, r);
    SignKind(ws, k, op);
    PlainSimple(ws, i, k, c);
    PlainSimple(ws, m, j, c);
    Upward(ws, i, k, c, l);
    Upward(ws, m, j, c, r);
    PlainKind(ws[m]);
    match op
    case JAnd =>
      assert InfixAt(ws, i, k, j, c, AndAnd, t);
      Upward(ws, i, j, c, t);
    case JOr =>
      assert InfixAt(ws, i, k, j, c, OrOr, t);
      Upward(ws, i, j, c, t);
    case JThen =>
      PlainOpen(ws, m, j);
      assert SemiAt(ws, i, k, j, c, t);
    case _ =>
      var both := op.JPipeBoth?;
      PlainSimple(ws, i, k, c.(pout := true, perr := c.perr || both));
      PlainSimple(ws, m, j, c.(pin := true));
      Upward(ws, m, j, c.(pin := true), r);
      assert BarAt(ws, i, k, j, c, t);
      Upward(ws, i, j, c, t);
  }

  /** `av op bv` is the node of the operator over the two commands. */
  method ParseTwo(av: seq<Word>, op: Joint, bv: seq<Word>) returns (t: Tree, s: Clauses.Status)
    requires PlainWords(av) && PlainWords(bv)
    ensures s.Clean? && t == Node(op, Command(av, NOIO), Command(bv, NOIO))
  {
    hide IsSentence, IsSequence, IsSimple, Nested, KindOf, Is, Clauses.Runaway;
    var ws := av + Sign(op) + bv;
    ghost var k, m := |av|, |av| + |Sign(op)|;
    assert ws[0..k] == av && ws[m..|ws|] == bv && ws[k..m] == Sign(op);
    TwoCommands(ws, 0, k, |ws|, TOP, op);
    ghost var u := Node(op, Command(av, NOIO), Command(bv, NOIO));
    FromSequence(ws, |ws|, u);
    t, s := Parser.Parse(ws);
  }

  lemma {:induction false} FromSequence(ws: Line, j: nat, t: Tree)
    requires j == |ws| && 0 < j && Ordinary(ws[0]) && IsSequence(ws, 0, j, TOP, t)
    ensures IsSentence(ws, 0, |ws|, TOP, t)
  {
    hide IsSequence, KindOf;
    PlainKind(ws[0]);
    Upward(ws, 0, j, TOP, t);
  }

  /** The line before a final `&`, in the background. */
  lemma {:induction false} InBackground(ws: Line, first: Tree)
    requires |ws| >= 2 && Ordinary(ws[0]) && ws[|ws| - 1] == AMP && IsSequence(ws, 0, |ws| - 1, TOP, first)
    ensures IsSentence(ws, 0, |ws|, TOP, List(Background(first), Null))
  {
    hide IsSequence, Background;
    var k, j, t := |ws| - 1, |ws|, List(Background(first), Null);
    PlainKind(ws[0]);
    assert KindOf(AMP).Amp?;
    assert IsSentence(ws, k + 1, j, TOP, Null);
    assert IsSentence(ws, k, j, TOP, Null);
    assert AmpAt(ws, 0, k, j, TOP, first, t);
  }

  /** `av &`. */
  method ParseBackground(av: seq<Word>) returns (t: Tree, s: Clauses.Status)
    requires PlainWords(av)
    ensures s.Clean? && t == List(Command(av, Io(None, None, {Ampersand, NoInterrupt})), Null)
  {
    hide IsSentence, IsSequence, IsSimple, Nested, KindOf, Is, Clauses.Runaway;
    var ws := av + [AMP];
    assert ws[0..|av|] == av;
    PlainSimple(ws, 0, |av|, TOP);
    Upward(ws, 0, |av|, TOP, Command(av, NOIO));
    InBackground(ws, Command(av, NOIO));
    t, s := Parser.Parse(ws);
  }

  /** `av op bv &`. */
  method ParseTwoBackground(av: seq<Word>, op: Joint, bv: seq<Word>) returns (t: Tree, s: Clauses.Status)
    requires PlainWords(av) && PlainWords(bv)
    ensures s.Clean? && t == List(BackNode(op, Command(av, NOIO), Command(bv, NOIO)), Null)
  {
    hide IsSentence, IsSequence, IsSimple, Nested, KindOf, Is, Clauses.Runaway, Background, Node, BackNode;
    var ws := av + Sign(op) + bv + [AMP];
    ghost var k, m, j := |av|, |av| + |Sign(op)|, |ws| - 1;
    assert ws[0..k] == av && ws[m..j] == bv && ws[k..m] == Sign(op);
    TwoCommands(ws, 0, k, j, TOP, op);
    BackNodeIs(op, Command(av, NOIO), Command(bv, NOIO));
    InBackground(ws, Node(op, Command(av, NOIO), Command(bv, NOIO)));
    t, s := Parser.Parse(ws);
  }

  lemma {:induction false} BackNodeIs(op: Joint, l: Tree, r: Tree)
    ensures Background(Node(op, l, r)) == BackNode(op, l, r)
  {
    assert {} + {Ampersand, NoInterrupt} == {Ampersand, NoInterrupt};
    assert {Stderr} + {Ampersand, NoInterrupt} == {Stderr, Ampersand, NoInterrupt};
  }

  // Redirections

  datatype Redirection = In | Here | Out(append: bool, both: bool, force: bool)

  function Redirected(how: Redirection): seq<Word>
  {
    match how
    case In => [['<' as int]]
    case Here => [['<' as int, '<' as int]]
    case Out(append, both, force) =>
      [if append then ['>' as int, '>' as int] else ['>' as int]] + (if both then [AMP] else []) +
      if force then [['!' as int]] else []
  }

  /** What the redirection is to leave in the tree. */
  function Result(how: Redirection, name: Word): Io
  {
    match how
    case In => Io(Some(name), None, {})
    case Here => Io(Some(name), None, {ReadHere})
    case Out(append, both, force) =>
      Io(None, Some(name), (if append then {Append} else {}) + (if both then {Stderr} else {}) +
                           if force then {Overwrite} else {})
  }

  lemma {:induction false} ClauseThen(ws: Line, i: nat, k: nat, j: nat, c: Context, special: bool, leaf: Leaf)
    requires i <= k <= j <= |ws| && forall m :: i <= m < k ==> Ordinary(ws[m])
    ensures Clause(ws, i, j, c, special, leaf) == Clause(ws, k, j, c, special, leaf.(av := leaf.av + ws[i..k]))
    decreases k - i
  {
    if i < k {
      ClauseThen(ws, i + 1, k, j, c, special, leaf.(av := leaf.av + [ws[i]]));
      assert leaf.av + [ws[i]] + ws[i + 1..k] == leaf.av + ws[i..k];
    } else {
      assert leaf.av + ws[i..k] == leaf.av;
    }
  }

  lemma {:induction false} Marks()
    ensures Is(AMP, "&") && !Is(AMP, "!")
    ensures forall bang: Word :: bang == ['!' as int] ==> Is(bang, "!") && !Is(bang, "&") && Ordinary(bang)
  {
    assert AMP[0] == '&' as int;
    forall bang: Word | bang == ['!' as int] ensures Is(bang, "!") && !Is(bang, "&") && Ordinary(bang) {
      assert bang[0] == '!' as int;
    }
  }

  /** The words of a redirection at the end of the line. */
  lemma {:induction false} RedirectionIs(ws: Line, i: nat, how: Redirection, name: Word)
    requires i <= |ws| && ws[i..] == Redirected(how) + [name] && Ordinary(name)
    requires how.Out? && !how.force ==> !Is(name, "!")
    ensures var n := |Redirected(how)|; |ws| == i + n + 1 && ws[i + n] == name
    ensures KindOf(ws[i]) == if how.Out? then Greater else Less
    ensures At(ws[i], 1) == (if how.Here? then '<' as int else if how.Out? && how.append then '>' as int else 0)
    ensures how.Out? ==> (Is(ws[i + 1], "&") <==> how.both) && Modifiers(ws, i, |ws|) == |Redirected(how)| - 1
  {
    hide Is, Ordinary;
    Marks();
    PlainKind(name);
    var s, n := ws[i..], |Redirected(how)|;
    assert ws[i] == s[0] && ws[i + n] == s[n] == name;
    assert n > 1 ==> ws[i + 1] == s[1];
    assert n > 2 ==> ws[i + 2] == s[2];
  }

  /** A redirection at the end of the line. */
  lemma {:induction false} LastRedirection(ws: Line, i: nat, how: Redirection, name: Word, av: seq<Word>)
    requires i <= |ws| && ws[i..] == Redirected(how) + [name] && Ordinary(name)
    requires how.Out? && !how.force ==> !Is(name, "!")
    ensures var leaf := Leaf(av, NOIO, None);
      forall special :: Clause(ws, i, |ws|, TOP, special, leaf) == Some(Leaf(av, Result(how, name), None))
  {
    hide Closing, Special, KindOf, Is, At, Modifiers;
    RedirectionIs(ws, i, how, name);
    PlainKind(name);
    var leaf, out := Leaf(av, NOIO, None), Leaf(av, Result(how, name), None);
    if how.Out? {
      assert TakeOutput(TOP, NOIO, ws[i], how.both, how.force, name).value.flags == Result(how, name).flags;
    } else {
      assert TakeInput(TOP, NOIO, ws[i], name).value.flags == Result(how, name).flags;
    }
    forall special ensures Clause(ws, i, |ws|, TOP, special, leaf) == Some(out) {
      assert ItemEnd(ws, i, |ws|) == |ws| && Take(ws, i, |ws|, TOP, special, leaf) == Some(out);
      assert Clause(ws, |ws|, |ws|, TOP, special, out) == Some(out);
    }
  }

  /** `av`, and one redirection. */
  method ParseRedirection(av: seq<Word>, how: Redirection, name: Word) returns (t: Tree, s: Clauses.Status)
    requires PlainWords(av) && Ordinary(name) && (how.Out? && !how.force ==> !Is(name, "!"))
    ensures s.Clean? && t == Command(av, Result(how, name))
  {
    hide IsSentence, IsLine, Nested, KindOf, Is, Clauses.Runaway, Clause, Redirected;
    var ws := av + Redirected(how) + [name];
    assert ws[0..|av|] == av && ws[|av|..] == Redirected(how) + [name] && [] + av == av;
    LastRedirection(ws, |av|, how, name, av);
    ClauseThen(ws, 0, |av|, |ws|, TOP, Special(ws, 0, |ws|), Bare(ws, |ws|));
    ghost var u := Command(av, Result(how, name));
    assert IsSimple(ws, 0, |ws|, TOP, u);
    Upward(ws, 0, |ws|, TOP, u);
    FromSequence(ws, |ws|, u);
    t, s := Parser.Parse(ws);
  }

  // A subshell

  const OPEN: Word := ['(' as int]

  const CLOSE: Word := [')' as int]

  lemma {:induction false} PlainClosing(ws: Line, i: nat, k: nat)
    requires i <= k < |ws| && ws[k] == CLOSE && forall m :: i <= m < k ==> Ordinary(ws[m])
    ensures Closing(ws, i, |ws|, 1) == k + 1
    decreases k - i
  {
    if i < k {
      PlainClosing(ws, i + 1, k);
    }
  }

  lemma {:induction false} GroupClause(ws: Line, c: Context, leaf: Leaf)
    requires |ws| >= 3 && ws[0] == OPEN && ws[|ws| - 1] == CLOSE && Run(ws, 1, |ws| - 1) && leaf.group.None?
    ensures Clause(ws, 0, |ws|, c, false, leaf) == Some(leaf.(group := Some((1, |ws| - 1)))) && !Special(ws, 0, |ws|)
  {
    var n := |ws|;
    PlainClosing(ws, 1, n - 1);
    FixedWords(OPEN);
    assert KindOf(ws[0]).Open? && ItemEnd(ws, 0, n) == n;
    assert Clause(ws, n, n, c, false, leaf.(group := Some((1, n - 1)))).Some?;
  }

  /** `( av )`: the command inside need not fork. */
  method ParseSubshell(av: seq<Word>) returns (t: Tree, s: Clauses.Status)
    requires PlainWords(av)
    ensures s.Clean? && t == Paren(Command(av, Io(None, None, {NoFork})), NOIO)
  {
    hide IsSentence, IsLine, Nested, Is, Clauses.Runaway, Clause;
    var ws := [OPEN] + av + [CLOSE];
    ghost var n, body := |ws|, Command(av, Io(None, None, {NoFork}));
    assert ws[1..n - 1] == av;
    PlainSimple(ws, 1, n - 1, SUBSHELL);
    Upward(ws, 1, n - 1, SUBSHELL, body);
    GroupClause(ws, TOP, Bare(ws, n));
    ghost var u := Paren(body, NOIO);
    assert IsSimple(ws, 0, n, TOP, u);
    Upward(ws, 0, n, TOP, u);
    assert KindOf(ws[0]).Open?;
    LineIsSentence(ws, u);
    t, s := Parser.Parse(ws);
  }

  lemma {:induction false} LineIsSentence(ws: Line, t: Tree)
    requires ws != [] && KindOf(ws[0]) !in {Amp, AndAnd, Semi} && IsLine(ws, 0, |ws|, TOP, t)
    ensures IsSentence(ws, 0, |ws|, TOP, t)
  {
    hide IsLine, KindOf;
  }

  // Lines of one command that is none

  /** Without separators a line can only be a simple command. */
  lemma {:induction false} OnlySimple(ws: Line, t: Tree)
    requires ws != [] && (forall k :: 0 <= k < |ws| ==> KindOf(ws[k]) !in SEPARATORS)
    requires IsSentence(ws, 0, |ws|, TOP, t)
    ensures IsSimple(ws, 0, |ws|, TOP, t)
  {
    hide KindOf, Is, IsSimple, IsPipeline, IsInfix, IsOperand, IsSequence;
    var n := |ws|;
    assert IsLine(ws, 0, n, TOP, t);
    LineUncut(ws, 0, n, TOP, t);
    SequenceUncut(ws, 0, n, TOP, t);
    InfixUncut(ws, 0, n, TOP, OrOr, t);
    assert IsInfix(ws, 0, n, TOP, AndAnd, t) by { Operands(ws, 0, n, TOP, t); }
    InfixUncut(ws, 0, n, TOP, AndAnd, t);
    Operands(ws, 0, n, TOP, t);
    PipelineUncut(ws, 0, n, TOP, t);
  }

  lemma {:induction false} Operands(ws: Line, i: nat, j: nat, c: Context, t: Tree)
    requires i <= j <= |ws|
    ensures IsOperand(ws, i, j, c, OrOr, t) ==> IsInfix(ws, i, j, c, AndAnd, t)
    ensures IsOperand(ws, i, j, c, AndAnd, t) ==> IsPipeline(ws, i, j, c, t)
  {
    hide IsInfix, IsPipeline;
  }

  function InputSign(here: bool): Word
  {
    if here then ['<' as int, '<' as int] else ['<' as int]
  }

  lemma {:induction false} InputItem(ws: Line, i: nat, here: bool, special: bool, leaf: Leaf)
    requires i + 2 <= |ws| && ws[i] == InputSign(here) && Ordinary(ws[i + 1])
    ensures KindOf(ws[i]).Less? && ItemEnd(ws, i, |ws|) == i + 2
    ensures Take(ws, i, |ws|, TOP, special, leaf) ==
      if leaf.io.lef.Some? then None
      else
        var io := leaf.io;
        Some(leaf.(io := Io(Some(ws[i + 1]), io.rit, if here then io.flags + {ReadHere} else io.flags)))
  {
    PlainKind(ws[i + 1]);
  }

  /** A second input redirection is an error. */
  method ParseTwoInputs(av: seq<Word>, here: bool, f: Word, here': bool, g: Word) returns (t: Tree, s: Clauses.Status)
    requires PlainWords(av) && Ordinary(f) && Ordinary(g)
    ensures !s.Clean?
  {
    hide IsSentence, IsSimple, Nested, Clauses.Runaway, Ordinary, KindOf;
    var ws := av + [InputSign(here), f, InputSign(here'), g];
    forall u ensures !IsSentence(ws, 0, |ws|, TOP, u) {
      if IsSentence(ws, 0, |ws|, TOP, u) {
        NoSecondInput(ws, |av|, here, here', u);
      }
    }
    t, s := Parser.Parse(ws);
  }

  lemma {:induction false} NoSecondInput(ws: Line, k: nat, here: bool, here': bool, u: Tree)
    requires |ws| == k + 4 && (forall i :: 0 <= i < k ==> Ordinary(ws[i])) && Ordinary(ws[k + 1]) && Ordinary(ws[k + 3])
    requires ws[k] == InputSign(here) && ws[k + 2] == InputSign(here')
    ensures !IsSentence(ws, 0, |ws|, TOP, u)
  {
    hide IsSentence, KindOf, Is, Ordinary, Take, ItemEnd, InputSign;
    var special, bare := Special(ws, 0, |ws|), Bare(ws, |ws|);
    var leaf := bare.(av := bare.av + ws[0..k]);
    ClauseThen(ws, 0, k, |ws|, TOP, special, bare);
    InputItem(ws, k, here, special, leaf);
    InputItem(ws, k + 2, here', special, Take(ws, k, |ws|, TOP, special, leaf).value);
    assert !IsSimple(ws, 0, |ws|, TOP, u);
    if IsSentence(ws, 0, |ws|, TOP, u) {
      forall i | 0 <= i < |ws| ensures KindOf(ws[i]) !in SEPARATORS {
        if i < k || i == k + 1 || i == k + 3 {
          PlainKind(ws[i]);
        }
      }
      OnlySimple(ws, u);
    }
  }

  function OutputSign(append: bool): Word
  {
    if append then ['>' as int, '>' as int] else ['>' as int]
  }

  lemma {:induction false} OutputItem(ws: Line, i: nat, append: bool, special: bool, leaf: Leaf)
    requires i + 2 <= |ws| && ws[i] == OutputSign(append) && Ordinary(ws[i + 1]) && !Is(ws[i + 1], "!")
    ensures KindOf(ws[i]).Greater? && ItemEnd(ws, i, |ws|) == i + 2
    ensures var io := leaf.io;
      Take(ws, i, |ws|, TOP, special, leaf) ==
        Some(leaf.(io := Io(io.lef, Some(ws[i + 1]), if append then io.flags + {Append} else io.flags)))
  {
    PlainKind(ws[i + 1]);
  }

  /** Of two output redirections the first is forgotten, but either makes the other append. */
  method ParseTwoOutputs(av: seq<Word>, append: bool, f: Word, append': bool, g: Word)
    returns (t: Tree, s: Clauses.Status)
    requires PlainWords(av) && Ordinary(f) && Ordinary(g) && !Is(f, "!") && !Is(g, "!")
    ensures s.Clean? && t == Command(av, Io(None, Some(g), if append || append' then {Append} else {}))
  {
    hide IsSentence, IsLine, Nested, Clauses.Runaway, Ordinary, KindOf, Clause, Is, OutputSign;
    var ws := av + [OutputSign(append), f, OutputSign(append'), g];
    ghost var special := Special(ws, 0, |ws|);
    assert ws[0..|av|] == av && [] + av == av;
    ClauseThen(ws, 0, |av|, |ws|, TOP, special, Bare(ws, |ws|));
    TwoOutputs(ws, |av|, append, append', special, av);
    ghost var u := Command(av, Io(None, Some(g), if append || append' then {Append} else {}));
    assert IsSimple(ws, 0, |ws|, TOP, u);
    Upward(ws, 0, |ws|, TOP, u);
    FromSequence(ws, |ws|, u);
    t, s := Parser.Parse(ws);
  }

  lemma {:induction false} TwoOutputs(ws: Line, k: nat, append: bool, append': bool, special: bool, av: seq<Word>)
    requires |ws| == k + 4 && Ordinary(ws[k + 1]) && Ordinary(ws[k + 3])
    requires !Is(ws[k + 1], "!") && !Is(ws[k + 3], "!")
    requires ws[k] == OutputSign(append) && ws[k + 2] == OutputSign(append')
    ensures Clause(ws, k, |ws|, TOP, special, Leaf(av, NOIO, None)) ==
      Some(Leaf(av, Io(None, Some(ws[k + 3]), if append || append' then {Append} else {}), None))
  {
    hide KindOf, Is, Ordinary, Take, ItemEnd, OutputSign;
    var leaf := Leaf(av, NOIO, None);
    OutputItem(ws, k, append, special, leaf);
    var more := Take(ws, k, |ws|, TOP, special, leaf).value;
    OutputItem(ws, k + 2, append', special, more);
    var out := Take(ws, k + 2, |ws|, TOP, special, more).value;
    assert out.io.flags == if append || append' then {Append} else {};
    assert Clause(ws, |ws|, |ws|, TOP, special, out) == Some(out);
  }

  // Parentheses behind a word

  predicate Letters(s: string)
  {
    s != "" && forall i :: 0 <= i < |s| ==> '@' <= s[i] <= 'z'
  }

  function Spelt(s: string): Word
    requires Letters(s)
  {
    seq(|s|, i requires 0 <= i < |s| => s[i] as int)
  }

  const KEYWORDS := {"@", "exit", "foreach", "if", "set", "switch", "while"}

  lemma {:induction false} KeywordIs(s: string)
    requires s in KEYWORDS
    ensures Letters(s) && Keyword(Spelt(s)) && KindOf(Spelt(s)).Plain?
  {
    assert Letters(s);
    var w := Spelt(s);
    assert Is(w, s);
    assert w[0] == s[0] as int;
  }

  /** A word and a group behind it. */
  ghost predicate WordAndGroup(ws: Line)
  {
    |ws| >= 4 && KindOf(ws[0]).Plain? && ws[1] == OPEN && ws[|ws| - 1] == CLOSE && Run(ws, 2, |ws| - 1)
  }

  lemma {:induction false} GroupBehind(ws: Line, special: bool)
    requires WordAndGroup(ws)
    ensures Clause(ws, 0, |ws|, TOP, special, Bare(ws, |ws|)) ==
      Some(if special then Leaf(ws, NOIO, None) else Leaf([ws[0]], NOIO, Some((2, |ws| - 1))))
  {
    hide Special;
    var n, bare := |ws|, Bare(ws, |ws|);
    PlainClosing(ws, 2, n - 1);
    assert KindOf(ws[1]).Open? && ItemEnd(ws, 1, n) == n && ItemEnd(ws, 0, n) == 1;
    assert [ws[0]] + ws[1..n] == ws;
    var one := bare.(av := [] + [ws[0]]);
    assert Clause(ws, 0, n, TOP, special, bare) == Clause(ws, 1, n, TOP, special, one);
    assert one.av == [ws[0]] && bare == Leaf([], NOIO, None);
    var out := if special then Leaf(ws, NOIO, None) else Leaf([ws[0]], NOIO, Some((2, n - 1)));
    assert Take(ws, 1, n, TOP, special, one) == Some(out);
    assert Clause(ws, n, n, TOP, special, out) == Some(out);
    assert Clause(ws, 1, n, TOP, special, one) == Some(out);
  }

  /** Behind a keyword the parentheses and what is in them are words of the command. */
  method ParseKeyword(s: string, bv: seq<Word>) returns (t: Tree, st: Clauses.Status)
    requires s in KEYWORDS && PlainWords(bv) && Letters(s)
    ensures st.Clean? && t == Command([Spelt(s), OPEN] + bv + [CLOSE], NOIO)
  {
    hide IsSentence, IsLine, Nested, Is, Clauses.Runaway, Clause, Keyword, Ordinary;
    var ws := [Spelt(s), OPEN] + bv + [CLOSE];
    KeywordIs(s);
    assert forall k :: 2 <= k < |ws| - 1 ==> ws[k] == bv[k - 2];
    assert Special(ws, 0, |ws|);
    GroupBehind(ws, true);
    ghost var u := Command(ws, NOIO);
    assert IsSimple(ws, 0, |ws|, TOP, u);
    Upward(ws, 0, |ws|, TOP, u);
    LineIsSentence(ws, u);
    t, st := Parser.Parse(ws);
  }

  /** Behind any other word they are an error. */
  method ParseBadGroup(w: Word, bv: seq<Word>) returns (t: Tree, s: Clauses.Status)
    requires Ordinary(w) && PlainWords(bv) && !Keyword(w) && !Is(w, "else")
    ensures !s.Clean?
  {
    hide IsSentence, IsSimple, Nested, Clauses.Runaway, Ordinary, KindOf, Keyword, Is;
    var ws := [w, OPEN] + bv + [CLOSE];
    assert forall k :: 2 <= k < |ws| - 1 ==> ws[k] == bv[k - 2];
    forall u ensures !IsSentence(ws, 0, |ws|, TOP, u) {
      NoBadGroup(ws, u);
    }
    t, s := Parser.Parse(ws);
  }

  lemma {:induction false} NoBadGroup(ws: Line, u: Tree)
    requires |ws| >= 4 && Ordinary(ws[0]) && ws[1] == OPEN && ws[|ws| - 1] == CLOSE && Run(ws, 2, |ws| - 1)
    requires !Keyword(ws[0]) && !Is(ws[0], "else")
    ensures !IsSentence(ws, 0, |ws|, TOP, u)
  {
    hide IsSentence, Is, Ordinary, Clause, Keyword;
    PlainKind(ws[0]);
    assert !Special(ws, 0, |ws|);
    GroupBehind(ws, false);
    assert !IsSimple(ws, 0, |ws|, TOP, u);
    if IsSentence(ws, 0, |ws|, TOP, u) {
      forall i | 0 <= i < |ws| ensures KindOf(ws[i]) !in SEPARATORS {
        if 2 <= i < |ws| - 1 {
          PlainKind(ws[i]);
        }
      }
      OnlySimple(ws, u);
    }
  }
}
