/** The operators of expressions, by their spelling: what each works out of two numbers, and how two of them in a row
    group. The reference here is plain arithmetic; it knows nothing of the evaluator. */
module Operators {
  import opened Words
  import opened Numbers
  import opened Expressions

  datatype Sign =
    | Or | And | BitOr | BitXor | BitAnd | Eq | Ne | Lt | Gt | Le | Ge | Shl | Shr | Plus | Minus | Times | Over | Mod

  /** The words of an operator. */
  function Spelt(s: Sign): (op: seq<Word>)
    ensures op != []
  {
    match s
    case Or => [['|' as int, '|' as int]]
    case And => [['&' as int, '&' as int]]
    case BitOr => [['|' as int]]
    case BitXor => [['^' as int]]
    case BitAnd => [['&' as int]]
    case Eq => [['=' as int, '=' as int]]
    case Ne => [['!' as int, '=' as int]]
    case Lt => [['<' as int]]
    case Gt => [['>' as int]]
    case Le => [['<' as int], ['=' as int]]
    case Ge => [['>' as int], ['=' as int]]
    case Shl => [['<' as int, '<' as int]]
    case Shr => [['>' as int, '>' as int]]
    case Plus => [['+' as int]]
    case Minus => [['-' as int]]
    case Times => [['*' as int]]
    case Over => [['/' as int]]
    case Mod => [['%' as int]]
  }

  /** The order of precedence, weakest first. */
  function Rank(s: Sign): (n: Level)
    ensures n < UNARY
  {
    match s
    case Or => 0
    case And => 1
    case BitOr => 2
    case BitXor => 3
    case BitAnd => 4
    case Eq => 5
    case Ne => 5
    case Lt => 6
    case Gt => 6
    case Le => 6
    case Ge => 6
    case Shl => 7
    case Shr => 7
    case Plus => 8
    case Minus => 8
    case Times => 9
    case Over => 9
    case Mod => 9
  }

  function Magnitude(n: int): nat
  {
    if n < 0 then -n else n
  }

  /** `a / b` without its fraction. */
  function Whole(a: int, b: int): int
    requires b != 0
  {
    var q := Magnitude(a) / Magnitude(b);
    if (a < 0) == (b < 0) then q else -q
  }

  function Bits(n: Int32): bv32
  {
    (n % 0x1_0000_0000) as bv32
  }

  function Combined(s: Sign, x: bv32, y: bv32): bv32
    requires s in {BitOr, BitXor, BitAnd}
  {
    match s
    case BitOr => x | y
    case BitXor => x ^ y
    case BitAnd => x & y
  }

  /** What the operator works out of two numbers, before it is cut to 32 bits; nothing when dividing by zero. A shift
      by a count the machine does not define is left to it. */
  function Reckoned(W: World, s: Sign, a: Int32, b: Int32): Option<int>
  {
    match s
    case Or => Some(if a != 0 || b != 0 then 1 else 0)
    case And => Some(if a != 0 && b != 0 then 1 else 0)
    case BitOr => Some(Combined(s, Bits(a), Bits(b)) as int)
    case BitXor => Some(Combined(s, Bits(a), Bits(b)) as int)
    case BitAnd => Some(Combined(s, Bits(a), Bits(b)) as int)
    case Eq => Some(if a == b then 1 else 0)
    case Ne => Some(if a != b then 1 else 0)
    case Lt => Some(if a < b then 1 else 0)
    case Gt => Some(if a > b then 1 else 0)
    case Le => Some(if a <= b then 1 else 0)
    case Ge => Some(if a >= b then 1 else 0)
    case Shl => Some(if 0 <= b < 32 then a * Pow2(b) else W.shifted(Spelt(s)[0], a, b))
    case Shr => Some(if 0 <= b < 32 then a / Pow2(b) else W.shifted(Spelt(s)[0], a, b))
    case Plus => Some(a + b)
    case Minus => Some(a - b)
    case Times => Some(a * b)
    case Over => if b == 0 then None else Some(Whole(a, b))
    case Mod => if b == 0 then None else Some(a - b * Whole(a, b))
  }

  /** The form in which the evaluator hands up a number: as it is from the level of equality on, written out below. */
  function Form(level: Level, n: Int32): Value
  {
    if level <= EQ then Int(n) else Text(Putn(n))
  }

  // Words

  lemma {:induction false} PutnPlain(n: Int32)
    ensures Plain(Putn(n)) && !Is(Putn(n), "=")
  {
    hide Wrap, Digits;
    var w := Putn(n);
    assert n < 0 ==> |w| >= 2 && w[0] == '-' as int && Isdigit(w[1]);
    assert n >= 0 ==> |w| >= 1 && Isdigit(w[0]);
  }

  lemma {:induction false} Literal(w: Word, u: string)
    requires 1 <= |u| <= 2
    ensures Is(w, u) <==> |w| == |u| && w[0] == u[0] as int && (|u| == 2 ==> w[1] == u[1] as int)
  {
  }

  /** Which words of the evaluator's tables a spelling is. */
  lemma {:induction false} LongSpellings(s: Sign)
    ensures var w := Spelt(s)[0];
      && (Is(w, "||") <==> s == Or) && (Is(w, "&&") <==> s == And)
      && (Is(w, "==") <==> s == Eq) && (Is(w, "!=") <==> s == Ne) && !Is(w, "=~") && !Is(w, "!~")
    ensures |Spelt(s)| == if s in {Le, Ge} then 2 else 1
    ensures |Spelt(s)| == 2 ==> Is(Spelt(s)[1], "=")
  {
    hide Is;
    var w := Spelt(s)[0];
    Literal(w, "||");
    Literal(w, "&&");
    Literal(w, "==");
    Literal(w, "!=");
    Literal(w, "=~");
    Literal(w, "!~");
    Literal(Spelt(s)[|Spelt(s)| - 1], "=");
  }

  lemma {:induction false} ShortSpellings(s: Sign)
    ensures var w := Spelt(s)[0];
      && (Is(w, "|") <==> s == BitOr) && (Is(w, "^") <==> s == BitXor) && (Is(w, "&") <==> s == BitAnd)
      && (Is(w, "+") <==> s == Plus) && (Is(w, "-") <==> s == Minus) && (Is(w, "*") <==> s == Times)
      && (Is(w, "/") <==> s == Over) && (Is(w, "%") <==> s == Mod)
  {
    hide Is;
    var w := Spelt(s)[0];
    Literal(w, "|");
    Literal(w, "^");
    Literal(w, "&");
    Literal(w, "+");
    Literal(w, "-");
    Literal(w, "*");
    Literal(w, "/");
    Literal(w, "%");
  }

  lemma {:induction false} SignUnits(s: Sign)
    ensures var w := Spelt(s)[0];
      && (At(w, 0) == '<' as int <==> s in {Lt, Le, Shl}) && (At(w, 0) == '>' as int <==> s in {Gt, Ge, Shr})
      && (At(w, 0) in {'<' as int, '>' as int} && At(w, 1) == At(w, 0) <==> s in {Shl, Shr})
      && (At(w, 0) == '+' as int <==> s == Plus) && (At(w, 0) == '*' as int <==> s == Times)
      && (At(w, 0) == '/' as int <==> s == Over)
  {
  }

  /** The operator stands at `c` and is none of another level, but that a shift looks like a relation. */
  lemma {:induction false} SignAt(ws: Vec, c: nat, s: Sign, k: Level)
    requires c + |Spelt(s)| < |ws| && ws[c..c + |Spelt(s)|] == Spelt(s) && !Is(ws[c + |Spelt(s)|], "=")
    requires !(k == REL && Rank(s) == SHIFT)
    ensures Operator(ws, c, k) == if k == Rank(s) then |Spelt(s)| else 0
  {
    hide Is, At, Spelt;
    LongSpellings(s);
    ShortSpellings(s);
    SignUnits(s);
    var op := Spelt(s);
    assert ws[c] == ws[c..c + |op|][0] == op[0];
    assert |op| == 2 ==> ws[c + 1] == ws[c..c + |op|][1] == op[1];
  }

  // One operator

  lemma {:induction false} WrapSame(n: Int32)
    ensures Wrap(n) == n
  {
  }

  lemma {:induction false} Truncates(a: int, b: int)
    requires b != 0
    ensures Quotient(a, b) == Whole(a, b)
  {
    var m := Magnitude(a);
    if b < 0 {
      DivideNegative(m, -b);
    }
  }

  lemma {:induction false} DivideNegative(a: int, b: int)
    requires a >= 0 && b > 0
    ensures a / -b == -(a / b)
  {
  }

  lemma {:induction false} SameWriting(a: Int32, b: Int32)
    ensures Putn(a) == Putn(b) <==> a == b
  {
    hide Putn, Egetn;
    PutnIsNumber(a);
    PutnIsNumber(b);
  }

  /** Sums, products and shifts come out as reckoned. */
  lemma {:induction false} ArithmeticIs(W: World, s: Sign, a: Int32, b: Int32)
    requires Rank(s) >= SHIFT
    ensures Arithmetic(W, Rank(s), Spelt(s)[0], a, b) ==
      match Reckoned(W, s, a, b) case None => None case Some(n) => Some(Wrap(n))
  {
    hide Wrap, Pow2, At, Quotient, Whole;
    SignUnits(s);
    if b != 0 {
      Truncates(a, b);
    }
    WrapSame(W.shifted(Spelt(s)[0], a, b));
  }

  lemma {:induction false} SamePattern(n: Int32)
    ensures Pattern32(n) == Bits(n)
  {
  }

  lemma {:induction false} MergeIs(s: Sign, x: bv32, y: bv32)
    requires s in {BitOr, BitXor, BitAnd}
    ensures Merge(Rank(s), x, y) == Combined(s, x, y)
  {
  }

  lemma {:induction false} LogicIs(W: World, s: Sign, a: Int32, b: Int32)
    requires Rank(s) < EQ
    ensures Reckoned(W, s, a, b).Some?
    ensures Apply(W, Rank(s), Spelt(s), Int(a), Int(b)) == Some(Int(Wrap(Reckoned(W, s, a, b).value)))
  {
    hide Wrap, Spelt, Pattern32, Bits, Merge, Combined;
    SamePattern(a);
    SamePattern(b);
    if s !in {Or, And} {
      MergeIs(s, Bits(a), Bits(b));
    }
    WrapSame(0);
    WrapSame(1);
  }

  lemma {:induction false} ComparisonIs(W: World, s: Sign, a: Int32, b: Int32)
    requires EQ <= Rank(s) <= REL
    ensures Reckoned(W, s, a, b).Some?
    ensures Apply(W, Rank(s), Spelt(s), Text(Putn(a)), Text(Putn(b))) ==
      Some(Form(Rank(s), Wrap(Reckoned(W, s, a, b).value)))
  {
    hide Wrap, Putn, Egetn, Is, Spelt, At;
    PutnIsNumber(a);
    PutnIsNumber(b);
    SameWriting(a, b);
    WrapSame(0);
    WrapSame(1);
    LongSpellings(s);
    SignUnits(s);
  }

  /** Every operator, applied to the forms of two numbers, gives the form of what is reckoned. */
  lemma {:induction false} SignApplies(W: World, s: Sign, a: Int32, b: Int32)
    ensures Apply(W, Rank(s), Spelt(s), Form(Rank(s) + 1, a), Form(Right(Rank(s)), b)) ==
      match Reckoned(W, s, a, b) case None => None case Some(n) => Some(Form(Rank(s), Wrap(n)))
  {
    hide Wrap, Putn, Egetn, Arithmetic, Spelt, Reckoned, Rank;
    if Rank(s) < EQ {
      LogicIs(W, s, a, b);
    } else if Rank(s) <= REL {
      ComparisonIs(W, s, a, b);
    } else {
      PutnIsNumber(a);
      PutnIsNumber(b);
      ArithmeticIs(W, s, a, b);
    }
  }

  // Trees

  /** The tree `t` of level `from`, taken as one of the lower level `to`. */
  function Lift(t: Tree, from: Level, to: Level): Tree
    requires to <= from
  {
    if to <= EQ < from then Number(t) else t
  }

  /** No operator of these levels stands at `c`. */
  ghost predicate Free(ws: Vec, c: nat, to: Level, from: Level)
  {
    forall k: Level :: to <= k < from ==> Operator(ws, c, k) == 0
  }

  lemma {:induction false} Descend(ws: Vec, v: nat, t: Tree, c: nat, from: Level, to: Level)
    requires v <= |ws| && to <= from && Parse(ws, v, from) == Some((t, c)) && Free(ws, c, to, from)
    ensures Parse(ws, v, to) == Some((Lift(t, from, to), c))
    decreases from - to
  {
    hide Operator, ParseUnary;
    if to < from {
      Descend(ws, v, t, c, from, to + 1);
    }
  }

  /** A plain word that no operator follows. */
  lemma {:induction false} Operand(ws: Vec, v: nat, to: Level)
    requires v < |ws| && Plain(ws[v]) && Free(ws, v + 1, to, UNARY)
    ensures Parse(ws, v, to) == Some((Lift(Leaf(ws[v]), UNARY, to), v + 1))
  {
    hide Operator, Is, AnyOp, IsInquiry;
    Descend(ws, v, Leaf(ws[v]), v + 1, UNARY, to);
  }

  ghost predicate Stands(ws: Vec, c: nat, s: Sign)
  {
    var n := |Spelt(s)|;
    c + n < |ws| && ws[c..c + n] == Spelt(s) && !Is(ws[c + n], "=")
  }

  lemma {:induction false} FreeAt(ws: Vec, c: nat, s: Sign, to: Level, from: Level)
    requires Stands(ws, c, s) && (Rank(s) < to || (from <= Rank(s) && Rank(s) != SHIFT))
    ensures Free(ws, c, to, from)
  {
    hide Operator, Spelt, Is;
    forall k: Level | to <= k < from ensures Operator(ws, c, k) == 0 {
      SignAt(ws, c, s, k);
    }
  }

  lemma {:induction false} ParseSign(ws: Vec, v: nat, s: Sign, l: Tree, c: nat, r: Tree, e: nat)
    requires v <= |ws| && Parse(ws, v, Rank(s) + 1) == Some((l, c)) && Stands(ws, c, s)
    requires Parse(ws, c + |Spelt(s)|, Right(Rank(s))) == Some((r, e))
    ensures Parse(ws, v, Rank(s)) == Some((Binary(Rank(s), Spelt(s), l, r), e))
  {
    hide Operator, Spelt, Is, Parse, Rank, Right;
    SignAt(ws, c, s, Rank(s));
    ParseBinary(ws, v, Rank(s));
  }

  // Values

  /** The tree comes to the number `n`, in the form of its level. */
  ghost predicate Gives(W: World, t: Tree, ignore: bool, log: Log, level: Level, n: Int32)
  {
    Run(W, t, ignore, false, log) == Done(Form(level, n), log)
  }

  lemma {:induction false} LiftGives(W: World, t: Tree, ignore: bool, log: Log, from: Level, to: Level, n: Int32)
    requires to <= from && Gives(W, t, ignore, log, from, n)
    ensures Gives(W, Lift(t, from, to), ignore, log, to, n)
  {
    hide Putn, Egetn;
    PutnIsNumber(n);
  }

  /** Whether the left side settles it. */
  predicate Decides(s: Sign, a: Int32)
  {
    (s == Or && a != 0) || (s == And && a == 0)
  }

  /** What the operator makes of two numbers in 32 bits. */
  function Worth(W: World, s: Sign, a: Int32, b: Int32): Option<Int32>
  {
    match Reckoned(W, s, a, b) case None => None case Some(n) => Some(Wrap(n))
  }

  /** The tree comes to this number, or to nothing. */
  ghost predicate Comes(W: World, t: Tree, log: Log, level: Level, worth: Option<Int32>)
  {
    match worth
    case None => Run(W, t, false, false, log) == Fail
    case Some(n) => Gives(W, t, false, log, level, n)
  }

  lemma {:induction false} LiftComes(W: World, t: Tree, log: Log, from: Level, to: Level, worth: Option<Int32>)
    requires to <= from && Comes(W, t, log, from, worth)
    ensures Comes(W, Lift(t, from, to), log, to, worth)
  {
    hide Gives, Form;
    if worth.Some? {
      LiftGives(W, t, false, log, from, to, worth.value);
    }
  }

  lemma {:induction false} DecidesIsIgnored(s: Sign, a: Int32)
    ensures Ignored(Rank(s), Form(Rank(s) + 1, a), false) <==> Decides(s, a)
  {
    hide Putn;
  }

  lemma {:induction false} SignGives(W: World, s: Sign, l: Tree, r: Tree, log: Log, a: Int32, b: Int32)
    requires Gives(W, l, false, log, Rank(s) + 1, a) && Gives(W, r, Decides(s, a), log, Right(Rank(s)), b)
    ensures Comes(W, Binary(Rank(s), Spelt(s), l, r), log, Rank(s), Worth(W, s, a, b))
  {
    hide Run, Apply, Spelt, Reckoned, Form, Rank, Right, Wrap, Is, Ignored, Decides;
    RunBinary(W, Binary(Rank(s), Spelt(s), l, r), false, false, log);
    DecidesIsIgnored(s, a);
    LongSpellings(s);
    SignApplies(W, s, a, b);
  }

  /** A side that does not count still comes to some number. */
  lemma {:induction false} SignIdles(W: World, s: Sign, l: Tree, r: Tree, log: Log, a: Int32, b: Int32)
    returns (n: Int32)
    requires Gives(W, l, true, log, Rank(s) + 1, a) && Gives(W, r, true, log, Right(Rank(s)), b)
    ensures Gives(W, Binary(Rank(s), Spelt(s), l, r), true, log, Rank(s), n)
  {
    hide Run, Apply, Spelt, Right, Wrap, Is, At, Putn, Whole, Pow2, Bits, Combined;
    LongSpellings(s);
    RunBinary(W, Binary(Rank(s), Spelt(s), l, r), true, false, log);
    SignApplies(W, s, a, b);
    n := if Rank(s) in {EQ, REL} then Code(Rank(s), Spelt(s))
      else if Rank(s) in {ADD, MUL} then 0
      else Wrap(Reckoned(W, s, a, b).value);
  }

  /** A number as an operand of this level. */
  function Number32(n: Int32, level: Level): Tree
  {
    Lift(Leaf(Putn(n)), UNARY, level)
  }

  ghost predicate Globs(W: World, log: Log, n: Int32)
  {
    W.glob(log, Putn(n)) == Some(Putn(n))
  }

  lemma {:induction false} NumberGives(W: World, ignore: bool, log: Log, to: Level, n: Int32)
    requires Globs(W, log, n)
    ensures Gives(W, Number32(n, to), ignore, log, to, n)
  {
    hide Putn, Egetn;
    LiftGives(W, Leaf(Putn(n)), ignore, log, UNARY, to, n);
  }

  // Lines of words

  function Line(a: Int32, s: Sign, b: Int32): Vec
  {
    [Putn(a)] + Spelt(s) + [Putn(b)]
  }

  /** The words stand at `v`, and no operator follows. */
  ghost predicate LineAt(ws: Vec, v: nat, a: Int32, s: Sign, b: Int32)
  {
    var n := |Spelt(s)|;
    && v + n + 2 <= |ws| && ws[v..v + n + 2] == Line(a, s, b)
    && Free(ws, v + n + 2, OR, UNARY)
  }

  lemma {:induction false} Window(ws: Vec, lo: nat, hi: nat, i: nat, j: nat)
    requires lo <= hi <= |ws| && i <= j <= hi - lo
    ensures ws[lo..hi][i..j] == ws[lo + i..lo + j]
  {
    var s, t := ws[lo..hi][i..j], ws[lo + i..lo + j];
    assert |s| == |t|;
    forall k | 0 <= k < |s| ensures s[k] == t[k] {
      assert s[k] == ws[lo..hi][i + k] == ws[lo + i + k];
    }
  }

  lemma {:induction false} LineIs(ws: Vec, v: nat, a: Int32, s: Sign, b: Int32)
    requires LineAt(ws, v, a, s, b)
    ensures var n := |Spelt(s)|; ws[v] == Putn(a) && ws[v + n + 1] == Putn(b) && Stands(ws, v + 1, s)
  {
    hide Putn, Is, Spelt, Free;
    PutnPlain(b);
    var n, line := |Spelt(s)|, Line(a, s, b);
    assert line[1..1 + n] == Spelt(s);
    Window(ws, v, v + n + 2, 1, 1 + n);
    assert ws[v] == ws[v..v + n + 2][0] && ws[v + n + 1] == ws[v..v + n + 2][n + 1];
  }

  lemma {:induction false} AtEnd(ws: Vec, to: Level, from: Level)
    ensures Free(ws, |ws|, to, from)
  {
  }

  /** One operator between two numbers, read from its own level or any weaker one. */
  lemma {:induction false} ParseLine(ws: Vec, v: nat, a: Int32, s: Sign, b: Int32, level: Level)
    requires level <= Rank(s) && LineAt(ws, v, a, s, b)
    ensures var k, n := Rank(s), |Spelt(s)|;
      var t := Binary(k, Spelt(s), Number32(a, k + 1), Number32(b, Right(k)));
      Parse(ws, v, level) == Some((Lift(t, k, level), v + n + 2))
  {
    hide Putn, Plain, Parse, Operator, Lift, Stands, Right, Rank, Spelt, Line;
    var k, n := Rank(s), |Spelt(s)|;
    LineIs(ws, v, a, s, b);
    PutnPlain(a);
    PutnPlain(b);
    FreeAt(ws, v + 1, s, k + 1, UNARY);
    Operand(ws, v, k + 1);
    Operand(ws, v + n + 1, Right(k));
    ParseSign(ws, v, s, Number32(a, k + 1), v + 1, Number32(b, Right(k)), v + n + 2);
    Descend(ws, v, Parse(ws, v, k).value.0, v + n + 2, k, level);
  }

  /** The tree of such a line comes to what is reckoned. */
  lemma {:induction false} LineComes(W: World, a: Int32, s: Sign, b: Int32, level: Level, log: Log)
    requires Globs(W, log, a) && Globs(W, log, b) && level <= Rank(s)
    ensures var k := Rank(s); var t := Binary(k, Spelt(s), Number32(a, k + 1), Number32(b, Right(k)));
      Comes(W, Lift(t, k, level), log, level, Worth(W, s, a, b))
  {
    hide Putn, Run, Lift, Right, Rank, Spelt, Form, Wrap, Decides, Globs, Gives, Comes, Number32, Worth;
    var k := Rank(s);
    var l, r := Number32(a, k + 1), Number32(b, Right(k));
    NumberGives(W, false, log, k + 1, a);
    NumberGives(W, Decides(s, a), log, Right(k), b);
    SignGives(W, s, l, r, log, a, b);
    LiftComes(W, Binary(k, Spelt(s), l, r), log, k, level, Worth(W, s, a, b));
  }

  /** `exp0` and the levels under it on a number, an operator and a number: what is reckoned, in 32 bits. */
  method Calculate(W: World, a: Int32, s: Sign, b: Int32, level: Level, log: Log) returns (r: Outcome)
    requires Globs(W, log, a) && Globs(W, log, b) && level <= Rank(s)
    ensures r == match Reckoned(W, s, a, b)
      case None => Error
      case Some(n) => Got(Form(level, Wrap(n)), |Spelt(s)| + 2, log)
  {
    hide Putn, Parse, Run, Lift, Right, Rank, Spelt, Form, Reckoned, Wrap, Free;
    ghost var ws := Line(a, s, b);
    AtEnd(ws, OR, UNARY);
    assert ws[0..|Spelt(s)| + 2] == ws;
    ParseLine(ws, 0, a, s, b, level);
    LineComes(W, a, s, b, level, log);
    r := Exp(W, Line(a, s, b), 0, level, false, false, log);
  }

  // Two operators

  function Chain(a: Int32, s: Sign, b: Int32, s': Sign, c: Int32): Vec
  {
    [Putn(a)] + Spelt(s) + [Putn(b)] + Spelt(s') + [Putn(c)]
  }

  lemma {:induction false} ChainIs(a: Int32, s: Sign, b: Int32, s': Sign, c: Int32)
    ensures var ws, n, m := Chain(a, s, b, s', c), |Spelt(s)|, |Spelt(s')|;
      && |ws| == n + m + 3 && ws[0] == Putn(a) && ws[n + 1] == Putn(b) && ws[n + m + 2] == Putn(c)
      && Stands(ws, 1, s) && Stands(ws, n + 2, s')
  {
    hide Putn, Is, Spelt;
    PutnPlain(b);
    PutnPlain(c);
    var ws, n, m := Chain(a, s, b, s', c), |Spelt(s)|, |Spelt(s')|;
    assert ws[1..1 + n] == Spelt(s);
    assert ws[n + 2..n + 2 + m] == Spelt(s');
  }

  /** The second operator takes the number between them unless it is the weaker one; only an equality never stands on
      the right of another. */
  predicate ToRight(s: Sign, s': Sign)
  {
    Rank(s) <= Rank(s') && !(Rank(s) == Rank(s') == EQ)
  }

  function GroupedRight(a: Int32, s: Sign, b: Int32, s': Sign, c: Int32): Tree
    requires ToRight(s, s')
  {
    var k, k' := Rank(s), Rank(s');
    var right := Binary(k', Spelt(s'), Number32(b, k' + 1), Number32(c, Right(k')));
    Binary(k, Spelt(s), Number32(a, k + 1), Lift(right, k', Right(k)))
  }

  lemma {:induction false} ParseRight(a: Int32, s: Sign, b: Int32, s': Sign, c: Int32, level: Level)
    requires ToRight(s, s') && level <= Rank(s)
    ensures var ws := Chain(a, s, b, s', c);
      Parse(ws, 0, level) == Some((Lift(GroupedRight(a, s, b, s', c), Rank(s), level), |ws|))
  {
    hide Putn, Plain, Parse, Operator, Lift, Free, Stands, Rank, Spelt, Chain;
    var ws, k, k', n, e := Chain(a, s, b, s', c), Rank(s), Rank(s'), |Spelt(s)|, |Chain(a, s, b, s', c)|;
    ChainIs(a, s, b, s', c);
    PutnPlain(a);
    PutnPlain(b);
    PutnPlain(c);
    AtEnd(ws, Right(k'), UNARY);
    Operand(ws, e - 1, Right(k'));
    FreeAt(ws, n + 2, s', k' + 1, UNARY);
    Operand(ws, n + 1, k' + 1);
    ParseSign(ws, n + 1, s', Number32(b, k' + 1), n + 2, Number32(c, Right(k')), e);
    AtEnd(ws, Right(k), k');
    Descend(ws, n + 1, Parse(ws, n + 1, k').value.0, e, k', Right(k));
    FreeAt(ws, 1, s, k + 1, UNARY);
    Operand(ws, 0, k + 1);
    ParseSign(ws, 0, s, Number32(a, k + 1), 1, Parse(ws, n + 1, Right(k)).value.0, e);
    AtEnd(ws, level, k);
    Descend(ws, 0, Parse(ws, 0, k).value.0, e, k, level);
  }

  function GroupedLeft(a: Int32, s: Sign, b: Int32, s': Sign, c: Int32): Tree
    requires Rank(s') < Rank(s)
  {
    var k, k' := Rank(s), Rank(s');
    var left := Binary(k, Spelt(s), Number32(a, k + 1), Number32(b, Right(k)));
    Binary(k', Spelt(s'), Lift(left, k, k' + 1), Number32(c, Right(k')))
  }

  lemma {:induction false} ParseLeft(a: Int32, s: Sign, b: Int32, s': Sign, c: Int32, level: Level)
    requires Rank(s') < Rank(s) && level <= Rank(s')
    ensures var ws := Chain(a, s, b, s', c);
      Parse(ws, 0, level) == Some((Lift(GroupedLeft(a, s, b, s', c), Rank(s'), level), |ws|))
  {
    hide Putn, Plain, Parse, Operator, Lift, Free, Stands, Rank, Spelt, Chain;
    var ws, k, k', n, e := Chain(a, s, b, s', c), Rank(s), Rank(s'), |Spelt(s)|, |Chain(a, s, b, s', c)|;
    ParseFirst(a, s, b, s', c);
    ChainIs(a, s, b, s', c);
    PutnPlain(c);
    FreeAt(ws, n + 2, s', k' + 1, k);
    Descend(ws, 0, Parse(ws, 0, k).value.0, n + 2, k, k' + 1);
    AtEnd(ws, Right(k'), UNARY);
    Operand(ws, e - 1, Right(k'));
    ParseSign(ws, 0, s', Parse(ws, 0, k' + 1).value.0, n + 2, Number32(c, Right(k')), e);
    AtEnd(ws, level, k');
    Descend(ws, 0, Parse(ws, 0, k').value.0, e, k', level);
  }

  /** The first operator and its two numbers, when the second does not take the number between. */
  lemma {:induction false} ParseFirst(a: Int32, s: Sign, b: Int32, s': Sign, c: Int32)
    requires !ToRight(s, s')
    ensures var k := Rank(s);
      Parse(Chain(a, s, b, s', c), 0, k) ==
        Some((Binary(k, Spelt(s), Number32(a, k + 1), Number32(b, Right(k))), |Spelt(s)| + 2))
  {
    hide Putn, Plain, Parse, Operator, Lift, Free, Stands, Rank, Spelt, Chain;
    var ws, k, n := Chain(a, s, b, s', c), Rank(s), |Spelt(s)|;
    ChainIs(a, s, b, s', c);
    PutnPlain(a);
    PutnPlain(b);
    FreeAt(ws, 1, s, k + 1, UNARY);
    Operand(ws, 0, k + 1);
    FreeAt(ws, n + 2, s', Right(k), UNARY);
    Operand(ws, n + 1, Right(k));
    ParseSign(ws, 0, s, Number32(a, k + 1), 1, Number32(b, Right(k)), n + 2);
  }

  function Then(W: World, worth: Option<Int32>, s: Sign, b: Int32): Option<Int32>
  {
    match worth case None => None case Some(n) => Worth(W, s, n, b)
  }

  /** What two operators in a row come to. Of equal ones the right one goes first; a side that settles it leaves the
      other out of account, even a division by zero. */
  function Grouped(W: World, a: Int32, s: Sign, b: Int32, s': Sign, c: Int32): Option<Int32>
  {
    if !ToRight(s, s') then Then(W, Worth(W, s, a, b), s', c)
    else if s == Or && a != 0 then Some(1)
    else if s == And && a == 0 then Some(0)
    else match Worth(W, s', b, c) case None => None case Some(n) => Worth(W, s, a, n)
  }

  lemma {:induction false} Settles(W: World, s: Sign, a: Int32, b: Int32)
    requires Decides(s, a)
    ensures Worth(W, s, a, b) == Some(if s == Or then 1 else 0)
  {
    hide Wrap;
    WrapSame(0);
    WrapSame(1);
  }

  /** A failing side makes the whole fail. */
  lemma {:induction false} Spoilt(W: World, s: Sign, l: Tree, r: Tree, log: Log, a: Int32)
    requires if Run(W, l, false, false, log).Fail? then true
      else Gives(W, l, false, log, Rank(s) + 1, a) && !Decides(s, a) && Run(W, r, false, false, log).Fail?
    ensures Run(W, Binary(Rank(s), Spelt(s), l, r), false, false, log) == Fail
  {
    hide Run, Form, Rank, Right, Is, Ignored, Spelt;
    RunBinary(W, Binary(Rank(s), Spelt(s), l, r), false, false, log);
    DecidesIsIgnored(s, a);
    LongSpellings(s);
  }

  lemma {:induction false} ThenComes(W: World, left: Tree, s: Sign, b: Int32, log: Log, worth: Option<Int32>)
    requires Comes(W, left, log, Rank(s) + 1, worth) && Globs(W, log, b)
    ensures var t := Binary(Rank(s), Spelt(s), left, Number32(b, Right(Rank(s))));
      Comes(W, t, log, Rank(s), Then(W, worth, s, b))
  {
    hide Run, Rank, Spelt, Globs, Gives, Worth, Number32, Decides;
    var right := Number32(b, Right(Rank(s)));
    if worth.None? {
      Spoilt(W, s, left, right, log, 0);
    } else {
      NumberGives(W, Decides(s, worth.value), log, Right(Rank(s)), b);
      SignGives(W, s, left, right, log, worth.value, b);
    }
  }

  lemma {:induction false} RightComes(W: World, a: Int32, s: Sign, b: Int32, s': Sign, c: Int32, log: Log)
    requires Globs(W, log, a) && Globs(W, log, b) && Globs(W, log, c) && ToRight(s, s')
    ensures Comes(W, GroupedRight(a, s, b, s', c), log, Rank(s), Grouped(W, a, s, b, s', c))
  {
    hide Run, Rank, Spelt, Globs, Gives, Worth, Number32, Lift;
    var k, k', dead := Rank(s), Rank(s'), Decides(s, a);
    var l, r := Number32(b, k' + 1), Number32(c, Right(k'));
    var right, left := Binary(k', Spelt(s'), l, r), Number32(a, k + 1);
    NumberGives(W, false, log, k + 1, a);
    NumberGives(W, dead, log, k' + 1, b);
    NumberGives(W, dead || Decides(s', b), log, Right(k'), c);
    if dead {
      var n := SignIdles(W, s', l, r, log, b, c);
      LiftGives(W, right, true, log, k', Right(k), n);
      SignGives(W, s, left, Lift(right, k', Right(k)), log, a, n);
      Settles(W, s, a, n);
    } else {
      SignGives(W, s', l, r, log, b, c);
      var worth := Worth(W, s', b, c);
      LiftComes(W, right, log, k', Right(k), worth);
      if worth.None? {
        Spoilt(W, s, left, Lift(right, k', Right(k)), log, a);
      } else {
        SignGives(W, s, left, Lift(right, k', Right(k)), log, a, worth.value);
      }
    }
  }

  lemma {:induction false} LeftComes(W: World, a: Int32, s: Sign, b: Int32, s': Sign, c: Int32, log: Log)
    requires Globs(W, log, a) && Globs(W, log, b) && Globs(W, log, c) && Rank(s') < Rank(s)
    ensures Comes(W, GroupedLeft(a, s, b, s', c), log, Rank(s'), Grouped(W, a, s, b, s', c))
  {
    hide Run, Rank, Spelt, Globs, Gives, Worth, Number32, Lift, Decides, Comes, Then;
    var k, k', worth := Rank(s), Rank(s'), Worth(W, s, a, b);
    var l, r := Number32(a, k + 1), Number32(b, Right(k));
    var left := Binary(k, Spelt(s), l, r);
    NumberGives(W, false, log, k + 1, a);
    NumberGives(W, Decides(s, a), log, Right(k), b);
    SignGives(W, s, l, r, log, a, b);
    LiftComes(W, left, log, k, k' + 1, worth);
    ThenComes(W, Lift(left, k, k' + 1), s', c, log, worth);
  }

  /** Three numbers with two operators between them: the stronger operator goes first, and of operators of the same
      strength the right one. Of two equalities the second is left unread. */
  method CalculateChain(W: World, a: Int32, s: Sign, b: Int32, s': Sign, c: Int32, level: Level, log: Log)
    returns (r: Outcome)
    requires Globs(W, log, a) && Globs(W, log, b) && Globs(W, log, c) && level <= Rank(s) && level <= Rank(s')
    ensures !(Rank(s) == Rank(s') == EQ) ==>
      r == match Grouped(W, a, s, b, s', c)
        case None => Error
        case Some(n) => Got(Form(level, n), |Spelt(s)| + |Spelt(s')| + 3, log)
    ensures Rank(s) == Rank(s') == EQ && Reckoned(W, s, a, b).Some? ==>
      r == Got(Form(level, Wrap(Reckoned(W, s, a, b).value)), |Spelt(s)| + 2, log)
  {
    hide Putn, Parse, Run, Lift, Rank, Spelt, Chain, Form, Reckoned, Wrap, Decides, Grouped, Globs, Number32;
    hide GroupedLeft, GroupedRight;
    ChainIs(a, s, b, s', c);
    ghost var worth := Grouped(W, a, s, b, s', c);
    if ToRight(s, s') {
      ParseRight(a, s, b, s', c, level);
      RightComes(W, a, s, b, s', c, log);
      LiftComes(W, GroupedRight(a, s, b, s', c), log, Rank(s), level, worth);
    } else if Rank(s') < Rank(s) {
      ParseLeft(a, s, b, s', c, level);
      LeftComes(W, a, s, b, s', c, log);
      LiftComes(W, GroupedLeft(a, s, b, s', c), log, Rank(s'), level, worth);
    } else {
      FirstComes(W, a, s, b, s', c, level, log);
    }
    r := Exp(W, Chain(a, s, b, s', c), 0, level, false, false, log);
  }

  lemma {:induction false} FirstComes(W: World, a: Int32, s: Sign, b: Int32, s': Sign, c: Int32, level: Level, log: Log)
    requires Globs(W, log, a) && Globs(W, log, b) && Rank(s) == Rank(s') == EQ && level <= EQ
    ensures var read := Parse(Chain(a, s, b, s', c), 0, level);
      read.Some? && read.value.1 == |Spelt(s)| + 2 && Comes(W, read.value.0, log, level, Worth(W, s, a, b))
  {
    hide Putn, Parse, Run, Lift, Rank, Spelt, Chain, Form, Worth, Decides, Globs, Number32, Gives, Comes, Stands;
    var ws, n := Chain(a, s, b, s', c), |Spelt(s)|;
    ParseFirst(a, s, b, s', c);
    var t := Parse(ws, 0, EQ).value.0;
    ChainIs(a, s, b, s', c);
    FreeAt(ws, n + 2, s', level, EQ);
    Descend(ws, 0, t, n + 2, EQ, level);
    NumberGives(W, false, log, REL, a);
    NumberGives(W, Decides(s, a), log, REL, b);
    SignGives(W, s, Number32(a, REL), Number32(b, REL), log, a, b);
    LiftComes(W, t, log, EQ, level, Worth(W, s, a, b));
  }

  // Operands

  const OPEN: Word := ['(' as int]

  const CLOSE: Word := [')' as int]

  const BANG: Word := ['!' as int]

  const TILDE: Word := ['~' as int]

  const LBRACE: Word := ['{' as int]

  const RBRACE: Word := ['}' as int]

  lemma {:induction false} Marks(w: Word)
    ensures Is(w, "(") <==> w == OPEN
    ensures Is(w, "!") <==> w == BANG
    ensures Is(w, "~") <==> w == TILDE
    ensures Is(w, "{") <==> w == LBRACE
    ensures Is(w, "}") <==> w == RBRACE
  {
    hide Is;
    Literal(w, "(");
    Literal(w, "!");
    Literal(w, "~");
    Literal(w, "{");
    Literal(w, "}");
  }

  /** No operator stands at a word that starts like this. */
  lemma {:induction false} NoSign(ws: Vec, c: nat)
    requires c < |ws| && (ws[c] == CLOSE || ws[c] == RBRACE)
    ensures Free(ws, c, OR, UNARY)
  {
    var w := ws[c];
    assert |w| == 1 && w[0] in {')' as int, '}' as int};
  }

  /** `!`, `~` and parentheses. */
  lemma {:induction false} ParsePrefix(ws: Vec, t: Tree, c: nat)
    requires ws != [] && (ws[0] == BANG || ws[0] == TILDE) && Parse(ws, 1, UNARY) == Some((t, c))
    ensures Parse(ws, 0, UNARY) == Some((if ws[0] == BANG then Not(t) else Complement(t), c))
  {
    hide Is, Operator, AnyOp, IsInquiry;
    Marks(ws[0]);
  }

  lemma {:induction false} ParseNested(ws: Vec, t: Tree, c: nat)
    requires ws != [] && ws[0] == OPEN && Parse(ws, 1, OR) == Some((t, c)) && c < |ws| && ws[c] == CLOSE
    ensures Parse(ws, 0, UNARY) == Some((Nest(t), c + 1))
  {
    hide Is, Operator, AnyOp, IsInquiry;
    Marks(ws[0]);
  }

  lemma {:induction false} PrefixGives(W: World, t: Tree, ignore: bool, log: Log, level: Level, n: Int32)
    requires Gives(W, t, ignore, log, level, n)
    ensures Gives(W, Nest(t), ignore, log, UNARY, n)
    ensures Gives(W, Not(t), ignore, log, UNARY, if n == 0 then 1 else 0)
    ensures Gives(W, Complement(t), ignore, log, UNARY, -1 - n)
  {
    hide Putn, Egetn;
    PutnIsNumber(n);
  }

  /** A number denied or complemented. */
  method CalculatePrefix(W: World, mark: Word, a: Int32, level: Level, log: Log) returns (r: Outcome)
    requires Globs(W, log, a) && (mark == BANG || mark == TILDE)
    ensures mark == BANG ==> r == Got(Form(level, if a == 0 then 1 else 0), 2, log)
    ensures mark == TILDE ==> r == Got(Form(level, -1 - a), 2, log)
  {
    hide Putn, Parse, Run, Plain, Form, Operator, Globs, Number32;
    var ws := [mark, Putn(a)];
    PutnPlain(a);
    AtEnd(ws, OR, UNARY);
    Operand(ws, 1, UNARY);
    ParsePrefix(ws, Leaf(Putn(a)), 2);
    ghost var t := Parse(ws, 0, UNARY).value.0;
    Descend(ws, 0, t, 2, UNARY, level);
    NumberIsLeaf(W, log, a);
    PrefixGives(W, Leaf(Putn(a)), false, log, UNARY, a);
    LiftGives(W, t, false, log, UNARY, level, if mark == BANG then (if a == 0 then 1 else 0) else -1 - a);
    r := Exp(W, ws, 0, level, false, false, log);
  }

  lemma {:induction false} NumberIsLeaf(W: World, log: Log, n: Int32)
    requires Globs(W, log, n)
    ensures Gives(W, Leaf(Putn(n)), false, log, UNARY, n)
  {
    hide Putn;
  }

  /** Parentheses go first, whatever stands in them and behind. */
  method CalculateNested(W: World, a: Int32, s: Sign, b: Int32, s': Sign, c: Int32, level: Level, log: Log)
    returns (r: Outcome)
    requires Globs(W, log, a) && Globs(W, log, b) && Globs(W, log, c) && level <= Rank(s')
    ensures r ==
      match Worth(W, s, a, b)
      case None => Error
      case Some(n) =>
        match Worth(W, s', n, c)
        case None => Error
        case Some(m) => Got(Form(level, m), |Spelt(s)| + |Spelt(s')| + 5, log)
  {
    hide Putn, Parse, Run, Form, Globs, Rank, Spelt, Lift, Worth, NestedLine, NestedTree;
    NestedIs(a, s, b, s', c);
    NestedParse(a, s, b, s', c, level);
    NestedComes(W, a, s, b, s', c, log);
    LiftComes(W, NestedTree(a, s, b, s', c), log, Rank(s'), level, Then(W, Worth(W, s, a, b), s', c));
    r := Exp(W, NestedLine(a, s, b, s', c), 0, level, false, false, log);
  }

  function NestedLine(a: Int32, s: Sign, b: Int32, s': Sign, c: Int32): Vec
  {
    [OPEN] + Line(a, s, b) + [CLOSE] + Spelt(s') + [Putn(c)]
  }

  function NestedTree(a: Int32, s: Sign, b: Int32, s': Sign, c: Int32): Tree
  {
    var k, k' := Rank(s), Rank(s');
    var inner := Binary(k, Spelt(s), Number32(a, k + 1), Number32(b, Right(k)));
    Binary(k', Spelt(s'), Lift(Nest(Lift(inner, k, OR)), UNARY, k' + 1), Number32(c, Right(k')))
  }

  lemma {:induction false} NestedIs(a: Int32, s: Sign, b: Int32, s': Sign, c: Int32)
    ensures var ws, n, m := NestedLine(a, s, b, s', c), |Spelt(s)|, |Spelt(s')|;
      && |ws| == n + m + 5 && ws[0] == OPEN && ws[n + 3] == CLOSE && ws[n + m + 4] == Putn(c)
      && ws[1..n + 3] == Line(a, s, b) && Stands(ws, n + 4, s')
  {
    hide Putn, Is, Spelt;
    PutnPlain(c);
    var ws, n, m := NestedLine(a, s, b, s', c), |Spelt(s)|, |Spelt(s')|;
    assert ws[n + 4..n + 4 + m] == Spelt(s');
    assert ws[1..n + 3] == Line(a, s, b);
  }

  lemma {:induction false} NestedParse(a: Int32, s: Sign, b: Int32, s': Sign, c: Int32, level: Level)
    requires level <= Rank(s')
    ensures var ws := NestedLine(a, s, b, s', c);
      Parse(ws, 0, level) == Some((Lift(NestedTree(a, s, b, s', c), Rank(s'), level), |ws|))
  {
    hide Putn, Plain, Parse, Operator, Lift, Free, Stands, Rank, Spelt, NestedLine, Line;
    var ws, k, k', n, e := NestedLine(a, s, b, s', c), Rank(s), Rank(s'), |Spelt(s)|, |NestedLine(a, s, b, s', c)|;
    NestedIs(a, s, b, s', c);
    PutnPlain(c);
    NoSign(ws, n + 3);
    ParseLine(ws, 1, a, s, b, OR);
    ParseNested(ws, Parse(ws, 1, OR).value.0, n + 3);
    FreeAt(ws, n + 4, s', k' + 1, UNARY);
    Descend(ws, 0, Parse(ws, 0, UNARY).value.0, n + 4, UNARY, k' + 1);
    AtEnd(ws, Right(k'), UNARY);
    Operand(ws, e - 1, Right(k'));
    ParseSign(ws, 0, s', Parse(ws, 0, k' + 1).value.0, n + 4, Number32(c, Right(k')), e);
    AtEnd(ws, level, k');
    Descend(ws, 0, Parse(ws, 0, k').value.0, e, k', level);
  }

  lemma {:induction false} NestedComes(W: World, a: Int32, s: Sign, b: Int32, s': Sign, c: Int32, log: Log)
    requires Globs(W, log, a) && Globs(W, log, b) && Globs(W, log, c)
    ensures Comes(W, NestedTree(a, s, b, s', c), log, Rank(s'), Then(W, Worth(W, s, a, b), s', c))
  {
    hide Run, Rank, Spelt, Globs, Gives, Worth, Number32, Lift, Decides;
    var k, k', worth := Rank(s), Rank(s'), Worth(W, s, a, b);
    var inner := Lift(Binary(k, Spelt(s), Number32(a, k + 1), Number32(b, Right(k))), k, OR);
    LineComes(W, a, s, b, OR, log);
    if worth.None? {
      NestFails(W, inner, log);
    } else {
      PrefixGives(W, inner, false, log, OR, worth.value);
    }
    LiftComes(W, Nest(inner), log, UNARY, k' + 1, worth);
    ThenComes(W, Lift(Nest(inner), UNARY, k' + 1), s', c, log, worth);
  }

  lemma {:induction false} NestFails(W: World, t: Tree, log: Log)
    requires Run(W, t, false, false, log) == Fail
    ensures Run(W, Nest(t), false, false, log) == Fail
  {
  }

  // Strings

  datatype Likeness = Same | Different | Like | Unlike

  function LikenessWord(how: Likeness): Word
  {
    match how
    case Same => ['=' as int, '=' as int]
    case Different => ['!' as int, '=' as int]
    case Like => ['=' as int, '~' as int]
    case Unlike => ['!' as int, '~' as int]
  }

  lemma {:induction false} LikenessIs(ws: Vec, c: nat, how: Likeness)
    requires c < |ws| && ws[c] == LikenessWord(how)
    ensures Operator(ws, c, EQ) == 1 && Free(ws, c, REL, UNARY)
    ensures var w := ws[c];
      && (Is(w, "==") <==> how == Same) && (Is(w, "!=") <==> how == Different)
      && (Is(w, "=~") <==> how == Like) && (Is(w, "!~") <==> how == Unlike)
  {
    var w := ws[c];
    assert |w| == 2 && w[0] in {'=' as int, '!' as int};
    Literal(w, "==");
    Literal(w, "!=");
    Literal(w, "=~");
    Literal(w, "!~");
  }

  lemma {:induction false} LeafRuns(W: World, w: Word, noglob: bool, log: Log)
    ensures Run(W, Leaf(w), false, noglob, log) ==
      if noglob then Done(Text(w), log)
      else match W.glob(log, w) case None => Fail case Some(g) => Done(Text(g), log)
  {
  }

  /** The four operators on strings: equal or not as they stand, and the left one matched by the right one, which is
      not globbed, or not. */
  method Compare(W: World, l: Word, how: Likeness, r: Word, log: Log) returns (res: Outcome)
    requires Plain(l) && Plain(r) && W.glob(log, l).Some?
    ensures how in {Same, Different} && W.glob(log, r).None? ==> res == Error
    ensures how in {Same, Different} && W.glob(log, r).Some? ==>
      res == Got(Int(if (W.glob(log, l) == W.glob(log, r)) == (how == Same) then 1 else 0), 3, log)
    ensures how in {Like, Unlike} ==>
      match Matching.Reply(W.glob(log, l).value, r)
      case Yes => res == Got(Int(if how == Like then 1 else 0), 3, log)
      case No => res == Got(Int(if how == Like then 0 else 1), 3, log)
      case Lacks(_) => res == Error
      case Astray => true
  {
    hide Plain, Operator, Is, LikenessWord, Matching.Reply, Parse, Run;
    var ws := [l, LikenessWord(how), r];
    LikenessIs(ws, 1, how);
    Operand(ws, 0, REL);
    AtEnd(ws, REL, UNARY);
    Operand(ws, 2, REL);
    assert ws[1..2] == [ws[1]];
    ParseBinary(ws, 0, EQ);
    RunBinary(W, Binary(EQ, [ws[1]], Leaf(l), Leaf(r)), false, false, log);
    LeafRuns(W, l, false, log);
    LeafRuns(W, r, how in {Like, Unlike}, log);
    res := Exp(W, ws, 0, EQ, false, false, log);
  }

  // Files

  /** The answer to an inquiry, by its letter. */
  ghost predicate Tells(W: World, log: Log, letter: char, file: Word, yes: bool)
  {
    var st, lst := W.lookup(log, false, file), W.lookup(log, true, file);
    && (letter in {'r', 'w', 'x'} ==> yes == W.access(log, letter as int, file))
    && (letter == 'e' ==> yes == st.Some?)
    && (letter == 'o' ==> yes == (st.Some? && st.value.owner == W.uid))
    && (letter == 'z' ==> yes == (st.Some? && st.value.size == 0))
    && (letter == 'f' ==> yes == (st.Some? && st.value.kind == Regular))
    && (letter == 'd' ==> yes == (st.Some? && st.value.kind == Directory))
    && (letter == 'p' ==> yes == (st.Some? && st.value.kind == Fifo))
    && (letter == 's' ==> yes == (st.Some? && st.value.kind == Socket))
    && (letter == 'l' ==> yes == (lst.Some? && lst.value.kind == Link))
  }

  lemma {:induction false} ParseInquiry(letter: char, name: Word)
    requires letter in {'r', 'w', 'x', 'e', 'o', 'z', 'f', 'd', 'p', 's', 'l'}
    ensures var test := ['-' as int, letter as int];
      ParseUnary([test, name], 0) == Some((Inquiry(test, name), 2))
  {
    var test: Word := ['-' as int, letter as int];
    assert |test| == 2 && test[0] == '-' as int && test[1] == letter as int;
    var letters := "erwxfdzopls";
    var k := if letter == 'e' then 0 else if letter == 'r' then 1 else if letter == 'w' then 2
      else if letter == 'x' then 3 else if letter == 'f' then 4 else if letter == 'd' then 5
      else if letter == 'z' then 6 else if letter == 'o' then 7 else if letter == 'p' then 8
      else if letter == 'l' then 9 else 10;
    assert test[1] == letters[k] as int;
  }

  /** `-e name` and the other inquiries: an error if the name does not glob to one file, or is that of an operator and
      of no file. */
  method Inquire(W: World, letter: char, name: Word, file: Word, log: Log) returns (r: Outcome)
    requires letter in {'r', 'w', 'x', 'e', 'o', 'z', 'f', 'd', 'p', 's', 'l'}
    ensures NoFile(W, name, log) || W.glob(log, name).None? ==> r == Error
    ensures !NoFile(W, name, log) && W.glob(log, name) == Some(file) ==>
      exists yes :: Tells(W, log, letter, file, yes) && r == Got(Text(Putn(if yes then 1 else 0)), 2, log)
  {
    hide Putn, ParseUnary, NoFile;
    var test: Word := ['-' as int, letter as int];
    ParseInquiry(letter, name);
    r := Exp6(W, [test, name], 0, false, false, log);
    ghost var yes := FileTest(W, test, name, log);
    assert W.glob(log, name) == Some(file) ==> yes.Some? && Tells(W, log, letter, file, yes.value);
  }

  // A command on the right

  lemma {:induction false} ClosesAt(ws: Vec, v: nat, k: nat)
    requires v <= k < |ws| && ws[k] == RBRACE && forall j :: v <= j < k ==> ws[j] != RBRACE
    ensures ClosingBrace(ws, v) == k
    decreases k - v
  {
    hide Is;
    Marks(ws[v]);
    if v < k {
      ClosesAt(ws, v + 1, k);
    }
  }

  lemma {:induction false} ParseCommand(ws: Vec, v: nat, k: nat)
    requires v < k < |ws| && ws[v] == LBRACE && ws[k] == RBRACE && forall j :: v < j < k ==> ws[j] != RBRACE
    ensures Parse(ws, v, UNARY) == Some((Brace(ws[v + 1..k]), k + 1))
  {
    hide Is, Operator, AnyOp, IsInquiry;
    Marks(ws[v]);
    ClosesAt(ws, v + 1, k);
  }

  /** What is delivered for a command on the right of `||` or `&&`: nothing is forked if the left side settles it;
      otherwise the command is, once, and counts as true if its status is 0. */
  function Forking(W: World, a: Int32, s: Sign, cmd: seq<Word>, level: Level, at: nat, log: Log): Outcome
  {
    if s == Or && a != 0 then Got(Form(level, 1), at, log)
    else if s == And && a == 0 then Got(Form(level, 0), at, log)
    else
      var forked := log + [cmd];
      match Egetn(W.status(forked))
      case None => Error
      case Some(n) => Got(Form(level, if n == 0 then 1 else 0), at, forked)
  }

  lemma {:induction false} BraceRuns(W: World, cmd: seq<Word>, ignore: bool, log: Log)
    ensures Run(W, Number(Brace(cmd)), ignore, false, log) ==
      if ignore then Done(Int(0), log)
      else match Egetn(W.status(log + [cmd]))
        case None => Fail
        case Some(n) => Done(Int(if n == 0 then 1 else 0), log + [cmd])
  {
    hide Putn, Egetn;
    NothingIsZero();
    PutnIsNumber(0);
    PutnIsNumber(1);
    assert Run(W, Brace(cmd), ignore, false, log) ==
      if ignore then Done(Text([]), log)
      else match Egetn(W.status(log + [cmd]))
        case None => Fail
        case Some(n) => Done(Text(Putn(Bool(n == 0))), log + [cmd]);
  }

  method CalculateCommand(W: World, a: Int32, s: Sign, cmd: seq<Word>, log: Log) returns (r: Outcome)
    requires Globs(W, log, a) && s in {Or, And} && RBRACE !in cmd
    ensures r == Forking(W, a, s, cmd, OR, |cmd| + 4, log)
  {
    hide Putn, Parse, Run, Operator, Egetn, Is, Plain, Globs, Number32, Lift;
    var ws := [Putn(a)] + Spelt(s) + [LBRACE] + cmd + [RBRACE];
    CommandParse(a, s, cmd);
    CommandRuns(W, a, s, cmd, log);
    r := Exp(W, ws, 0, OR, false, false, log);
  }

  lemma {:induction false} CommandIs(a: Int32, s: Sign, cmd: seq<Word>)
    requires s in {Or, And} && RBRACE !in cmd
    ensures var ws, e := [Putn(a)] + Spelt(s) + [LBRACE] + cmd + [RBRACE], |cmd| + 4;
      && |ws| == e && ws[0] == Putn(a) && ws[2] == LBRACE && ws[e - 1] == RBRACE && ws[3..e - 1] == cmd
      && |Spelt(s)| == 1 && Stands(ws, 1, s) && forall j :: 2 < j < e - 1 ==> ws[j] != RBRACE
  {
    hide Putn, Is;
    var ws, e := [Putn(a)] + Spelt(s) + [LBRACE] + cmd + [RBRACE], |cmd| + 4;
    assert ws[1..2] == Spelt(s);
    Literal(LBRACE, "=");
    assert ws[3..e - 1] == cmd;
    forall j | 2 < j < e - 1 ensures ws[j] != RBRACE {
      assert ws[j] == cmd[j - 3];
    }
  }

  lemma {:induction false} CommandParse(a: Int32, s: Sign, cmd: seq<Word>)
    requires s in {Or, And} && RBRACE !in cmd
    ensures var ws := [Putn(a)] + Spelt(s) + [LBRACE] + cmd + [RBRACE];
      Parse(ws, 0, OR) == Some((Binary(Rank(s), Spelt(s), Number32(a, Rank(s) + 1), Number(Brace(cmd))), |cmd| + 4))
  {
    hide Putn, Parse, Operator, Is, Plain, Free, Stands;
    var ws, e := [Putn(a)] + Spelt(s) + [LBRACE] + cmd + [RBRACE], |cmd| + 4;
    CommandIs(a, s, cmd);
    PutnPlain(a);
    FreeAt(ws, 1, s, Rank(s) + 1, UNARY);
    Operand(ws, 0, Rank(s) + 1);
    ParseCommand(ws, 2, e - 1);
    AtEnd(ws, Rank(s), UNARY);
    Descend(ws, 2, Brace(cmd), e, UNARY, Rank(s));
    ParseSign(ws, 0, s, Number32(a, Rank(s) + 1), 1, Number(Brace(cmd)), e);
    AtEnd(ws, OR, Rank(s));
    Descend(ws, 0, Parse(ws, 0, Rank(s)).value.0, e, Rank(s), OR);
  }

  lemma {:induction false} CommandRuns(W: World, a: Int32, s: Sign, cmd: seq<Word>, log: Log)
    requires Globs(W, log, a) && s in {Or, And}
    ensures var t := Binary(Rank(s), Spelt(s), Number32(a, Rank(s) + 1), Number(Brace(cmd)));
      match Forking(W, a, s, cmd, OR, 0, log)
      case Error => Run(W, t, false, false, log) == Fail
      case Got(v, _, log') => Run(W, t, false, false, log) == Done(v, log')
  {
    hide Putn, Run, Egetn, Is, Globs, Number32;
    NumberGives(W, false, log, Rank(s) + 1, a);
    RunBinary(W, Binary(Rank(s), Spelt(s), Number32(a, Rank(s) + 1), Number(Brace(cmd))), false, false, log);
    BraceRuns(W, cmd, Decides(s, a), log);
  }
}
