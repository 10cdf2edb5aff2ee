/** The expression evaluator: recursive descent over a vector of words, valuing or only skipping as it goes. It is
    proved to agree with the short-circuit meaning of the expression's tree. */
module Expressions {
  import opened Words
  import opened Numbers
  import Matching

  type Vec = seq<Word>

  /** The commands in braces that have been forked, in order. */
  type Log = seq<seq<Word>>

  /** An integer, as the levels above `exp3` return, or a string. */
  datatype Value = Int(n: Int32) | Text(w: Word)

  datatype Kind = Regular | Directory | Fifo | Link | Socket | Other

  datatype Stat = Stat(kind: Kind, size: int, owner: int)

  /** What the evaluator asks of the system, as it is after the commands forked so far: globbing to one word, `access`,
      `stat` or with the flag `lstat`, and the status variable. Also what the machine makes of a shift by a count it
      does not define, and of a pattern that sends the matcher past the end of a string. */
  datatype World = World(
    uid: int,
    glob: (Log, Word) -> Option<Word>,
    access: (Log, Char, Word) -> bool,
    lookup: (Log, bool, Word) -> Option<Stat>,
    status: Log -> Word,
    shifted: (Word, Int32, Int32) -> Int32,
    astray: (Word, Word) -> Option<bool>)

  /** The binary levels of the grammar, and the operands below them. */
  const OR := 0

  const AND := 1

  const EQ := 5

  const REL := 6

  const SHIFT := 7

  const ADD := 8

  const MUL := 9

  const UNARY := 10

  type Level = n: nat | n <= 10

  /** `isa` for the words that `exp6` and the file inquiries take for operators. */
  predicate AnyOp(w: Word)
  {
    || (|w| <= 1 && At(w, 0) in {'+' as int, '-' as int, '*' as int, '/' as int, '%' as int, '(' as int, ')' as int,
                                 '!' as int, '~' as int, '^' as int, '"' as int})
    || (|w| == 2 && (Is(w, "|&") || Is(w, "==") || Is(w, "=~") || Is(w, "!=") || Is(w, "!~")))
    || At(w, 0) == '<' as int || At(w, 0) == '>' as int
  }

  /** How many words the operator of this level takes at `c`; none if it is not there. */
  function Operator(ws: Vec, c: nat, level: Level): (n: nat)
    ensures c + n <= |ws| || n == 0
  {
    if c >= |ws| then 0
    else
      var w := ws[c];
      if level == REL then
        if At(w, 0) != '<' as int && At(w, 0) != '>' as int then 0
        else if c + 1 < |ws| && Is(ws[c + 1], "=") then 2
        else 1
      else if
        || (level == OR && Is(w, "||")) || (level == AND && Is(w, "&&"))
        || (level == 2 && Is(w, "|")) || (level == 3 && Is(w, "^")) || (level == 4 && Is(w, "&"))
        || (level == EQ && (Is(w, "==") || Is(w, "!=") || Is(w, "=~") || Is(w, "!~")))
        || (level == SHIFT && (At(w, 0) == '<' as int || At(w, 0) == '>' as int) && At(w, 1) == At(w, 0))
        || (level == ADD && (Is(w, "+") || Is(w, "-"))) || (level == MUL && (Is(w, "*") || Is(w, "/") || Is(w, "%")))
      then 1
      else 0
  }

  /** The first `}` at or after `v`, or the end. */
  function ClosingBrace(ws: Vec, v: nat): (k: nat)
    requires v <= |ws|
    ensures v <= k <= |ws|
    decreases |ws| - v
  {
    if v == |ws| || Is(ws[v], "}") then v else ClosingBrace(ws, v + 1)
  }

  // Trees

  datatype Tree =
    | Binary(level: Level, op: seq<Word>, left: Tree, right: Tree)
    | Number(term: Tree)
    | Not(term: Tree)
    | Complement(term: Tree)
    | Nest(term: Tree)
    | Brace(command: seq<Word>)
    | Missing
    | Inquiry(test: Word, name: Word)
    | Leaf(word: Word)

  /** Binary operators group to the right, but an equality takes one relation on each side. */
  function Right(level: Level): Level
  {
    if level == EQ then REL else level
  }

  predicate IsInquiry(w: Word)
  {
    At(w, 0) == '-' as int && 1 < |w| && exists k :: 0 <= k < |"erwxfdzopls"| && w[1] == "erwxfdzopls"[k] as int
  }

  /** The tree of the expression at `v`, down from the given level, and the position after it. */
  function Parse(ws: Vec, v: nat, level: Level): (r: Option<(Tree, nat)>)
    requires v <= |ws|
    ensures r.Some? ==> v <= r.value.1 <= |ws|
    decreases |ws| - v, 11 - level, 1
  {
    if level == UNARY then ParseUnary(ws, v)
    else
      match Parse(ws, v, level + 1)
      case None => None
      case Some((left, c)) =>
        var n := Operator(ws, c, level);
        if n == 0 then Some((if level == EQ then Number(left) else left, c))
        else
          match Parse(ws, c + n, Right(level))
          case None => None
          case Some((right, e)) => Some((Binary(level, ws[c..c + n], left, right), e))
  }

  function ParseUnary(ws: Vec, v: nat): (r: Option<(Tree, nat)>)
    requires v <= |ws|
    ensures r.Some? ==> v <= r.value.1 <= |ws|
    decreases |ws| - v, 1, 0
  {
    if v == |ws| then None
    else if Is(ws[v], "!") || Is(ws[v], "~") then
      match Parse(ws, v + 1, UNARY)
      case None => None
      case Some((t, c)) => Some((if Is(ws[v], "!") then Not(t) else Complement(t), c))
    else if Is(ws[v], "(") then
      match Parse(ws, v + 1, OR)
      case None => None
      case Some((t, c)) => if c == |ws| || At(ws[c], 0) != ')' as int then None else Some((Nest(t), c + 1))
    else if Is(ws[v], "{") then
      var k := ClosingBrace(ws, v + 1);
      if k == |ws| then None else Some((Brace(ws[v + 1..k]), k + 1))
    else if AnyOp(ws[v]) then Some((Missing, v))
    else if IsInquiry(ws[v]) then
      if |ws[v]| != 2 || v + 1 == |ws| then None else Some((Inquiry(ws[v], ws[v + 1]), v + 2))
    else Some((Leaf(ws[v]), v + 1))
  }

  // Meaning

  datatype Result = Fail | Done(value: Value, log: Log)

  /** `egetn`: the empty word is 0, and a number starts with a digit or a minus. */
  function Egetn(w: Word): Option<Int32>
  {
    if w != [] && w[0] != '-' as int && !Isdigit(w[0]) then None else Numeral(w)
  }

  /** The number a value stands for: the value itself, or what `egetn` reads. */
  function Num(v: Value): Option<Int32>
  {
    if v.Int? then Some(v.n) else Egetn(v.w)
  }

  predicate Matches(op: seq<Word>)
  {
    op != [] && (Is(op[0], "=~") || Is(op[0], "!~"))
  }

  /** The codes of `isa` for the operators of equality and relation. */
  function Code(level: Level, op: seq<Word>): Int32
    requires op != []
  {
    if level == REL then (if At(op[0], 0) == '>' as int then 2 else 4) + if |op| == 2 then 1 else 0
    else if Is(op[0], "==") then 1
    else if Is(op[0], "!=") then 6
    else if Is(op[0], "=~") then 7
    else 8
  }

  function Bool(b: bool): Int32
  {
    if b then 1 else 0
  }

  function Similar(W: World, l: Word, r: Word): Option<bool>
  {
    match Matching.Reply(l, r)
    case Yes => Some(true)
    case No => Some(false)
    case Lacks(_) => None
    case Astray => W.astray(l, r)
  }

  function Equality(W: World, op: seq<Word>, l: Word, r: Word): Option<Value>
    requires op != []
  {
    if Is(op[0], "==") then Some(Int(Bool(l == r)))
    else if Is(op[0], "!=") then Some(Int(Bool(l != r)))
    else match Similar(W, l, r)
      case None => None
      case Some(b) => Some(Int(Bool(if Is(op[0], "=~") then b else !b)))
  }

  function Relation(op: seq<Word>, l: int, r: int): bool
    requires op != []
  {
    var less := At(op[0], 0) == '<' as int;
    if |op| == 2 then (if less then l <= r else l >= r) else (if less then l < r else l > r)
  }

  function Pattern32(n: Int32): bv32
  {
    (n % 0x1_0000_0000) as bv32
  }

  /** `|`, `^` and `&`, in two's complement. */
  function Merge(level: Level, x: bv32, y: bv32): bv32
  {
    if level == 2 then x | y else if level == 3 then x ^ y else x & y
  }

  function Bitwise(level: Level, a: Int32, b: Int32): Int32
  {
    Wrap(Merge(level, Pattern32(a), Pattern32(b)) as int)
  }

  function Pow2(n: nat): (r: nat)
    ensures r > 0
  {
    if n == 0 then 1 else 2 * Pow2(n - 1)
  }

  function Shift(W: World, op: Word, a: Int32, b: Int32): Int32
  {
    if !(0 <= b < 32) then W.shifted(op, a, b)
    else Wrap(if At(op, 0) == '<' as int then a * Pow2(b) else a / Pow2(b))
  }

  /** Division as the machine has it, toward zero. */
  function Quotient(a: int, b: int): int
    requires b != 0
  {
    if a >= 0 then a / b else -((-a) / b)
  }

  /** Shifts, sums and products; nothing when dividing by zero. */
  function Arithmetic(W: World, level: Level, op: Word, a: Int32, b: Int32): Option<Int32>
  {
    if level == ADD then Some(Wrap(if At(op, 0) == '+' as int then a + b else a - b))
    else if level != MUL then Some(Shift(W, op, a, b))
    else if At(op, 0) == '*' as int then Some(Wrap(a * b))
    else if b == 0 then None
    else Some(Wrap(if At(op, 0) == '/' as int then Quotient(a, b) else a - b * Quotient(a, b)))
  }

  /** A binary operator on the values of its sides, in earnest. */
  function Apply(W: World, level: Level, op: seq<Word>, l: Value, r: Value): Option<Value>
    requires op != []
  {
    if level == EQ then if l.Text? && r.Text? then Equality(W, op, l.w, r.w) else None
    else if Num(l).None? || Num(r).None? then None
    else
      var a, b := Num(l).value, Num(r).value;
      if level == OR then Some(Int(Bool(a != 0 || b != 0)))
      else if level == AND then Some(Int(Bool(a != 0 && b != 0)))
      else if level < EQ then Some(Int(Bitwise(level, a, b)))
      else if level == REL then Some(Text(Putn(Bool(Relation(op, a, b)))))
      else match Arithmetic(W, level, op[0], a, b)
        case None => None
        case Some(n) => Some(Text(Putn(n)))
  }

  /** What is left of it when the value is to be ignored: equality and relation give the code of their operator, sums
      and products 0, and the others are worked out all the same. */
  function Idle(W: World, level: Level, op: seq<Word>, l: Value, r: Value): Option<Value>
    requires op != []
  {
    if level == EQ then Some(Int(Code(level, op)))
    else if level == REL then Some(Text(Putn(Code(level, op))))
    else if level == ADD || level == MUL then Some(Text(Putn(0)))
    else Apply(W, level, op, l, r)
  }

  predicate Truth(v: Value)
  {
    Num(v).Some? && Num(v).value != 0
  }

  /** Whether the right side of `||` or `&&` counts for nothing. */
  predicate Ignored(level: Level, l: Value, ignore: bool)
  {
    if level == OR then ignore || Truth(l) else if level == AND then ignore || !Truth(l) else ignore
  }

  /** Whether words on the right side are kept from globbing: those of a pattern are. */
  predicate Unglobbed(level: Level, op: seq<Word>, noglob: bool)
  {
    level > AND && (noglob || (level == EQ && Matches(op)))
  }

  /** `~n`. */
  function Flip(n: Int32): Int32
  {
    -1 - n
  }

  datatype Unary = AsNumber | Negated | Flipped | Printed

  function Converted(how: Unary, n: Int32): Value
  {
    match how
    case AsNumber => Int(n)
    case Negated => Text(Putn(Bool(n == 0)))
    case Flipped => Text(Putn(Flip(n)))
    case Printed => Text(Putn(n))
  }

  function Convert(r: Result, how: Unary): Result
  {
    if r.Fail? || Num(r.value).None? then Fail else Done(Converted(how, Num(r.value).value), r.log)
  }

  /** An operator in the place of a file name, and no file called that. */
  predicate NoFile(W: World, name: Word, log: Log)
  {
    AnyOp(name) && W.lookup(log, false, name).None?
  }

  /** The file inquiries; nothing if the name does not glob to one word. */
  function FileTest(W: World, test: Word, name: Word, log: Log): Option<bool>
  {
    match W.glob(log, name)
    case None => None
    case Some(file) =>
      var c := At(test, 1);
      if c == 'r' as int || c == 'w' as int || c == 'x' as int then Some(W.access(log, test[1], file))
      else match W.lookup(log, c == 'l' as int, file)
        case None => Some(false)
        case Some(st) => Some(
          || (c == 'f' as int && st.kind == Regular) || (c == 'd' as int && st.kind == Directory)
          || (c == 'p' as int && st.kind == Fifo) || (c == 'l' as int && st.kind == Link)
          || (c == 's' as int && st.kind == Socket) || (c == 'z' as int && st.size == 0)
          || c == 'e' as int || (c == 'o' as int && st.owner == W.uid))
  }

  /** The meaning of a tree: the right side of `||` and `&&` counts only if the left leaves the question open. */
  function Meaning(W: World, t: Tree, noglob: bool, log: Log): Result
  {
    match t
    case Binary(level, op, left, right) =>
      (match Meaning(W, left, noglob, log)
       case Fail => Fail
       case Done(l, log1) =>
         if Ignored(level, l, false) then if Num(l).None? then Fail else Done(Int(Bool(level == OR)), log1)
         else match Meaning(W, right, Unglobbed(level, op, noglob), log1)
           case Fail => Fail
           case Done(r, log2) =>
             if op == [] then Fail
             else match Apply(W, level, op, l, r)
               case None => Fail
               case Some(v) => Done(v, log2))
    case Number(e) => Convert(Meaning(W, e, noglob, log), AsNumber)
    case Not(e) => Convert(Meaning(W, e, noglob, log), Negated)
    case Complement(e) => Convert(Meaning(W, e, noglob, log), Flipped)
    case Nest(e) => Convert(Meaning(W, e, noglob, log), Printed)
    case Brace(command) =>
      var forked := log + [command];
      (match Egetn(W.status(forked))
       case None => Fail
       case Some(n) => Done(Text(Putn(Bool(n == 0))), forked))
    case Missing => Done(Text([]), log)
    case Inquiry(test, name) =>
      if NoFile(W, name, log) then Fail
      else (match FileTest(W, test, name, log)
            case None => Fail
            case Some(b) => Done(Text(Putn(Bool(b))), log))
    case Leaf(w) =>
      if noglob then Done(Text(w), log)
      else (match W.glob(log, w)
            case None => Fail
            case Some(g) => Done(Text(g), log))
  }

  /** What the evaluator makes of a tree. The side that does not count is gone through too, with `ignore` set: nothing
      in it is forked, but what it has in place of numbers must still be numbers. */
  function Run(W: World, t: Tree, ignore: bool, noglob: bool, log: Log): Result
  {
    match t
    case Binary(level, op, left, right) =>
      (match Run(W, left, ignore, noglob, log)
       case Fail => Fail
       case Done(l, log1) =>
         match Run(W, right, Ignored(level, l, ignore), Unglobbed(level, op, noglob), log1)
         case Fail => Fail
         case Done(r, log2) =>
           if op == [] then Fail
           else match if ignore then Idle(W, level, op, l, r) else Apply(W, level, op, l, r)
             case None => Fail
             case Some(v) => Done(v, log2))
    case Number(e) => Convert(Run(W, e, ignore, noglob, log), AsNumber)
    case Not(e) => Convert(Run(W, e, ignore, noglob, log), Negated)
    case Complement(e) => Convert(Run(W, e, ignore, noglob, log), Flipped)
    case Nest(e) => Convert(Run(W, e, ignore, noglob, log), Printed)
    case Brace(command) => if ignore then Done(Text([]), log) else Meaning(W, t, noglob, log)
    case Inquiry(test, name) =>
      if ignore && !NoFile(W, name, log) then Done(Text([]), log) else Meaning(W, t, noglob, log)
    case _ => Meaning(W, t, noglob, log)
  }

  /** Nothing is forked where the value is ignored. */
  lemma {:induction false} IgnoredForksNothing(W: World, t: Tree, noglob: bool, log: Log)
    ensures var r := Run(W, t, true, noglob, log); r.Done? ==> r.log == log
  {
    match t {
      case Binary(level, op, left, right) =>
        IgnoredForksNothing(W, left, noglob, log);
        IgnoredForksNothing(W, right, Unglobbed(level, op, noglob), log);
      case Number(e) => IgnoredForksNothing(W, e, noglob, log);
      case Not(e) => IgnoredForksNothing(W, e, noglob, log);
      case Complement(e) => IgnoredForksNothing(W, e, noglob, log);
      case Nest(e) => IgnoredForksNothing(W, e, noglob, log);
      case _ =>
    }
  }

  /** Whether a subtree stands for a number, should its value be asked for though it is ignored: only a word may not. */
  predicate Numeric(W: World, t: Tree, noglob: bool, log: Log)
  {
    t.Leaf? ==>
      var g := if noglob then Some(t.word) else W.glob(log, t.word);
      g.Some? && Egetn(g.value).Some?
  }

  /** Whether a subtree can be gone through though its value is ignored: its words glob, those in the place of numbers
      are numbers, and its inquiries name no operator that is not also a file. */
  predicate Readable(W: World, t: Tree, noglob: bool, log: Log)
  {
    match t
    case Binary(level, op, left, right) =>
      && op != [] && Readable(W, left, noglob, log) && Readable(W, right, Unglobbed(level, op, noglob), log)
      && (level !in {EQ, REL, ADD, MUL} ==>
            Numeric(W, left, noglob, log) && Numeric(W, right, Unglobbed(level, op, noglob), log))
    case Number(e) => Readable(W, e, noglob, log) && Numeric(W, e, noglob, log)
    case Not(e) => Readable(W, e, noglob, log) && Numeric(W, e, noglob, log)
    case Complement(e) => Readable(W, e, noglob, log) && Numeric(W, e, noglob, log)
    case Nest(e) => Readable(W, e, noglob, log) && Numeric(W, e, noglob, log)
    case Brace(_) => true
    case Missing => true
    case Inquiry(_, name) => !NoFile(W, name, log)
    case Leaf(w) => noglob || W.glob(log, w).Some?
  }

  /** What `putn` writes, `egetn` reads. */
  lemma {:induction false} PutnIsNumber(n: Int32)
    ensures Egetn(Putn(n)) == Some(n)
  {
    hide Digits, Numeral;
    RoundTrip(n);
  }

  lemma {:induction false} NothingIsZero()
    ensures Egetn([]) == Some(0)
  {
    assert Numeral([]) == Some(Wrap(Denotes([][0..])));
  }

  /** The evaluator gets through an ignored subtree exactly when it is readable, and the value is then a number exactly
      when the subtree is numeric. */
  lemma {:induction false} ReadableIsRun(W: World, t: Tree, noglob: bool, log: Log)
    ensures var r := Run(W, t, true, noglob, log);
      && (r.Done? <==> Readable(W, t, noglob, log))
      && (r.Done? ==> r.log == log && (Num(r.value).Some? <==> Numeric(W, t, noglob, log)))
  {
    hide Egetn, Putn, NoFile, FileTest, Shift, Bitwise, Equality, Relation, Is, Truth;
    NothingIsZero();
    forall n: Int32
      ensures Egetn(Putn(n)) == Some(n)
    {
      PutnIsNumber(n);
    }
    match t {
      case Binary(level, op, left, right) =>
        ReadableIsRun(W, left, noglob, log);
        ReadableIsRun(W, right, Unglobbed(level, op, noglob), log);
      case Number(e) => ReadableIsRun(W, e, noglob, log);
      case Not(e) => ReadableIsRun(W, e, noglob, log);
      case Complement(e) => ReadableIsRun(W, e, noglob, log);
      case Nest(e) => ReadableIsRun(W, e, noglob, log);
      case _ =>
    }
  }

  /** Whether every side that does not count can be gone through and is a number. */
  predicate Quiet(W: World, t: Tree, noglob: bool, log: Log)
  {
    match t
    case Binary(level, op, left, right) =>
      && Quiet(W, left, noglob, log)
      && (match Meaning(W, left, noglob, log)
          case Fail => true
          case Done(l, log1) =>
            if Ignored(level, l, false) then
              op != [] && Readable(W, right, false, log1) && Numeric(W, right, false, log1)
            else Quiet(W, right, Unglobbed(level, op, noglob), log1))
    case Number(e) => Quiet(W, e, noglob, log)
    case Not(e) => Quiet(W, e, noglob, log)
    case Complement(e) => Quiet(W, e, noglob, log)
    case Nest(e) => Quiet(W, e, noglob, log)
    case _ => true
  }

  /** The side that settles `||` or `&&` settles it whatever number the other is. */
  lemma {:induction false} Settled(W: World, level: Level, op: seq<Word>, l: Value, r: Value)
    requires op != [] && Ignored(level, l, false)
    ensures Apply(W, level, op, l, r) == (if Num(l).None? || Num(r).None? then None else Some(Int(Bool(level == OR))))
  {
  }

  /** The evaluator finds the meaning of the tree, exactly when there is one and the sides that do not count are
      quiet. */
  lemma {:induction false} RunIsMeaning(W: World, t: Tree, noglob: bool, log: Log)
    ensures Run(W, t, false, noglob, log).Done? ==>
              Meaning(W, t, noglob, log) == Run(W, t, false, noglob, log) && Quiet(W, t, noglob, log)
    ensures Meaning(W, t, noglob, log).Done? && Quiet(W, t, noglob, log) ==>
              Run(W, t, false, noglob, log) == Meaning(W, t, noglob, log)
  {
    hide Apply, Idle, Truth;
    match t {
      case Binary(level, op, left, right) =>
        RunIsMeaning(W, left, noglob, log);
        match Meaning(W, left, noglob, log) {
          case Fail =>
          case Done(l, log1) =>
            if Ignored(level, l, false) {
              ReadableIsRun(W, right, false, log1);
              var r := Run(W, right, true, false, log1);
              if op != [] && r.Done? {
                Settled(W, level, op, l, r.value);
              }
            } else {
              RunIsMeaning(W, right, Unglobbed(level, op, noglob), log1);
            }
        }
      case Number(e) => RunIsMeaning(W, e, noglob, log);
      case Not(e) => RunIsMeaning(W, e, noglob, log);
      case Complement(e) => RunIsMeaning(W, e, noglob, log);
      case Nest(e) => RunIsMeaning(W, e, noglob, log);
      case _ =>
    }
  }

  // The evaluator

  datatype Outcome = Error | Got(value: Value, at: nat, log: Log)

  /** What a call has to deliver: the position after the tree that it read, and what becomes of that tree. */
  predicate Agrees(W: World, read: Option<(Tree, nat)>, ignore: bool, noglob: bool, log: Log, r: Outcome)
  {
    if read.None? then r.Error?
    else match Run(W, read.value.0, ignore, noglob, log)
      case Fail => r.Error?
      case Done(v, log1) => r == Got(v, read.value.1, log1)
  }

  /** `exp0` to `exp6`, by level. */
  method Exp(W: World, ws: Vec, v: nat, level: Level, ignore: bool, noglob: bool, log: Log) returns (r: Outcome)
    requires v <= |ws|
    ensures Agrees(W, Parse(ws, v, level), ignore, noglob, log, r)
    ensures r.Got? ==> (r.value.Int? <==> level <= EQ)
    decreases |ws| - v, 11 - level, 1
  {
    hide Egetn, Putn, Operator, Apply, Idle, Is, AnyOp, ParseUnary, FileTest, NoFile, Unglobbed, Ignored;
    if level == UNARY {
      r := Exp6(W, ws, v, ignore, noglob, log);
      return;
    }
    r := Exp(W, ws, v, level + 1, ignore, noglob, log);
    if r.Error? {
      return;
    }
    var n := Operator(ws, r.at, level);
    if n != 0 {
      r := Operate(W, ws, v, level, ignore, noglob, log, r, n);
    } else if level == EQ {
      match Num(r.value) {
        case None => r := Error;
        case Some(k) => r := r.(value := Int(k));
      }
    }
  }

  /** The operator of a binary level and its right side, once the left has been evaluated. */
  method Operate(W: World, ws: Vec, ghost v: nat, level: Level, ignore: bool, noglob: bool, ghost log: Log,
                 left: Outcome, n: nat) returns (r: Outcome)
    requires v <= |ws| && level < UNARY && Agrees(W, Parse(ws, v, level + 1), ignore, noglob, log, left)
    requires left.Got? && (left.value.Int? <==> level < EQ) && n == Operator(ws, left.at, level) > 0
    ensures Agrees(W, Parse(ws, v, level), ignore, noglob, log, r)
    ensures r.Got? ==> (r.value.Int? <==> level <= EQ)
    decreases |ws| - v, 11 - level, 0
  {
    hide Operator, Apply, Idle, Code, Is, Parse, Run, Matches, Truth;
    var p1, c := left.value, left.at;
    var op := ws[c..c + n];
    var right := Exp(W, ws, c + n, Right(level), Ignored(level, p1, ignore), Unglobbed(level, op, noglob), left.log);
    ParseBinary(ws, v, level);
    if Parse(ws, v, level).Some? {
      RunBinary(W, Parse(ws, v, level).value.0, ignore, noglob, log);
    }
    if right.Error? {
      return Error;
    }
    var value := if ignore then Idle(W, level, op, p1, right.value) else Apply(W, level, op, p1, right.value);
    Kinds(W, level, op, p1, right.value);
    r := if value.None? then Error else Got(value.value, right.at, right.log);
  }

  lemma {:induction false} ParseBinary(ws: Vec, v: nat, level: Level)
    requires v <= |ws| && level < UNARY && Parse(ws, v, level + 1).Some?
    ensures var (left, c) := Parse(ws, v, level + 1).value;
      var n := Operator(ws, c, level);
      n > 0 ==>
        match Parse(ws, c + n, Right(level))
        case None => Parse(ws, v, level) == None
        case Some((right, e)) => Parse(ws, v, level) == Some((Binary(level, ws[c..c + n], left, right), e))
  {
    hide Operator, Is;
  }

  lemma {:induction false} RunBinary(W: World, t: Tree, ignore: bool, noglob: bool, log: Log)
    requires t.Binary? && t.op != []
    ensures Run(W, t, ignore, noglob, log) ==
      match Run(W, t.left, ignore, noglob, log)
      case Fail => Fail
      case Done(l, log1) =>
        match Run(W, t.right, Ignored(t.level, l, ignore), Unglobbed(t.level, t.op, noglob), log1)
        case Fail => Fail
        case Done(r, log2) =>
          match if ignore then Idle(W, t.level, t.op, l, r) else Apply(W, t.level, t.op, l, r)
          case None => Fail
          case Some(v) => Done(v, log2)
  {
    hide Idle, Apply, Ignored, Unglobbed;
  }

  /** What kind of value an operator gives. */
  lemma {:induction false} Kinds(W: World, level: Level, op: seq<Word>, l: Value, r: Value)
    requires op != [] && level < UNARY && (l.Int? <==> level < EQ) && (r.Int? <==> level < EQ)
    ensures Apply(W, level, op, l, r).Some? ==> (Apply(W, level, op, l, r).value.Int? <==> level <= EQ)
    ensures Idle(W, level, op, l, r).Some? ==> (Idle(W, level, op, l, r).value.Int? <==> level <= EQ)
  {
    hide Is, At;
  }

  /** `exp6`. */
  method Exp6(W: World, ws: Vec, v: nat, ignore: bool, noglob: bool, log: Log) returns (r: Outcome)
    requires v <= |ws|
    ensures Agrees(W, ParseUnary(ws, v), ignore, noglob, log, r) && (r.Got? ==> r.value.Text?)
    decreases |ws| - v, 1, 0
  {
    hide Is, IsInquiry, AnyOp, Egetn, Putn, NoFile, FileTest, Apply, Idle, Operator, Ignored, Unglobbed;
    if v == |ws| {
      return Error;
    }
    var w := ws[v];
    if Is(w, "!") || Is(w, "~") {
      r := Negation(W, ws, v, ignore, noglob, log);
    } else if Is(w, "(") {
      r := Nested(W, ws, v, ignore, noglob, log);
    } else if Is(w, "{") {
      r := BraceCommand(W, ws, v, ignore, noglob, log);
    } else if AnyOp(w) {
      r := Got(Text([]), v, log);
    } else if IsInquiry(w) {
      r := FileInquiry(W, ws, v, ignore, noglob, log);
    } else {
      var g := if noglob then Some(w) else W.glob(log, w);
      r := if g.None? then Error else Got(Text(g.value), v + 1, log);
    }
  }

  /** `!` and `~`. */
  method Negation(W: World, ws: Vec, v: nat, ignore: bool, noglob: bool, log: Log) returns (r: Outcome)
    requires v < |ws| && (Is(ws[v], "!") || Is(ws[v], "~"))
    ensures Agrees(W, ParseUnary(ws, v), ignore, noglob, log, r) && (r.Got? ==> r.value.Text?)
    decreases |ws| - v, 0, 0
  {
    hide Is, IsInquiry, AnyOp, Egetn, Putn, NoFile, FileTest, Apply, Idle, Operator, Ignored, Unglobbed;
    r := Exp(W, ws, v + 1, UNARY, ignore, noglob, log);
    if r.Error? || Num(r.value).None? {
      return Error;
    }
    var i := Num(r.value).value;
    r := r.(value := Text(Putn(if Is(ws[v], "!") then Bool(i == 0) else Flip(i))));
  }

  /** An expression in parentheses. */
  method Nested(W: World, ws: Vec, v: nat, ignore: bool, noglob: bool, log: Log) returns (r: Outcome)
    requires v < |ws| && Is(ws[v], "(") && !Is(ws[v], "!") && !Is(ws[v], "~")
    ensures Agrees(W, ParseUnary(ws, v), ignore, noglob, log, r) && (r.Got? ==> r.value.Text?)
    decreases |ws| - v, 0, 0
  {
    hide Is, IsInquiry, AnyOp, Egetn, Putn, NoFile, FileTest, Apply, Idle, Operator, Ignored, Unglobbed;
    r := Exp(W, ws, v + 1, OR, ignore, noglob, log);
    if r.Error? || r.at == |ws| || At(ws[r.at], 0) != ')' as int {
      return Error;
    }
    r := r.(value := Text(Putn(r.value.n)), at := r.at + 1);
  }

  /** A command in braces: skipped to its end, and forked unless the value is ignored. */
  method BraceCommand(W: World, ws: Vec, v: nat, ignore: bool, ghost noglob: bool, log: Log) returns (r: Outcome)
    requires v < |ws| && Is(ws[v], "{")
    ensures Agrees(W, ParseUnary(ws, v), ignore, noglob, log, r) && (r.Got? ==> r.value.Text?)
  {
    FixedWords(ws[v]);
    hide Is;
    var k := v + 1;
    while k < |ws| && !Is(ws[k], "}")
      invariant v < k <= |ws| && ClosingBrace(ws, k) == ClosingBrace(ws, v + 1)
    {
      k := k + 1;
    }
    if k == |ws| {
      return Error;
    }
    if ignore {
      return Got(Text([]), k + 1, log);
    }
    var forked := log + [ws[v + 1..k]];
    var status := Egetn(W.status(forked));
    r := if status.None? then Error else Got(Text(Putn(Bool(status.value == 0))), k + 1, forked);
  }

  lemma {:induction false} FixedWords(w: Word)
    requires Is(w, "{")
    ensures !Is(w, "!") && !Is(w, "~") && !Is(w, "(")
  {
    assert w[0] == '{' as int;
  }

  /** `-e name` and the other inquiries. */
  method FileInquiry(W: World, ws: Vec, v: nat, ignore: bool, ghost noglob: bool, log: Log) returns (r: Outcome)
    requires v < |ws| && IsInquiry(ws[v]) && !AnyOp(ws[v])
    requires !Is(ws[v], "!") && !Is(ws[v], "~") && !Is(ws[v], "(") && !Is(ws[v], "{")
    ensures Agrees(W, ParseUnary(ws, v), ignore, noglob, log, r) && (r.Got? ==> r.value.Text?)
  {
    hide Is, IsInquiry, AnyOp;
    if |ws[v]| != 2 || v + 1 == |ws| || NoFile(W, ws[v + 1], log) {
      return Error;
    }
    if ignore {
      return Got(Text([]), v + 2, log);
    }
    var answer := FileTest(W, ws[v], ws[v + 1], log);
    r := if answer.None? then Error else Got(Text(Putn(Bool(answer.value))), v + 2, log);
  }

  /** Valued or ignored, an expression ends at the same place; and ignored, it forks nothing. */
  method BothWays(W: World, ws: Vec, v: nat, noglob: bool, log: Log, W': World, noglob': bool, log': Log)
    returns (valued: Outcome, ignored: Outcome)
    requires v <= |ws|
    ensures valued.Got? && ignored.Got? ==> valued.at == ignored.at && ignored.log == log'
    ensures valued.Got? ==> exists t ::
      Parse(ws, v, OR) == Some((t, valued.at)) && Meaning(W, t, noglob, log) == Done(valued.value, valued.log)
    ensures var read := Parse(ws, v, OR);
      valued.Got? <==> read.Some? && Meaning(W, read.value.0, noglob, log).Done? && Quiet(W, read.value.0, noglob, log)
  {
    hide Parse, Run, Meaning, Quiet;
    valued := Exp(W, ws, v, OR, false, noglob, log);
    ignored := Exp(W', ws, v, OR, true, noglob', log');
    if Parse(ws, v, OR).Some? {
      RunIsMeaning(W, Parse(ws, v, OR).value.0, noglob, log);
    }
    if ignored.Got? {
      IgnoredForksNothing(W', Parse(ws, v, OR).value.0, noglob', log');
    }
  }

  // A side that does not count

  const ONE: Word := ['1' as int]

  const BARS: Word := ['|' as int, '|' as int]

  const FOO: Word := ['f' as int, 'o' as int, 'o' as int]

  /** A word that `exp6` takes for itself. */
  predicate Plain(w: Word)
  {
    !Is(w, "!") && !Is(w, "~") && !Is(w, "(") && !Is(w, "{") && !AnyOp(w) && !IsInquiry(w)
  }

  /** No operator of this level or a higher one at `c`. */
  predicate NoOperator(ws: Vec, c: nat, level: Level)
    decreases 11 - level
  {
    level == UNARY || (Operator(ws, c, level) == 0 && NoOperator(ws, c, level + 1))
  }

  lemma {:induction false} PlainWord(ws: Vec, v: nat, level: Level)
    requires v < |ws| && Plain(ws[v]) && NoOperator(ws, v + 1, level)
    ensures Parse(ws, v, level) == Some((if level <= EQ then Number(Leaf(ws[v])) else Leaf(ws[v]), v + 1))
    decreases 11 - level
  {
    hide Operator, Is, AnyOp, IsInquiry;
    if level < UNARY {
      PlainWord(ws, v, level + 1);
    }
  }

  lemma {:induction false} NothingAt(ws: Vec, c: nat, level: Level)
    requires c >= |ws| || (ws[c] == BARS && level > OR)
    ensures NoOperator(ws, c, level)
    decreases 11 - level
  {
    if level < UNARY {
      NothingAt(ws, c, level + 1);
    }
  }

  /** `1 || foo` is read as a disjunction of two numbers. */
  lemma {:induction false} OneOrFoo()
    ensures Parse([ONE, BARS, FOO], 0, OR) == Some((Binary(OR, [BARS], Number(Leaf(ONE)), Number(Leaf(FOO))), 3))
  {
    var ws := [ONE, BARS, FOO];
    assert BARS[0] == '|' as int && |BARS| == 2;
    NothingAt(ws, 1, AND);
    NothingAt(ws, 3, OR);
    PlainWord(ws, 0, AND);
    PlainWord(ws, 2, OR);
    assert Operator(ws, 1, OR) == 1 && ws[1..2] == [BARS];
  }

  lemma {:induction false} OneIsNumber()
    ensures Egetn(ONE) == Some(1) && Egetn(FOO) == None
  {
    hide Numeral, Putn, Digits;
    PutnIsNumber(1);
    OneIsWritten();
    assert FOO[0] == 'f' as int;
  }

  lemma {:induction false} OneIsWritten()
    ensures Putn(1) == ONE
  {
    hide Wrap;
    assert Digits(1) == [] + [49];
  }

  /** The meaning of a disjunction settled by its left side, and what the evaluator makes of it when the right is no
      number. */
  lemma {:induction false} SettledByLeft(W: World, left: Word, right: Word, log: Log)
    requires W.glob(log, left) == Some(left) && Egetn(left).Some? && Egetn(left).value != 0
    requires W.glob(log, right) == Some(right) && Egetn(right) == None
    ensures var t := Binary(OR, [BARS], Number(Leaf(left)), Number(Leaf(right)));
      Meaning(W, t, false, log) == Done(Int(1), log) && Run(W, t, false, false, log) == Fail
  {
    hide Egetn;
    var l, r, n := Number(Leaf(left)), Number(Leaf(right)), Egetn(left).value;
    assert Meaning(W, Leaf(left), false, log) == Done(Text(left), log) == Run(W, Leaf(left), false, false, log);
    assert Meaning(W, l, false, log) == Done(Int(n), log) == Run(W, l, false, false, log);
    assert Truth(Int(n));
    ReadableIsRun(W, r, false, log);
  }

  /** `1 || foo` means 1 and is refused: a word that is no number is read even on a side that does not count. */
  method DeadSideIsRead(W: World, log: Log) returns (r: Outcome)
    requires W.glob(log, ONE) == Some(ONE) && W.glob(log, FOO) == Some(FOO)
    ensures r == Error
    ensures exists t :: Parse([ONE, BARS, FOO], 0, OR) == Some((t, 3)) && Meaning(W, t, false, log) == Done(Int(1), log)
  {
    hide Parse, Run, Meaning, Egetn;
    OneOrFoo();
    OneIsNumber();
    SettledByLeft(W, ONE, FOO, log);
    r := Exp(W, [ONE, BARS, FOO], 0, OR, false, false, log);
  }
}
