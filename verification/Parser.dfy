/** The command parser: a scan for the first separator of each precedence level, and a two-pass reader of simple
    commands. It is proved to accept exactly the lines of the grammar and to build the one tree each stands for. */
module Parser {
  import opened Words
  import opened Grammar
  import opened Clauses
  import Phrases
  import Plumbing
  import Spelling

  /** `syntax`. */
  method Syntax(ws: Line, p1: nat, p2: nat, c: Context, s0: Status) returns (t: Tree, s: Status)
    requires p1 <= p2 <= |ws|
    ensures s.Clean? ==> s0.Clean? && IsSentence(ws, p1, p2, c, t)
    ensures s0.Clean? ==> forall u :: IsSentence(ws, p1, p2, c, u) ==> s.Clean? && u == t
    ensures Nested(ws, p1, p2) && !s0.Lost? ==> !s.Lost?
    ensures Runaway(ws, p1, p2, c) ==> s.Lost?
    decreases p2 - p1, if p1 < p2 && KindOf(ws[p1]) in {Amp, AndAnd, Semi} then 0 else 8
  {
    hide IsLine, KindOf, Depth, Runaway;
    var p := p1;
    if p1 == p2 {
      Empty(ws, p1, c);
    } else if KindOf(ws[p1]) in {Amp, AndAnd, Semi} {
      assert Depth(ws, p1, p1) == 0 by {
        Start(ws, p1, {});
      }
      NotAlone(ws, p1, p1, p2, c);
    }
    while p != p2
      invariant p1 <= p <= p2 && forall u :: IsSentence(ws, p1, p2, c, u) <==> IsSentence(ws, p, p2, c, u)
      invariant Nested(ws, p1, p2) ==> Nested(ws, p, p2)
      invariant p1 < p ==> KindOf(ws[p1]) in {Amp, AndAnd, Semi}
      decreases p2 - p
    {
      if KindOf(ws[p]) in {Amp, AndAnd, Semi} {
        OneOn(ws, p, p2);
        p := p + 1;
      } else {
        t, s := Syn0(ws, p, p2, c, s0);
        return;
      }
    }
    t, s := Null, s0;
  }

  /** A separator in the open: not one command. */
  lemma {:induction false} Empty(ws: Line, p: nat, c: Context)
    requires p <= |ws|
    ensures !Runaway(ws, p, p, c)
  {
  }

  lemma {:induction false} NotAlone(ws: Line, p1: nat, p: nat, p2: nat, c: Context)
    requires p1 <= p < p2 <= |ws| && Depth(ws, p1, p) == 0 && KindOf(ws[p]) in SEPARATORS
    requires KindOf(ws[p]).Amp? ==> !Excused(ws, p1, p)
    ensures !Runaway(ws, p1, p2, c)
  {
    hide KindOf, Is, Depth, Bounds;
    ExcusedIsAmp(ws, p1, p);
  }

  lemma {:induction false} OneOn(ws: Line, p: nat, j: nat)
    requires p < j <= |ws| && Delta(ws[p]) == 0
    ensures Depth(ws, p, j) == Depth(ws, p + 1, j) && (Nested(ws, p, j) ==> Nested(ws, p + 1, j))
  {
    hide KindOf;
    assert Depth(ws, p, p + 1) == 0;
    NestedParts(ws, p, p + 1, j);
  }

  /** `syn0`. */
  method Syn0(ws: Line, p1: nat, p2: nat, c: Context, s0: Status) returns (t: Tree, s: Status)
    requires p1 <= p2 <= |ws|
    ensures s.Clean? ==> s0.Clean? && IsLine(ws, p1, p2, c, t)
    ensures s0.Clean? ==> forall u :: IsLine(ws, p1, p2, c, u) ==> s.Clean? && u == t
    ensures Nested(ws, p1, p2) && !s0.Lost? ==> !s.Lost?
    ensures Runaway(ws, p1, p2, c) ==> s.Lost?
    decreases p2 - p1, 7
  {
    hide KindOf, Is, IsLine, Depth, NoTop, Nested, Bounds, Special;
    Start(ws, p1, {Amp});
    var p, l := p1, 0;
    s := s0;
    while p != p2
      invariant p1 <= p <= p2 && l == Depth(ws, p1, p) && NoTop(ws, p1, p, {Amp})
      invariant p < p2 ==> !Excused(ws, p1, p)
      invariant s.Clean? <==> s0.Clean? && Nested(ws, p1, p)
      invariant s.Lost? <==> s0.Lost?
      decreases p2 - p
    {
      Step(ws, p1, p, {Amp});
      StepNested(ws, p1, p);
      match KindOf(ws[p]) {
        case Open => l := l + 1;
        case Close =>
          l := l - 1;
          if l < 0 {
            s := Raise(s, TooManyRp);
          }
        case Bar | Greater =>
          if p + 1 != p2 && Is(ws[p + 1], "&") {
            FixedWords(ws[p + 1]);
            Step(ws, p1, p + 1, {Amp});
            StepNested(ws, p1, p + 1);
            p := p + 1;
          }
        case Amp =>
          if l == 0 {
            NotAlone(ws, p1, p, p2, c);
            t, s := Ampersand(ws, p1, p, p2, c, s, s0);
            return;
          }
        case _ =>
      }
      p := p + 1;
    }
    if l == 0 {
      t, s := Syn1(ws, p1, p2, c, s);
      forall u | IsLine(ws, p1, p2, c, u)
        ensures IsSequence(ws, p1, p2, c, u) && Nested(ws, p1, p2)
      {
        LineUncut(ws, p1, p2, c, u);
        LineTidy(ws, p1, p2, c, u);
      }
      SequenceIsLine(ws, p1, p2, c, t);
    } else {
      t, s := Null, Raise(s, TooManyLp);
      forall u | IsLine(ws, p1, p2, c, u)
        ensures false
      {
        LineTidy(ws, p1, p2, c, u);
      }
    }
  }

  lemma {:induction false} SequenceIsLine(ws: Line, i: nat, j: nat, c: Context, t: Tree)
    requires i <= j <= |ws|
    ensures IsSequence(ws, i, j, c, t) ==> IsLine(ws, i, j, c, t)
  {
  }

  /** The ampersand branch of `syn0`. */
  method Ampersand(ws: Line, p1: nat, p: nat, p2: nat, c: Context, s1: Status, ghost s0: Status)
    returns (t: Tree, s: Status)
    requires p1 <= p < p2 <= |ws| && KindOf(ws[p]).Amp? && Depth(ws, p1, p) == 0
    requires NoTop(ws, p1, p, {Amp}) && !Excused(ws, p1, p)
    requires (s1.Clean? <==> s0.Clean? && Nested(ws, p1, p)) && (s1.Lost? <==> s0.Lost?)
    ensures s.Clean? ==> s0.Clean? && IsLine(ws, p1, p2, c, t)
    ensures s0.Clean? ==> forall u :: IsLine(ws, p1, p2, c, u) ==> s.Clean? && u == t
    ensures Nested(ws, p1, p2) && !s0.Lost? ==> !s.Lost?
    decreases p2 - p1, 6
  {
    hide KindOf, Is, Depth, IsSequence, IsSentence, NoTop;
    NestedParts(ws, p1, p, p2);
    var first, rest;
    first, s := Syn1(ws, p1, p, c, s1);
    rest, s := Syntax(ws, p, p2, c, s);
    t := List(Background(first), rest);
    if s.Clean? {
      SequenceTidy(ws, p1, p, c, first);
      assert AmpAt(ws, p1, p, p2, c, first, t);
    }
    forall u | IsLine(ws, p1, p2, c, u) && s0.Clean?
      ensures s.Clean? && u == t
    {
      var one := LineCut(ws, p1, p2, c, u, p);
      LineTidy(ws, p1, p2, c, u);
    }
  }

  /** `syn1`. */
  method Syn1(ws: Line, p1: nat, p2: nat, c: Context, s0: Status) returns (t: Tree, s: Status)
    requires p1 <= p2 <= |ws| && Depth(ws, p1, p2) == 0 && NoTop(ws, p1, p2, {Amp})
    requires s0.Clean? ==> Nested(ws, p1, p2)
    ensures t != Null
    ensures s.Clean? ==> s0.Clean? && IsSequence(ws, p1, p2, c, t)
    ensures s0.Clean? ==> forall u :: IsSequence(ws, p1, p2, c, u) ==> s.Clean? && u == t
    ensures Nested(ws, p1, p2) && !s0.Lost? ==> !s.Lost?
    ensures Runaway(ws, p1, p2, c) ==> s.Lost?
    decreases p2 - p1, 5
  {
    hide KindOf, Is, IsSequence, Depth, NoTop, Nested, Runaway;
    Start(ws, p1, {Semi});
    var p, l := p1, 0;
    while p != p2
      invariant p1 <= p <= p2 && l == Depth(ws, p1, p) && NoTop(ws, p1, p, {Semi})
      decreases p2 - p
    {
      Step(ws, p1, p, {Semi});
      match KindOf(ws[p]) {
        case Open => l := l + 1;
        case Close => l := l - 1;
        case Semi =>
          if l == 0 {
            NotAlone(ws, p1, p, p2, c);
            t, s := Semicolon(ws, p1, p, p2, c, s0);
            return;
          }
        case _ =>
      }
      p := p + 1;
    }
    NoTopUnion(ws, p1, p2, {Amp}, {Semi});
    assert {Amp} + {Semi} == Barred(OrOr);
    t, s := SynInfix(ws, p1, p2, c, OrOr, s0);
    forall u | IsSequence(ws, p1, p2, c, u)
      ensures IsInfix(ws, p1, p2, c, OrOr, u)
    {
      SequenceUncut(ws, p1, p2, c, u);
    }
    InfixIsSequence(ws, p1, p2, c, t);
  }

  lemma {:induction false} InfixIsSequence(ws: Line, i: nat, j: nat, c: Context, t: Tree)
    requires i <= j <= |ws|
    ensures IsInfix(ws, i, j, c, OrOr, t) ==> IsSequence(ws, i, j, c, t)
  {
  }

  /** The semicolon branch of `syn1`. */
  method Semicolon(ws: Line, p1: nat, p: nat, p2: nat, c: Context, s0: Status) returns (t: Tree, s: Status)
    requires p1 <= p < p2 <= |ws| && KindOf(ws[p]).Semi? && Depth(ws, p1, p) == 0 == Depth(ws, p1, p2)
    requires NoTop(ws, p1, p2, {Amp}) && NoTop(ws, p1, p, {Semi}) && (s0.Clean? ==> Nested(ws, p1, p2))
    ensures t != Null
    ensures s.Clean? ==> s0.Clean? && IsSequence(ws, p1, p2, c, t)
    ensures s0.Clean? ==> forall u :: IsSequence(ws, p1, p2, c, u) ==> s.Clean? && u == t
    ensures Nested(ws, p1, p2) && !s0.Lost? ==> !s.Lost?
    decreases p2 - p1, 4
  {
    hide KindOf, Is, Depth, IsInfix, IsSentence;
    Halves(ws, p1, p, p2, {Amp});
    var car, cdr;
    car, s := SynInfix(ws, p1, p, c, OrOr, s0);
    cdr, s := Syntax(ws, p + 1, p2, c, s);
    t := List(car, cdr);
    if cdr == Null {
      t := List(Null, car);
    }
    if s.Clean? {
      InfixTidy(ws, p1, p, c, OrOr, car);
      assert SemiAt(ws, p1, p, p2, c, t);
    }
    forall u | IsSequence(ws, p1, p2, c, u) && s0.Clean?
      ensures s.Clean? && u == t
    {
      SequenceCut(ws, p1, p2, c, u, p);
    }
  }

  /** Both sides of a separator at `p`. */
  lemma {:induction false} Halves(ws: Line, p1: nat, p: nat, p2: nat, ks: set<Kind>)
    requires p1 <= p < p2 <= |ws| && Depth(ws, p1, p) == 0 == Depth(ws, p1, p2) && NoTop(ws, p1, p2, ks)
    requires !KindOf(ws[p]).Greater? && !KindOf(ws[p]).Bar? && Delta(ws[p]) == 0
    ensures NoTop(ws, p1, p, ks) && NoTop(ws, p + 1, p2, ks) && Depth(ws, p + 1, p2) == 0
    ensures Nested(ws, p1, p2) ==> Nested(ws, p1, p) && Nested(ws, p + 1, p2)
  {
    hide KindOf, Is, Depth, Nested, NoTop;
    Step(ws, p1, p, ks);
    NestedParts(ws, p1, p, p2);
    NestedParts(ws, p1, p + 1, p2);
    NoTopParts(ws, p1, p, p2, ks);
    NoTopParts(ws, p1, p + 1, p2, ks);
  }

  /** `syn1a` for `||` and `syn1b` for `&&`. */
  method SynInfix(ws: Line, p1: nat, p2: nat, c: Context, op: Kind, s0: Status) returns (t: Tree, s: Status)
    requires p1 <= p2 <= |ws| && Depth(ws, p1, p2) == 0 && (op == OrOr || op == AndAnd)
    requires NoTop(ws, p1, p2, Barred(op)) && (s0.Clean? ==> Nested(ws, p1, p2))
    ensures t != Null
    ensures s.Clean? ==> s0.Clean? && IsInfix(ws, p1, p2, c, op, t)
    ensures s0.Clean? ==> forall u :: IsInfix(ws, p1, p2, c, op, u) ==> s.Clean? && u == t
    ensures Nested(ws, p1, p2) && !s0.Lost? ==> !s.Lost?
    ensures Runaway(ws, p1, p2, c) ==> s.Lost?
    decreases p2 - p1, if op.OrOr? then 4 else 2, 2
  {
    hide KindOf, Is, IsInfix, IsOperand, Depth, NoTop, Nested, Barred, Runaway;
    Start(ws, p1, {op});
    var p, l := p1, 0;
    while p != p2
      invariant p1 <= p <= p2 && l == Depth(ws, p1, p) && NoTop(ws, p1, p, {op})
      decreases p2 - p
    {
      Step(ws, p1, p, {op});
      var k := KindOf(ws[p]);
      if k.Open? {
        l := l + 1;
      } else if k.Close? {
        l := l - 1;
      } else if k == op && l == 0 {
        NotAlone(ws, p1, p, p2, c);
        t, s := Operator(ws, p1, p, p2, c, op, s0);
        return;
      }
      p := p + 1;
    }
    NoTopUnion(ws, p1, p2, Barred(op), {op});
    t, s := Operand(ws, p1, p2, c, op, s0);
    forall u | IsInfix(ws, p1, p2, c, op, u)
      ensures IsOperand(ws, p1, p2, c, op, u)
    {
      InfixUncut(ws, p1, p2, c, op, u);
    }
    OperandIsInfix(ws, p1, p2, c, op, t);
  }

  lemma {:induction false} OperandIsInfix(ws: Line, i: nat, j: nat, c: Context, op: Kind, t: Tree)
    requires i <= j <= |ws| && (op == OrOr || op == AndAnd)
    ensures IsOperand(ws, i, j, c, op, t) ==> IsInfix(ws, i, j, c, op, t)
  {
  }

  method Operand(ws: Line, p1: nat, p2: nat, c: Context, op: Kind, s0: Status) returns (t: Tree, s: Status)
    requires p1 <= p2 <= |ws| && Depth(ws, p1, p2) == 0 && (op == OrOr || op == AndAnd)
    requires NoTop(ws, p1, p2, Barred(op) + {op}) && (s0.Clean? ==> Nested(ws, p1, p2))
    ensures t != Null
    ensures s.Clean? ==> s0.Clean? && IsOperand(ws, p1, p2, c, op, t)
    ensures s0.Clean? ==> forall u :: IsOperand(ws, p1, p2, c, op, u) ==> s.Clean? && u == t
    ensures Nested(ws, p1, p2) && !s0.Lost? ==> !s.Lost?
    ensures Runaway(ws, p1, p2, c) ==> s.Lost?
    decreases p2 - p1, if op.OrOr? then 4 else 2, 0
  {
    hide KindOf, Is, Depth, IsInfix, IsPipeline, Runaway;
    if op.OrOr? {
      t, s := SynInfix(ws, p1, p2, c, AndAnd, s0);
    } else {
      t, s := Syn2(ws, p1, p2, c, s0);
    }
  }

  /** The operator branch of `syn1a` and `syn1b`. */
  method Operator(ws: Line, p1: nat, p: nat, p2: nat, c: Context, op: Kind, s0: Status) returns (t: Tree, s: Status)
    requires p1 <= p < p2 <= |ws| && (op == OrOr || op == AndAnd)
    requires KindOf(ws[p]) == op && Depth(ws, p1, p) == 0 == Depth(ws, p1, p2)
    requires NoTop(ws, p1, p2, Barred(op)) && NoTop(ws, p1, p, {op}) && (s0.Clean? ==> Nested(ws, p1, p2))
    ensures t != Null
    ensures s.Clean? ==> s0.Clean? && IsInfix(ws, p1, p2, c, op, t)
    ensures s0.Clean? ==> forall u :: IsInfix(ws, p1, p2, c, op, u) ==> s.Clean? && u == t
    ensures Nested(ws, p1, p2) && !s0.Lost? ==> !s.Lost?
    decreases p2 - p1, if op.OrOr? then 4 else 2, 1
  {
    hide KindOf, Is, Depth, IsOperand;
    Halves(ws, p1, p, p2, Barred(op));
    var car, cdr;
    car, s := Operand(ws, p1, p, c, op, s0);
    cdr, s := SynInfix(ws, p + 1, p2, c, op, s);
    t := if op.OrOr? then Or(car, cdr) else And(car, cdr);
    if s.Clean? {
      OperandTidy(ws, p1, p, c, op, car);
      assert InfixAt(ws, p1, p, p2, c, op, t);
    }
    forall u | IsInfix(ws, p1, p2, c, op, u) && s0.Clean?
      ensures s.Clean? && u == t
    {
      InfixCut(ws, p1, p2, c, op, u, p);
    }
  }

  /** `syn2`. */
  method Syn2(ws: Line, p1: nat, p2: nat, c: Context, s0: Status) returns (t: Tree, s: Status)
    requires p1 <= p2 <= |ws| && Depth(ws, p1, p2) == 0
    requires NoTop(ws, p1, p2, SEPARATORS - {Bar}) && (s0.Clean? ==> Nested(ws, p1, p2))
    ensures t != Null
    ensures s.Clean? ==> s0.Clean? && IsPipeline(ws, p1, p2, c, t)
    ensures s0.Clean? ==> forall u :: IsPipeline(ws, p1, p2, c, u) ==> s.Clean? && u == t
    ensures Nested(ws, p1, p2) && !s0.Lost? ==> !s.Lost?
    ensures Runaway(ws, p1, p2, c) ==> s.Lost?
    decreases p2 - p1, 1
  {
    hide KindOf, Is, IsPipeline, IsSimple, Depth, NoTop, Nested, Runaway;
    Start(ws, p1, {Bar});
    var p, l := p1, 0;
    while p != p2
      invariant p1 <= p <= p2 && l == Depth(ws, p1, p) && NoTop(ws, p1, p, {Bar})
      decreases p2 - p
    {
      Step(ws, p1, p, {Bar});
      var k := KindOf(ws[p]);
      if k.Open? {
        l := l + 1;
      } else if k.Close? {
        l := l - 1;
      } else if (k.Bar? || k.OrOr?) && l == 0 {
        BarOnly(ws, p1, p, p2);
        NotAlone(ws, p1, p, p2, c);
        t, s := PipeAt(ws, p1, p, p2, c, s0);
        return;
      }
      p := p + 1;
    }
    NoTopUnion(ws, p1, p2, SEPARATORS - {Bar}, {Bar});
    assert SEPARATORS - {Bar} + {Bar} == SEPARATORS;
    t, s := Syn3(ws, p1, p2, c, s0);
    forall u | IsPipeline(ws, p1, p2, c, u)
      ensures IsSimple(ws, p1, p2, c, u)
    {
      PipelineUncut(ws, p1, p2, c, u);
    }
    SimpleIsPipeline(ws, p1, p2, c, t);
  }

  /** No `||` is left in the open at this level. */
  lemma {:induction false} BarOnly(ws: Line, i: nat, p: nat, j: nat)
    requires i <= p < j <= |ws| && NoTop(ws, i, j, SEPARATORS - {Bar}) && Depth(ws, i, p) == 0
    ensures !KindOf(ws[p]).OrOr?
  {
    ExcusedIsAmp(ws, i, p);
  }

  lemma {:induction false} SimpleIsPipeline(ws: Line, i: nat, j: nat, c: Context, t: Tree)
    requires i <= j <= |ws|
    ensures IsSimple(ws, i, j, c, t) ==> IsPipeline(ws, i, j, c, t)
  {
  }

  lemma {:induction false} NoTopAt(ws: Line, i: nat, j: nat, ks: set<Kind>, p: nat)
    requires i <= p < j <= |ws| && NoTop(ws, i, j, ks) && Depth(ws, i, p) == 0
    ensures KindOf(ws[p]) in ks ==> Excused(ws, i, p)
  {
    hide KindOf, Is, Depth;
  }

  /** Both sides of a pipe at `p`; the `&` after it, if there is one, is exactly the word `&`. */
  lemma {:induction false} PipeHalves(ws: Line, p1: nat, p: nat, p2: nat)
    requires p1 <= p < p2 <= |ws| && Depth(ws, p1, p) == 0 == Depth(ws, p1, p2) && KindOf(ws[p]).Bar?
    requires NoTop(ws, p1, p2, SEPARATORS - {Bar})
    ensures p + 1 < p2 ==> (KindOf(ws[p + 1]) in {Amp, AndAnd} <==> Is(ws[p + 1], "&"))
    ensures var q := if p + 1 < p2 && Is(ws[p + 1], "&") then p + 2 else p + 1;
      && NoTop(ws, p1, p, SEPARATORS - {Bar}) && NoTop(ws, q, p2, SEPARATORS - {Bar}) && Depth(ws, q, p2) == 0
      && (Nested(ws, p1, p2) ==> Nested(ws, p1, p) && Nested(ws, q, p2))
  {
    hide KindOf, Is, Depth, Nested, NoTop;
    var ks := SEPARATORS - {Bar};
    Step(ws, p1, p, ks);
    NestedParts(ws, p1, p, p2);
    NoTopParts(ws, p1, p, p2, ks);
    if p + 1 < p2 {
      FixedWords(ws[p + 1]);
      ExcusedIsAmp(ws, p1, p + 1);
      NoTopAt(ws, p1, p2, ks, p + 1);
      Step(ws, p1, p + 1, ks);
    }
    var q := if p + 1 < p2 && Is(ws[p + 1], "&") then p + 2 else p + 1;
    NestedParts(ws, p1, q, p2);
    NoTopParts(ws, p1, q, p2, ks);
  }

  /** The pipe branch of `syn2`. */
  method PipeAt(ws: Line, p1: nat, p: nat, p2: nat, c: Context, s0: Status) returns (t: Tree, s: Status)
    requires p1 <= p < p2 <= |ws| && KindOf(ws[p]).Bar? && Depth(ws, p1, p) == 0 == Depth(ws, p1, p2)
    requires NoTop(ws, p1, p2, SEPARATORS - {Bar}) && NoTop(ws, p1, p, {Bar}) && (s0.Clean? ==> Nested(ws, p1, p2))
    ensures t != Null
    ensures s.Clean? ==> s0.Clean? && IsPipeline(ws, p1, p2, c, t)
    ensures s0.Clean? ==> forall u :: IsPipeline(ws, p1, p2, c, u) ==> s.Clean? && u == t
    ensures Nested(ws, p1, p2) && !s0.Lost? ==> !s.Lost?
    decreases p2 - p1, 0
  {
    hide KindOf, Is, Depth, IsSimple;
    PipeHalves(ws, p1, p, p2);
    var f := c.(pout := true);
    var flags := {};
    var pn := p + 1;
    if pn != p2 && KindOf(ws[pn]) in {Amp, AndAnd} {
      f := f.(perr := true);
      flags := {Stderr};
    }
    var car, cdr;
    car, s := Syn3(ws, p1, p, f, s0);
    var q := p;
    if pn != p2 && KindOf(ws[pn]) in {Amp, AndAnd} {
      q := pn;
    }
    cdr, s := Syn2(ws, q + 1, p2, c.(pin := true), s);
    t := Pipe(car, cdr, flags);
    if s.Clean? {
      SimpleTidy(ws, p1, p, f, car);
      assert BarAt(ws, p1, p, p2, c, t);
    }
    forall u | IsPipeline(ws, p1, p2, c, u) && s0.Clean?
      ensures s.Clean? && u == t
    {
      PipelineCut(ws, p1, p2, c, u, p);
    }
  }

  /** What the group of a subshell has to satisfy. */
  lemma {:induction false} GroupBounds(ws: Line, p1: nat, p2: nat, lp: Option<nat>, rp: Option<nat>)
    requires p1 <= p2 <= |ws| && Depth(ws, p1, p2) == 0 && (exists l :: Marked(ws, p1, p2, p2, l, lp, rp)) && lp.Some?
    ensures p1 <= lp.value && (rp.Some? ==> rp.value < p2)
    ensures Nested(ws, p1, p2) ==> rp.Some? && lp.value <= rp.value && Nested(ws, lp.value, rp.value)
  {
    hide Depth, Nested;
  }

  /** `syn3`. */
  method Syn3(ws: Line, p1: nat, p2: nat, c: Context, s0: Status) returns (t: Tree, s: Status)
    requires p1 <= p2 <= |ws| && Depth(ws, p1, p2) == 0
    requires NoTop(ws, p1, p2, SEPARATORS) && (s0.Clean? ==> Nested(ws, p1, p2))
    ensures t != Null
    ensures s.Clean? ==> s0.Clean? && IsSimple(ws, p1, p2, c, t)
    ensures s0.Clean? ==> forall u :: IsSimple(ws, p1, p2, c, u) ==> s.Clean? && u == t
    ensures Nested(ws, p1, p2) && !s0.Lost? ==> !s.Lost?
    ensures Runaway(ws, p1, p2, c) ==> s.Lost?
    decreases p2 - p1, 0
  {
    hide KindOf, Is, Depth, Nested, NoTop, Marked, Count, Clause, IsLine, Bounds;
    var special := CheckSpecial(ws, p1, p2);
    var size := CountWords(ws, p1, p2, special);
    var av := new Option<Word>[size + 1](_ => None);
    var n, io, lp, rp;
    ghost var words;
    n, io, lp, rp, s, words := Fill(ws, p1, p2, c, special, av, s0);
    if lp.Some? && !special {
      if n != 0 {
        s := Raise(s, BadPlps);
      }
      GroupBounds(ws, p1, p2, lp, rp);
      var body := Null;
      if rp.None? || rp.value < lp.value {
        s := Lost;
      } else {
        body, s := Syn0(ws, lp.value, rp.value, SUBSHELL, s);
      }
      t := Paren(body, io);
    } else {
      if n == 0 {
        s := Raise(s, NullCom);
      }
      if s.Clean? {
        EntriesOf(av[..], words);
      }
      t := Command(Entries(av[..]), io);
    }
  }

  /** A whole line, as the main loop parses it: accepted exactly if it is a sentence of the grammar, and then as the
      only tree it stands for, nested by precedence, with every ordinary word in its place, and written out as it is
      read. */
  method Parse(ws: Line) returns (t: Tree, s: Status)
    ensures s.Clean? <==> exists u :: IsSentence(ws, 0, |ws|, TOP, u)
    ensures s.Clean? ==> forall u :: IsSentence(ws, 0, |ws|, TOP, u) <==> u == t
    ensures s.Clean? ==> Phrases.Ordered(t) && Phrases.Arguments(t) == Phrases.Ordinary(ws, 0, |ws|, Phrases.Fresh)
    ensures s.Clean? ==> Spelling.Written(t) == Spelling.Whole(ws) && Plumbing.Plumbed(t, TOP)
    ensures Nested(ws, 0, |ws|) ==> !s.Lost?
    ensures Runaway(ws, 0, |ws|, TOP) ==> s.Lost?
  {
    hide IsSentence, Nested, Phrases.Ordinary, Phrases.ModeAt, Runaway, Spelling.Written, Spelling.Whole;
    t, s := Syntax(ws, 0, |ws|, TOP, Clean);
    if s.Clean? {
      Phrases.SentenceOrdered(ws, 0, |ws|, TOP, t);
      Phrases.SentenceWords(ws, 0, |ws|, TOP, t);
      Spelling.LineWritten(ws, t);
      Plumbing.SentencePlumbed(ws, 0, |ws|, TOP, t);
    }
  }

  const OUT: Word := ['>' as int]

  const LEFT: Word := ['(' as int]

  const RIGHT: Word := [')' as int]

  /** The line `> ) (`: the redirection takes the `)` for its file name, and the subshell is left without an end. */
  method LostLine() returns (t: Tree, s: Status)
    ensures s.Lost?
  {
    hide Runaway, IsSentence;
    LostWords();
    t, s := Parse([OUT, RIGHT, LEFT]);
  }

  lemma {:induction false} LostWords()
    ensures Runaway([OUT, RIGHT, LEFT], 0, 3, TOP)
  {
    var ws := [OUT, RIGHT, LEFT];
    assert KindOf(OUT).Greater? && KindOf(RIGHT).Close? && KindOf(LEFT).Open?;
    assert !Is(RIGHT, "&") && !Is(RIGHT, "!") by {
      assert RIGHT[0] == ')' as int;
    }
    assert !Special(ws, 0, 3) by {
      FixedWords(OUT);
    }
    hide KindOf, Is, Special;
    assert Depth(ws, 0, 0) == 0 && Depth(ws, 0, 1) == 0 && Depth(ws, 0, 2) == -1 && Depth(ws, 0, 3) == 0;
    assert AfterRedirect(ws, 0, 3, TOP) == 2;
    assert Bounds(ws, 3, 3, TOP, 1, Some(3), None) == (Some(3), None);
    assert Bounds(ws, 2, 3, TOP, 0, None, None) == (Some(3), None);
  }
}
