/** What the parser does not let through: redirections that a pipe or a subshell forbids. */
module Plumbing {
  import opened Words
  import opened Grammar

  /** Behind a pipe nothing is read from a file; before one nothing is written to a file, unless the pipe takes the
      diagnostics too, and then not the diagnostics; in a subshell there is no text from the script. */
  predicate Lawful(io: Io, c: Context)
  {
    && (c.pin ==> io.lef.None?) && (c.here ==> ReadHere !in io.flags)
    && (c.pout && !c.perr ==> io.rit.None?) && (c.pout || c.perr ==> Stderr !in io.flags)
  }

  /** A subshell that `&` may have made. */
  predicate Implied(t: Tree)
  {
    t.Paren? && t.io == Io(None, None, {Ampersand, NoInterrupt}) && (t.body.And? || t.body.Or? || t.body.List?)
  }

  predicate Plumbed(t: Tree, c: Context)
  {
    match t
    case Null => true
    case Command(_, io) => Lawful(io, c)
    case Paren(body, io) => Lawful(io, c) && Plumbed(body, if Implied(t) then c else SUBSHELL)
    case Pipe(car, cdr, flags) =>
      && Plumbed(car, c.(pout := true, perr := c.perr || Stderr in flags))
      && Plumbed(cdr, c.(pin := true))
    case _ => Plumbed(t.car, c) && Plumbed(t.cdr, c)
  }

  /** `d` allows all that `c` does. */
  predicate Looser(c: Context, d: Context)
  {
    (d.here ==> c.here) && (d.pin ==> c.pin) && c.pout == d.pout && c.perr == d.perr
  }

  lemma {:induction false} PlumbedLooser(t: Tree, c: Context, d: Context)
    requires Plumbed(t, c) && Looser(c, d)
    ensures Plumbed(t, d)
  {
    match t
    case Null =>
    case Command(_, _) =>
    case Paren(body, _) => if Implied(t) { PlumbedLooser(body, c, d); }
    case Pipe(car, cdr, flags) =>
      var perr := c.perr || Stderr in flags;
      PlumbedLooser(car, c.(pout := true, perr := perr), d.(pout := true, perr := perr));
      PlumbedLooser(cdr, c.(pin := true), d.(pin := true));
    case _ =>
      PlumbedLooser(t.car, c, d);
      PlumbedLooser(t.cdr, c, d);
  }

  lemma {:induction false} ClauseLawful(ws: Line, i: nat, j: nat, c: Context, special: bool, leaf: Leaf)
    requires i <= j <= |ws| && Clause(ws, i, j, c, special, leaf).Some? && Lawful(leaf.io, c)
    ensures Lawful(Clause(ws, i, j, c, special, leaf).value.io, c)
    decreases j - i
  {
    hide KindOf, Is, ItemEnd, Modifiers;
    if i < j {
      ClauseLawful(ws, ItemEnd(ws, i, j), j, c, special, Take(ws, i, j, c, special, leaf).value);
    }
  }

  // Phrase by phrase. At the level of lines nothing comes from a pipe or goes to one.

  lemma {:induction false} SimplePlumbed(ws: Line, i: nat, j: nat, c: Context, t: Tree)
    requires i <= j <= |ws| && IsSimple(ws, i, j, c, t)
    ensures Plumbed(t, c)
    decreases j - i, 0
  {
    hide KindOf, Is, Clause, IsLine;
    ClauseLawful(ws, i, j, c, Special(ws, i, j), Bare(ws, j));
    if t.Paren? {
      var (lp, rp) := Clause(ws, i, j, c, Special(ws, i, j), Bare(ws, j)).value.group.value;
      LinePlumbed(ws, lp, rp, SUBSHELL, t.body);
      if Implied(t) {
        NoAmpersand(ws, i, j, c, Special(ws, i, j), Bare(ws, j));
      }
    }
  }

  lemma {:induction false} NoAmpersand(ws: Line, i: nat, j: nat, c: Context, special: bool, leaf: Leaf)
    requires i <= j <= |ws| && Clause(ws, i, j, c, special, leaf).Some? && Ampersand !in leaf.io.flags
    ensures Ampersand !in Clause(ws, i, j, c, special, leaf).value.io.flags
    decreases j - i
  {
    hide KindOf, Is, ItemEnd, Modifiers;
    if i < j {
      NoAmpersand(ws, ItemEnd(ws, i, j), j, c, special, Take(ws, i, j, c, special, leaf).value);
    }
  }

  lemma {:induction false} PipelinePlumbed(ws: Line, i: nat, j: nat, c: Context, t: Tree)
    requires i <= j <= |ws| && IsPipeline(ws, i, j, c, t)
    ensures Plumbed(t, c)
    decreases j - i, 1
  {
    hide KindOf, Is, IsSimple;
    if IsSimple(ws, i, j, c, t) {
      SimplePlumbed(ws, i, j, c, t);
    } else {
      var k :| i < k < j && BarAt(ws, i, k, j, c, t);
      var both := k + 1 < j && Is(ws[k + 1], "&");
      SimplePlumbed(ws, i, k, c.(pout := true, perr := c.perr || both), t.car);
      PipelinePlumbed(ws, if both then k + 2 else k + 1, j, c.(pin := true), t.cdr);
    }
  }

  lemma {:induction false} InfixPlumbed(ws: Line, i: nat, j: nat, c: Context, op: Kind, t: Tree)
    requires i <= j <= |ws| && (op == OrOr || op == AndAnd) && IsInfix(ws, i, j, c, op, t)
    ensures Plumbed(t, c)
    decreases j - i, if op.OrOr? then 3 else 2, 1
  {
    hide KindOf, Is, IsOperand;
    if IsOperand(ws, i, j, c, op, t) {
      OperandPlumbed(ws, i, j, c, op, t);
    } else {
      var k :| i < k < j && InfixAt(ws, i, k, j, c, op, t);
      OperandPlumbed(ws, i, k, c, op, t.car);
      InfixPlumbed(ws, k + 1, j, c, op, t.cdr);
    }
  }

  lemma {:induction false} OperandPlumbed(ws: Line, i: nat, j: nat, c: Context, op: Kind, t: Tree)
    requires i <= j <= |ws| && (op == OrOr || op == AndAnd) && IsOperand(ws, i, j, c, op, t)
    ensures Plumbed(t, c)
    decreases j - i, if op.OrOr? then 3 else 2, 0
  {
    hide KindOf, Is, IsInfix, IsPipeline;
    if op.OrOr? {
      InfixPlumbed(ws, i, j, c, AndAnd, t);
    } else {
      PipelinePlumbed(ws, i, j, c, t);
    }
  }

  lemma {:induction false} SequencePlumbed(ws: Line, i: nat, j: nat, c: Context, t: Tree)
    requires i <= j <= |ws| && IsSequence(ws, i, j, c, t) && (c == TOP || c == SUBSHELL)
    ensures Plumbed(t, c)
    decreases j - i, 4
  {
    hide KindOf, Is, IsInfix, IsSentence;
    if IsInfix(ws, i, j, c, OrOr, t) {
      InfixPlumbed(ws, i, j, c, OrOr, t);
    } else {
      var k :| i < k < j && SemiAt(ws, i, k, j, c, t);
      InfixPlumbed(ws, i, k, c, OrOr, if t.car.Null? then t.cdr else t.car);
      if !t.car.Null? {
        SentencePlumbed(ws, k + 1, j, c, t.cdr);
      }
    }
  }

  lemma {:induction false} BackgroundPlumbed(t: Tree, c: Context)
    requires Plumbed(t, c) && (c == TOP || c == SUBSHELL)
    ensures Plumbed(Background(t), c)
  {
    if t.Paren? {
      var d := if Implied(t) then c else SUBSHELL;
      PlumbedLooser(t.body, d, c);
    }
  }

  lemma {:induction false} LinePlumbed(ws: Line, i: nat, j: nat, c: Context, t: Tree)
    requires i <= j <= |ws| && IsLine(ws, i, j, c, t) && (c == TOP || c == SUBSHELL)
    ensures Plumbed(t, c)
    decreases j - i, 5
  {
    hide KindOf, Is, IsSequence, IsSentence;
    if IsSequence(ws, i, j, c, t) {
      SequencePlumbed(ws, i, j, c, t);
    } else {
      var k, first :| i < k < j && AmpAt(ws, i, k, j, c, first, t);
      SequencePlumbed(ws, i, k, c, first);
      BackgroundPlumbed(first, c);
      SentencePlumbed(ws, k, j, c, t.cdr);
    }
  }

  /** No line is accepted with such a redirection in it. */
  lemma {:induction false} SentencePlumbed(ws: Line, i: nat, j: nat, c: Context, t: Tree)
    requires i <= j <= |ws| && IsSentence(ws, i, j, c, t) && (c == TOP || c == SUBSHELL)
    ensures Plumbed(t, c)
    decreases j - i, 6
  {
    hide KindOf, Is, IsLine;
    if i < j {
      if KindOf(ws[i]) in {Amp, AndAnd, Semi} {
        SentencePlumbed(ws, i + 1, j, c, t);
      } else {
        LinePlumbed(ws, i, j, c, t);
      }
    }
  }
}
