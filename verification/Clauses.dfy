/** The two passes of `syn3` over a simple command: one to size the argument vector, one to fill it. */
module Clauses {
  import opened Words
  import opened Grammar

  datatype Error = TooManyRp | TooManyLp | BadPlp | BadPlps | OutRed | MisRed | RedPar | InRed | NullCom

  /** `seterr`: clean, or the first error; lost once `syn0` has been handed an end that is null or behind its start. */
  datatype Status = Clean | Failed(error: Error) | Lost

  /** `seterror`: only the first error is kept. */
  function Raise(s: Status, e: Error): Status
  {
    if s.Clean? then Failed(e) else s
  }

  method CheckSpecial(ws: Line, p1: nat, p2: nat) returns (special: bool)
    requires p1 <= p2 <= |ws|
    ensures special == Special(ws, p1, p2)
  {
    hide Is, Keyword;
    special := false;
    var p := p1;
    while p != p2
      invariant p1 <= p <= p2 && !special && Special(ws, p1, p2) == Special(ws, p, p2)
      decreases p2 - p
    {
      if Keyword(ws[p]) {
        special := true;
        return;
      } else if !Is(ws[p], "else") {
        return;
      }
      p := p + 1;
    }
  }

  // The first pass

  predicate Relational(w: Word)
  {
    KindOf(w) in {Less, Greater, Open, Close}
  }

  /** What one word adds to the count, at parenthesis depth `l`. */
  function Weight(ws: Line, p: nat, j: nat, l: int, special: bool): int
    requires p < j <= |ws|
  {
    match KindOf(ws[p])
    case Open => if special then 1 else 0
    case Close => if special then 1 else 0
    case Less => if l != 0 then (if special then 1 else 0) else if p + 1 == j || Relational(ws[p + 1]) then 0 else -1
    case Greater => if l != 0 then (if special then 1 else 0) else if p + 1 == j || Relational(ws[p + 1]) then 0 else -1
    case _ => if !special && l != 0 then 0 else 1
  }

  function Count(ws: Line, p: nat, j: nat, l: int, special: bool): int
    requires p <= j <= |ws|
    decreases j - p
  {
    if p == j then 0 else Weight(ws, p, j, l, special) + Count(ws, p + 1, j, l + Delta(ws[p]), special)
  }

  lemma {:induction false} CountNotNegative(ws: Line, p: nat, j: nat, l: int, special: bool)
    requires p <= j <= |ws|
    ensures Count(ws, p, j, l, special) >= 0
    decreases j - p
  {
    hide KindOf;
    if p < j {
      CountNotNegative(ws, p + 1, j, l + Delta(ws[p]), special);
      if Weight(ws, p, j, l, special) < 0 {
        CountNotNegative(ws, p + 2, j, l, special);
      }
    }
  }

  method CountWords(ws: Line, p1: nat, p2: nat, special: bool) returns (n: nat)
    requires p1 <= p2 <= |ws|
    ensures n == Count(ws, p1, p2, 0, special)
  {
    hide KindOf;
    var m, l, p := 0, 0, p1;
    while p != p2
      invariant p1 <= p <= p2 && m + Count(ws, p, p2, l, special) == Count(ws, p1, p2, 0, special)
      decreases p2 - p
    {
      match KindOf(ws[p]) {
        case Open =>
          if special {
            m := m + 1;
          }
          l := l + 1;
        case Close =>
          if special {
            m := m + 1;
          }
          l := l - 1;
        case Less | Greater =>
          if l != 0 {
            if special {
              m := m + 1;
            }
          } else if p + 1 != p2 && !Relational(ws[p + 1]) {
            m := m - 1;
          }
        case _ =>
          if special || l == 0 {
            m := m + 1;
          }
      }
      p := p + 1;
    }
    CountNotNegative(ws, p1, p2, 0, special);
    if m < 0 {
      m := 0;
    }
    n := m;
  }

  /** A redirection counts for nothing, or for more than the nothing it writes. */
  lemma {:induction false} CountRedirection(ws: Line, p: nat, j: nat, special: bool)
    requires p < j <= |ws| && (KindOf(ws[p]).Less? || KindOf(ws[p]).Greater?) && p < ItemEnd(ws, p, j)
    ensures Count(ws, p, j, 0, special) >= Count(ws, ItemEnd(ws, p, j), j, 0, special)
  {
    hide KindOf, Is;
    var k := ItemEnd(ws, p, j);
    FixedWords(ws[p + 1]);
    if p + 2 < k {
      FixedWords(ws[p + 2]);
      assert Count(ws, p + 2, j, 0, special) == Weight(ws, p + 2, j, 0, special) + Count(ws, p + 3, j, 0, special);
    }
  }

  // The second pass

  /** Where the second pass goes on after the redirection at `p`, whether or not there was an error in it. */
  function AfterRedirect(ws: Line, p: nat, p2: nat, c: Context): (q: nat)
    requires p < p2 <= |ws|
    ensures p < q <= p2
  {
    if KindOf(ws[p]).Less? then if p + 1 == p2 then p + 1 else p + 2
    else
      var a := if p + 1 < p2 && Is(ws[p + 1], "&") then 1 else 0;
      if a == 1 && (c.pout || c.perr) then p + 2
      else
        var m := p + a + if p + a + 1 < p2 && Is(ws[p + a + 1], "!") then 1 else 0;
        if m + 1 == p2 then p2 else m + 2
  }

  /** `l` after the word at `p`, and the marks that go with it. */
  function NextLp(ws: Line, p: nat, l: int, lp: Option<nat>): Option<nat>
    requires p < |ws|
  {
    if KindOf(ws[p]).Open? && l == 0 then Some(p + 1) else lp
  }

  function NextRp(ws: Line, p: nat, l: int, rp: Option<nat>): Option<nat>
    requires p < |ws|
  {
    if KindOf(ws[p]).Close? && l == 1 then Some(p) else rp
  }

  /** The bounds of the subshell that the second pass ends up with, from `p` on. */
  function Bounds(ws: Line, p: nat, p2: nat, c: Context, l: int, lp: Option<nat>, rp: Option<nat>)
    : (Option<nat>, Option<nat>)
    requires p <= p2 <= |ws|
    decreases p2 - p
  {
    if p == p2 then (lp, rp)
    else if l == 0 && KindOf(ws[p]) in {Less, Greater} then Bounds(ws, AfterRedirect(ws, p, p2, c), p2, c, 0, lp, rp)
    else Bounds(ws, p + 1, p2, c, l + Delta(ws[p]), NextLp(ws, p, l, lp), NextRp(ws, p, l, rp))
  }

  /** One command, and its subshell has no end, or ends before it starts. */
  ghost predicate Runaway(ws: Line, p1: nat, p2: nat, c: Context)
    requires p1 <= p2 <= |ws|
  {
    && Depth(ws, p1, p2) == 0 && NoTop(ws, p1, p2, SEPARATORS) && !Special(ws, p1, p2)
    && var (lp, rp) := Bounds(ws, p1, p2, c, 0, None, None);
    lp.Some? && (rp.None? || rp.value < lp.value)
  }

  /** The `>` case: operator, modifiers and file name. */
  method Output(ws: Line, p0: nat, p2: nat, c: Context, io0: Io, s0: Status, ghost special: bool, ghost leaf: Leaf)
    returns (q: nat, io: Io, s: Status)
    requires p0 < p2 <= |ws| && KindOf(ws[p0]).Greater?
    requires s0.Clean? ==> NoTop(ws, p0, p2, SEPARATORS) && leaf.io == io0
    ensures q == AfterRedirect(ws, p0, p2, c) && (s.Lost? <==> s0.Lost?)
    ensures s.Clean? ==>
      s0.Clean? && ItemEnd(ws, p0, p2) == q && Take(ws, p0, p2, c, special, leaf) == Some(leaf.(io := io))
    ensures s0.Clean? && !s.Clean? ==> ItemEnd(ws, p0, p2) == p0 || Take(ws, p0, p2, c, special, leaf).None?
  {
    hide KindOf, Is, Depth, NoTop;
    var p := p0;
    io, s := io0, s0;
    if At(ws[p], 1) == '>' as int {
      io := io.(flags := io.flags + {Append});
    }
    if s0.Clean? {
      NameKind(ws, p0, p2);
    }
    if p + 1 != p2 && Is(ws[p + 1], "&") {
      io := io.(flags := io.flags + {Stderr});
      p := p + 1;
      if c.pout || c.perr {
        s := Raise(s, OutRed);
        q := p + 1;
        return;
      }
    }
    if p + 1 != p2 && Is(ws[p + 1], "!") {
      io := io.(flags := io.flags + {Overwrite});
      p := p + 1;
    }
    if p + 1 == p2 {
      s := Raise(s, MisRed);
      q := p + 1;
      return;
    }
    p := p + 1;
    q := p + 1;
    if Relational(ws[p]) {
      s := Raise(s, MisRed);
    } else if c.pout && (!c.perr || io.rit.Some?) {
      s := Raise(s, OutRed);
    } else {
      io := io.(rit := Some(ws[p]));
    }
  }

  /** Where a file name is expected, a word of a simple command is a parenthesis, a redirection or an ordinary word. */
  lemma {:induction false} NameKind(ws: Line, p: nat, j: nat)
    requires p < j <= |ws| && KindOf(ws[p]).Greater? && NoTop(ws, p, j, SEPARATORS)
    ensures var k := p + 1 + Modifiers(ws, p, j); k < j ==> Relational(ws[k]) || KindOf(ws[k]).Plain?
  {
    hide KindOf, Is;
    var k := p + 1 + Modifiers(ws, p, j);
    if k < j {
      FixedWords(ws[p + 1]);
      FixedWords(ws[k - 1]);
      forall m | p <= m < k
        ensures Delta(ws[m]) == 0
      {
        FixedWords(ws[m]);
      }
      StepByStep(ws, p, k);
      ExcusedIsAmp(ws, p, k);
    }
  }

  /** The `<` case. */
  method Input(ws: Line, p: nat, p2: nat, c: Context, io0: Io, s0: Status, ghost special: bool, ghost leaf: Leaf)
    returns (q: nat, io: Io, s: Status)
    requires p < p2 <= |ws| && KindOf(ws[p]).Less?
    requires s0.Clean? ==> NoTop(ws, p, p2, SEPARATORS) && leaf.io == io0
    ensures q == AfterRedirect(ws, p, p2, c) && (s.Lost? <==> s0.Lost?)
    ensures s.Clean? ==>
      s0.Clean? && ItemEnd(ws, p, p2) == q && Take(ws, p, p2, c, special, leaf) == Some(leaf.(io := io))
    ensures s0.Clean? && !s.Clean? ==> ItemEnd(ws, p, p2) == p || Take(ws, p, p2, c, special, leaf).None?
  {
    hide KindOf, Is;
    io, s := io0, s0;
    if At(ws[p], 1) == '<' as int {
      io := io.(flags := io.flags + {ReadHere});
    }
    if p + 1 == p2 {
      s := Raise(s, MisRed);
      q := p + 1;
      return;
    }
    assert Depth(ws, p, p + 1) == 0;
    q := p + 2;
    if Relational(ws[p + 1]) {
      s := Raise(s, MisRed);
    } else if c.here && ReadHere in io.flags {
      s := Raise(s, RedPar);
    } else if c.pin || io.lef.Some? {
      s := Raise(s, InRed);
    } else {
      io := io.(lef := Some(ws[p + 1]));
    }
  }

  /** The subshell a finished scan has found. */
  function Span(special: bool, lp: Option<nat>, rp: Option<nat>): Option<(nat, nat)>
  {
    if special || lp.None? || rp.None? then None else Some((lp.value, rp.value))
  }

  /** What the second pass keeps while there is no error: `leaf` is all it has gathered from the items before `g`; at
      depth 0 the next item starts here, and above that `g` is the parenthesis of the group it is in. */
  ghost predicate Filled(ws: Line, p1: nat, p: nat, p2: nat, c: Context, special: bool, l: int, av: seq<Word>, io: Io,
                         lp: Option<nat>, rp: Option<nat>, g: nat, leaf: Leaf)
    requires p1 <= p <= p2 <= |ws|
  {
    && p1 <= g <= p && Depth(ws, p1, g) == 0 <= Depth(ws, p1, p) == l && io == leaf.io && NoTop(ws, g, p2, SEPARATORS)
    && Clause(ws, p1, p2, c, special, Bare(ws, p2)) == Clause(ws, g, p2, c, special, leaf)
    && (if l == 0 then g == p && av == leaf.av && leaf.group == Span(special, lp, rp) && (lp.Some? ==> rp.Some?)
        else
          && g < p && KindOf(ws[g]).Open? && lp == Some(g + 1) && Closing(ws, g + 1, p2, 1) == Closing(ws, p, p2, l)
          && av == leaf.av + (if special then ws[g..p] else []) && leaf.group.None?)
  }

  /** The scan moves past the item that starts at `p`. */
  lemma {:induction false} ItemDone(ws: Line, p1: nat, p: nat, p2: nat)
    requires p1 <= p < p2 <= |ws| && Depth(ws, p1, p) == 0 && NoTop(ws, p, p2, SEPARATORS) && p < ItemEnd(ws, p, p2)
    ensures Depth(ws, p1, ItemEnd(ws, p, p2)) == 0 && NoTop(ws, ItemEnd(ws, p, p2), p2, SEPARATORS)
  {
    hide KindOf, Is, ItemEnd, NoTop, Nested, Depth;
    var q := ItemEnd(ws, p, p2);
    ItemTidy(ws, p, p2);
    DepthSplit(ws, p1, p, q);
    TidyEnd(ws, p, q, p2);
    NoTopParts(ws, p, q, p2, SEPARATORS);
  }

  lemma {:induction false} TidyEnd(ws: Line, i: nat, q: nat, j: nat)
    requires i <= q <= j <= |ws| && Tidy(ws, i, q, SEPARATORS)
    ensures q < j ==> !Excused(ws, i, q)
    ensures Depth(ws, i, q) == 0
  {
  }

  lemma {:induction false} ClauseStep(ws: Line, p: nat, p2: nat, c: Context, special: bool, leaf: Leaf)
    requires p < p2 <= |ws|
    ensures Clause(ws, p, p2, c, special, leaf) ==
            (if p == ItemEnd(ws, p, p2) then None
             else match Take(ws, p, p2, c, special, leaf)
               case None => None
               case Some(more) => Clause(ws, ItemEnd(ws, p, p2), p2, c, special, more))
  {
    hide KindOf, Is, ItemEnd, Take;
  }

  /** An ordinary word in the open. */
  lemma {:induction false} WordStep(ws: Line, p1: nat, p: nat, p2: nat, c: Context, special: bool, av: seq<Word>,
                                    io: Io, lp: Option<nat>, rp: Option<nat>, leaf: Leaf)
    requires p1 <= p < p2 <= |ws| && !Relational(ws[p]) && Filled(ws, p1, p, p2, c, special, 0, av, io, lp, rp, p, leaf)
    ensures Filled(ws, p1, p + 1, p2, c, special, 0, av + [ws[p]], io, lp, rp, p + 1, leaf.(av := leaf.av + [ws[p]]))
  {
    hide KindOf, Is, Depth, NoTop, Closing, Clause;
    OpenWord(ws, p, p2);
    ClauseStep(ws, p, p2, c, special, leaf);
    ItemDone(ws, p1, p, p2);
  }

  lemma {:induction false} OpenWord(ws: Line, p: nat, p2: nat)
    requires p < p2 <= |ws| && NoTop(ws, p, p2, SEPARATORS) && !Relational(ws[p])
    ensures KindOf(ws[p]).Plain?
  {
  }

  /** A parenthesis opens a group in the open. */
  lemma {:induction false} OpenStep(ws: Line, p1: nat, p: nat, p2: nat, c: Context, special: bool, av: seq<Word>,
                                    io: Io, lp: Option<nat>, rp: Option<nat>, leaf: Leaf)
    requires p1 <= p < p2 <= |ws| && KindOf(ws[p]).Open?
    requires Filled(ws, p1, p, p2, c, special, 0, av, io, lp, rp, p, leaf)
    ensures if special || lp.None? then
        Filled(ws, p1, p + 1, p2, c, special, 1, av + (if special then [ws[p]] else []), io, Some(p + 1), rp, p, leaf)
      else Clause(ws, p1, p2, c, special, Bare(ws, p2)).None?
  {
    hide KindOf, Is, NoTop, Clause, Closing;
    ClauseStep(ws, p, p2, c, special, leaf);
    assert ws[p..p + 1] == [ws[p]];
  }

  /** A word inside a group that does not close it. */
  lemma {:induction false} InsideStep(ws: Line, p1: nat, p: nat, p2: nat, c: Context, special: bool, l: int,
                                      av: seq<Word>, io: Io, lp: Option<nat>, rp: Option<nat>, g: nat, leaf: Leaf)
    requires p1 <= p < p2 <= |ws| && Filled(ws, p1, p, p2, c, special, l, av, io, lp, rp, g, leaf)
    requires l > 0 && l + Delta(ws[p]) > 0
    ensures Filled(ws, p1, p + 1, p2, c, special, l + Delta(ws[p]), av + (if special then [ws[p]] else []),
                   io, lp, rp, g, leaf)
  {
    hide KindOf, Is, NoTop, Clause;
    assert ws[g..p + 1] == ws[g..p] + [ws[p]];
  }

  /** The parenthesis that closes the group. */
  lemma {:induction false} CloseStep(ws: Line, p1: nat, p: nat, p2: nat, c: Context, special: bool, av: seq<Word>,
                                     io: Io, lp: Option<nat>, rp: Option<nat>, g: nat, leaf: Leaf) returns (more: Leaf)
    requires p1 <= p < p2 <= |ws| && KindOf(ws[p]).Close?
    requires Filled(ws, p1, p, p2, c, special, 1, av, io, lp, rp, g, leaf)
    ensures Filled(ws, p1, p + 1, p2, c, special, 0, av + (if special then [ws[p]] else []),
                   io, lp, Some(p), p + 1, more)
  {
    hide KindOf, Is, NoTop, Clause, Depth;
    ClauseStep(ws, g, p2, c, special, leaf);
    assert ws[g..p + 1] == ws[g..p] + [ws[p]];
    more := Take(ws, g, p2, c, special, leaf).value;
    ItemDone(ws, p1, g, p2);
  }

  /** A redirection in the open. */
  lemma {:induction false} RedirectStep(ws: Line, p1: nat, p: nat, p2: nat, c: Context, special: bool, av: seq<Word>,
                                        io: Io, lp: Option<nat>, rp: Option<nat>, leaf: Leaf, io': Io)
    requires p1 <= p < p2 <= |ws| && Filled(ws, p1, p, p2, c, special, 0, av, io, lp, rp, p, leaf)
    requires p < ItemEnd(ws, p, p2) && Take(ws, p, p2, c, special, leaf) == Some(leaf.(io := io'))
    ensures Filled(ws, p1, ItemEnd(ws, p, p2), p2, c, special, 0, av, io', lp, rp, ItemEnd(ws, p, p2), leaf.(io := io'))
  {
    hide KindOf, Is, NoTop, Clause, Depth, Take, ItemEnd, Closing;
    ClauseStep(ws, p, p2, c, special, leaf);
    ItemDone(ws, p1, p, p2);
  }

  /** What the second pass keeps in any case: whatever has been skipped, `lp` and `rp` are the bounds of one group, and
      the depth it reckons with is not more than the real one. */
  ghost predicate Marked(ws: Line, p1: nat, p: nat, p2: nat, l: int, lp: Option<nat>, rp: Option<nat>)
    requires p1 <= p <= p2 <= |ws|
  {
    && (l > 0 ==> lp.Some?) && (Nested(ws, p1, p2) ==> l <= Depth(ws, p1, p)) && (rp.Some? ==> rp.value < p)
    && (lp.Some? ==>
          && p1 <= lp.value <= p
          && (if l > 0 then Depth(ws, lp.value, p) == l - 1 && Nested(ws, lp.value, p)
              else rp.Some? && lp.value <= rp.value < p && Nested(ws, lp.value, rp.value)))
  }

  lemma {:induction false} MarkedSkip(ws: Line, p1: nat, p: nat, q: nat, p2: nat, lp: Option<nat>, rp: Option<nat>)
    requires p1 <= p <= q <= p2 <= |ws| && Marked(ws, p1, p, p2, 0, lp, rp)
    ensures Marked(ws, p1, q, p2, 0, lp, rp)
  {
    hide Depth;
  }

  lemma {:induction false} MarkedStep(ws: Line, p1: nat, p: nat, p2: nat, l: int, lp: Option<nat>, rp: Option<nat>)
    requires p1 <= p < p2 <= |ws| && Marked(ws, p1, p, p2, l, lp, rp)
    ensures Marked(ws, p1, p + 1, p2, l + Delta(ws[p]), NextLp(ws, p, l, lp), NextRp(ws, p, l, rp))
  {
  }

  lemma {:induction false} NestedNow(ws: Line, i: nat, p: nat, j: nat)
    requires i <= p <= j <= |ws|
    ensures Nested(ws, i, j) ==> Depth(ws, i, p) >= 0
  {
    hide Depth;
  }

  lemma {:induction false} CountStep(ws: Line, p: nat, j: nat, l: int, special: bool)
    requires p < j <= |ws|
    ensures Count(ws, p, j, l, special) == Weight(ws, p, j, l, special) + Count(ws, p + 1, j, l + Delta(ws[p]), special)
    ensures Count(ws, p + 1, j, l + Delta(ws[p]), special) >= 0
  {
    hide Weight, Delta;
    CountNotNegative(ws, p + 1, j, l + Delta(ws[p]), special);
  }

  /** The argument vector so far. */
  ghost predicate Holds(av: array<Option<Word>>, words: seq<Word>)
    reads av
  {
    && |words| < av.Length && (forall i :: 0 <= i < |words| ==> av[i] == Some(words[i]))
    && (forall i :: |words| <= i < av.Length ==> av[i] == None)
  }

  /** Whether the second pass puts the word at `p` in the vector. */
  predicate Written(ws: Line, p: nat, l: int, special: bool)
    requires p < |ws|
  {
    special || (l == 0 && !Relational(ws[p]))
  }

  lemma {:induction false} WrittenIsWeight(ws: Line, p: nat, j: nat, l: int, special: bool)
    requires p < j <= |ws| && !(l == 0 && KindOf(ws[p]) in {Less, Greater})
    ensures Weight(ws, p, j, l, special) == if Written(ws, p, l, special) then 1 else 0
  {
    hide KindOf;
  }

  /** Any word but a redirection in the open. */
  lemma {:induction false} FillStep(ws: Line, p1: nat, p: nat, p2: nat, c: Context, special: bool, l: int,
                                    av: seq<Word>, io: Io, lp: Option<nat>, rp: Option<nat>, g: nat, leaf: Leaf)
    returns (g': nat, leaf': Leaf)
    requires p1 <= p < p2 <= |ws| && Filled(ws, p1, p, p2, c, special, l, av, io, lp, rp, g, leaf) && Nested(ws, p1, p2)
    requires !(l == 0 && KindOf(ws[p]) in {Less, Greater})
    ensures if KindOf(ws[p]).Open? && l == 0 && lp.Some? && !special
      then Clause(ws, p1, p2, c, special, Bare(ws, p2)).None?
      else Filled(ws, p1, p + 1, p2, c, special, l + Delta(ws[p]),
                  av + (if Written(ws, p, l, special) then [ws[p]] else []), io,
                  NextLp(ws, p, l, lp), NextRp(ws, p, l, rp), g', leaf')
  {
    hide KindOf, Depth, Filled, Nested, Clause;
    g', leaf' := g, leaf;
    FilledDepth(ws, p1, p, p2, c, special, l, av, io, lp, rp, g, leaf);
    Step(ws, p1, p, {});
    NestedNow(ws, p1, p + 1, p2);
    if l == 0 && KindOf(ws[p]).Open? {
      OpenStep(ws, p1, p, p2, c, special, av, io, lp, rp, leaf);
    } else if l == 0 {
      WordStep(ws, p1, p, p2, c, special, av, io, lp, rp, leaf);
      g', leaf' := p + 1, leaf.(av := leaf.av + [ws[p]]);
    } else if l == 1 && KindOf(ws[p]).Close? {
      g' := p + 1;
      leaf' := CloseStep(ws, p1, p, p2, c, special, av, io, lp, rp, g, leaf);
    } else {
      InsideStep(ws, p1, p, p2, c, special, l, av, io, lp, rp, g, leaf);
    }
  }

  lemma {:induction false} FilledDepth(ws: Line, p1: nat, p: nat, p2: nat, c: Context, special: bool, l: int,
                                       av: seq<Word>, io: Io, lp: Option<nat>, rp: Option<nat>, g: nat, leaf: Leaf)
    requires p1 <= p <= p2 <= |ws| && Filled(ws, p1, p, p2, c, special, l, av, io, lp, rp, g, leaf)
    ensures l == Depth(ws, p1, p) >= 0 && (l == 0 ==> g == p && NoTop(ws, p, p2, SEPARATORS)) && leaf.io == io
  {
    hide Clause, Closing, Depth, NoTop, KindOf;
  }

  lemma {:induction false} FillStart(ws: Line, p1: nat, p2: nat, c: Context, special: bool)
    requires p1 <= p2 <= |ws| && NoTop(ws, p1, p2, SEPARATORS)
    ensures Filled(ws, p1, p1, p2, c, special, 0, [], Bare(ws, p2).io, None, None, p1, Bare(ws, p2))
    ensures Marked(ws, p1, p1, p2, 0, None, None)
  {
    hide KindOf, NoTop, Clause, Closing;
  }

  lemma {:induction false} FillEnd(ws: Line, p1: nat, p2: nat, c: Context, special: bool, l: int, av: seq<Word>, io: Io,
                                   lp: Option<nat>, rp: Option<nat>, g: nat, leaf: Leaf)
    requires p1 <= p2 <= |ws| && Filled(ws, p1, p2, p2, c, special, l, av, io, lp, rp, g, leaf)
    requires Depth(ws, p1, p2) == 0
    ensures Clause(ws, p1, p2, c, special, Bare(ws, p2)) == Some(Leaf(av, io, Span(special, lp, rp)))
    ensures lp.Some? ==> rp.Some?
  {
    hide KindOf, NoTop, Closing, Depth;
  }

  /** A redirection in the open: the `<` and `>` cases. */
  method Redirect(ws: Line, ghost p1: nat, p: nat, p2: nat, c: Context, ghost special: bool, ghost words: seq<Word>,
                  io0: Io, ghost lp: Option<nat>, ghost rp: Option<nat>, ghost leaf: Leaf, s0: Status)
    returns (q: nat, io: Io, s: Status, ghost leaf': Leaf)
    requires p1 <= p < p2 <= |ws| && KindOf(ws[p]) in {Less, Greater} && Marked(ws, p1, p, p2, 0, lp, rp)
    requires s0.Clean? ==> Filled(ws, p1, p, p2, c, special, 0, words, io0, lp, rp, p, leaf)
    ensures q == AfterRedirect(ws, p, p2, c) && (s.Lost? <==> s0.Lost?) && Marked(ws, p1, q, p2, 0, lp, rp)
    ensures s.Clean? ==> s0.Clean? && Filled(ws, p1, q, p2, c, special, 0, words, io, lp, rp, q, leaf')
    ensures s.Clean? ==> Count(ws, q, p2, 0, special) <= Count(ws, p, p2, 0, special)
    ensures s0.Clean? && !s.Clean? ==> Clause(ws, p1, p2, c, special, Bare(ws, p2)).None?
  {
    hide KindOf, Is, Depth, NoTop, Filled, Marked, Count, Clause, ItemEnd, Take, AfterRedirect;
    if s0.Clean? {
      FilledDepth(ws, p1, p, p2, c, special, 0, words, io0, lp, rp, p, leaf);
      FilledClause(ws, p1, p, p2, c, special, words, io0, lp, rp, leaf);
      ClauseStep(ws, p, p2, c, special, leaf);
    }
    if KindOf(ws[p]).Greater? {
      q, io, s := Output(ws, p, p2, c, io0, s0, special, leaf);
    } else {
      q, io, s := Input(ws, p, p2, c, io0, s0, special, leaf);
    }
    leaf' := leaf.(io := io);
    MarkedSkip(ws, p1, p, q, p2, lp, rp);
    if s.Clean? {
      RedirectStep(ws, p1, p, p2, c, special, words, io0, lp, rp, leaf, io);
      CountRedirection(ws, p, p2, special);
    }
  }

  lemma {:induction false} FilledClause(ws: Line, p1: nat, p: nat, p2: nat, c: Context, special: bool, av: seq<Word>,
                                        io: Io, lp: Option<nat>, rp: Option<nat>, leaf: Leaf)
    requires p1 <= p <= p2 <= |ws| && Filled(ws, p1, p, p2, c, special, 0, av, io, lp, rp, p, leaf)
    ensures Clause(ws, p1, p2, c, special, Bare(ws, p2)) == Clause(ws, p, p2, c, special, leaf)
  {
    hide Clause, Closing, Depth, NoTop, KindOf;
  }

  /** The second pass of `syn3`. Every write to the vector is inside it, and leaves room for the null at its end. */
  method Fill(ws: Line, p1: nat, p2: nat, c: Context, special: bool, av: array<Option<Word>>, s0: Status)
    returns (n: nat, io: Io, lp: Option<nat>, rp: Option<nat>, s: Status, ghost words: seq<Word>)
    requires p1 <= p2 <= |ws| && Depth(ws, p1, p2) == 0 && NoTop(ws, p1, p2, SEPARATORS) && Holds(av, [])
    requires (s0.Clean? ==> Nested(ws, p1, p2)) && av.Length == Count(ws, p1, p2, 0, special) + 1
    modifies av
    ensures s.Clean? ==> s0.Clean? && Holds(av, words) && n == |words| && (lp.Some? ==> rp.Some?)
    ensures s.Clean? ==> Clause(ws, p1, p2, c, special, Bare(ws, p2)) == Some(Leaf(words, io, Span(special, lp, rp)))
    ensures s0.Clean? && !s.Clean? ==> Clause(ws, p1, p2, c, special, Bare(ws, p2)).None?
    ensures s.Lost? <==> s0.Lost?
    ensures exists l :: Marked(ws, p1, p2, p2, l, lp, rp)
    ensures (lp, rp) == Bounds(ws, p1, p2, c, 0, None, None)
  {
    hide KindOf, Is, Depth, Nested, NoTop, Filled, Marked, Count, Weight, Clause, AfterRedirect;
    var p, l := p1, 0;
    n, io, lp, rp, s := 0, Bare(ws, p2).io, None, None, s0;
    words := [];
    ghost var g: nat, leaf := p1, Bare(ws, p2);
    FillStart(ws, p1, p2, c, special);
    while p != p2
      invariant p1 <= p <= p2 && (s.Lost? <==> s0.Lost?) && (s.Clean? ==> s0.Clean?) && Marked(ws, p1, p, p2, l, lp, rp)
      invariant Bounds(ws, p, p2, c, l, lp, rp) == Bounds(ws, p1, p2, c, 0, None, None)
      invariant s.Clean? ==> Filled(ws, p1, p, p2, c, special, l, words, io, lp, rp, g, leaf)
      invariant s.Clean? ==> Holds(av, words) && n == |words| && n + Count(ws, p, p2, l, special) < av.Length
      invariant s0.Clean? && !s.Clean? ==> Clause(ws, p1, p2, c, special, Bare(ws, p2)).None?
      decreases p2 - p
    {
      if s.Clean? {
        FilledDepth(ws, p1, p, p2, c, special, l, words, io, lp, rp, g, leaf);
      }
      if l == 0 && KindOf(ws[p]) in {Less, Greater} {
        p, io, s, leaf := Redirect(ws, p1, p, p2, c, special, words, io, lp, rp, leaf, s);
        g := p;
      } else {
        ghost var g': nat, leaf' := g, leaf;
        assert words + [] == words;
        if s.Clean? {
          g', leaf' := FillStep(ws, p1, p, p2, c, special, l, words, io, lp, rp, g, leaf);
          WrittenIsWeight(ws, p, p2, l, special);
        }
        CountStep(ws, p, p2, l, special);
        MarkedStep(ws, p1, p, p2, l, lp, rp);
        var before := l;
        if KindOf(ws[p]).Open? {
          if l == 0 {
            if lp.Some? && !special {
              s := Raise(s, BadPlp);
            }
            lp := Some(p + 1);
          }
          l := l + 1;
        } else if KindOf(ws[p]).Close? {
          l := l - 1;
          if l == 0 {
            rp := Some(p);
          }
        }
        if Written(ws, p, before, special) {
          if s.Clean? {
            av[n] := Some(ws[p]);
            words := words + [ws[p]];
          }
          n := n + 1;
        }
        p := p + 1;
        g, leaf := g', leaf';
      }
    }
    if s.Clean? {
      FillEnd(ws, p1, p2, c, special, l, words, io, lp, rp, g, leaf);
    }
  }

  /** The words of an argument vector: the entries before its first null. */
  function Entries(av: seq<Option<Word>>): seq<Word>
  {
    if av == [] || av[0].None? then [] else [av[0].value] + Entries(av[1..])
  }

  lemma {:induction false} EntriesOf(av: seq<Option<Word>>, words: seq<Word>)
    requires |words| < |av| && (forall i :: 0 <= i < |words| ==> av[i] == Some(words[i])) && av[|words|] == None
    ensures Entries(av) == words
  {
    if words != [] {
      EntriesOf(av[1..], words[1..]);
    }
  }
}
