/** Pattern matching: what `Gmatch` and `pmatch` answer to every string and pattern, and the usual meaning of a
    pattern. */
module Matching {
  import opened Words
  import opened Braces
  import opened BraceWork

  const CARET: Char := 94

  const STAR: Char := 42

  const QUERY: Char := 63

  const DASH: Char := 45

  /** No unit of the word is a bare quote mark. */
  predicate Sane(w: Word)
  {
    forall k :: 0 <= k < |w| ==> Unquoted(w[k]) != 0
  }

  /** `*string & TRIM`. */
  function Trimmed(s: Word, i: nat): int
  {
    if i < |s| then Unquoted(s[i]) else 0
  }

  /** A part of a class: one character, or a range of them. `at` is where it starts, counted from the end. */
  datatype Item = Unit(at: nat, c: int) | Span(at: nat, lo: int, hi: int)

  predicate Fits(item: Item, c: int)
  {
    if item.Unit? then c == item.c else item.lo <= c <= item.hi
  }

  predicate Has(items: seq<Item>, c: int)
  {
    items != [] && (Fits(items[0], c) || Has(items[1..], c))
  }

  /** The usual reading of a class, from left to right: `x-y` is a range, and any other character stands for itself. */
  function Reading(text: Word): seq<Item>
    decreases |text|
  {
    if text == [] then []
    else if |text| > 2 && text[1] == DASH then
      [Span(|text|, Unquoted(text[0]), Unquoted(text[2]))] + Reading(text[3..])
    else [Unit(|text|, Unquoted(text[0]))] + Reading(text[1..])
  }

  /** How the program reads it behind `prev`: a dash makes a range with whatever is before it, unless that is `[`, and
      the start of a range that runs backwards still counts. */
  function Scanned(prev: Char, text: Word): seq<Item>
    decreases |text|
  {
    if text == [] then []
    else if text[0] == DASH && prev != LBRK && |text| > 1 then
      [Span(|text| + 1, Unquoted(prev), Unquoted(text[1]))] + Scanned(text[1], text[2..])
    else if |text| > 2 && text[1] == DASH && text[0] != LBRK && Unquoted(text[0]) <= Unquoted(text[2]) then
      [Span(|text|, Unquoted(text[0]), Unquoted(text[2]))] + Scanned(text[2], text[3..])
    else [Unit(|text|, Unquoted(text[0]))] + Scanned(text[0], text[1..])
  }

  /** A class that gives no cause for misreading: no dash right behind `prev` or behind a finished range, unless that
      is `[` or the dash is the last character; no range that starts with `[` or runs backwards. */
  predicate Tame(prev: Char, text: Word)
    decreases |text|
  {
    if text == [] then true
    else if text[0] == DASH && prev != LBRK && |text| > 1 then false
    else if |text| > 2 && text[1] == DASH then
      text[0] != LBRK && Unquoted(text[0]) <= Unquoted(text[2]) && Tame(text[2], text[3..])
    else Tame(text[0], text[1..])
  }

  /** The program reads a class in the usual way exactly if it is tame. */
  lemma {:induction false} ReadsAlike(prev: Char, text: Word)
    ensures Scanned(prev, text) == Reading(text) <==> Tame(prev, text)
    decreases |text|
  {
    if text != [] {
      var a, b := Scanned(prev, text), Reading(text);
      if text[0] == DASH && prev != LBRK && |text| > 1 {
        assert a[0] != b[0];
      } else if |text| > 2 && text[1] == DASH {
        if text[0] == LBRK || Unquoted(text[0]) > Unquoted(text[2]) {
          assert a[0] != b[0];
        } else {
          SameHead(a[0], Scanned(text[2], text[3..]), Reading(text[3..]));
          ReadsAlike(text[2], text[3..]);
        }
      } else {
        SameHead(a[0], Scanned(text[0], text[1..]), Reading(text[1..]));
        ReadsAlike(text[0], text[1..]);
      }
    }
  }

  lemma {:induction false} SameHead(x: Item, a: seq<Item>, b: seq<Item>)
    ensures [x] + a == [x] + b <==> a == b
  {
    assert ([x] + a)[1..] == a && ([x] + b)[1..] == b;
  }

  datatype Elem = One(c: int) | Any | Star | Range(items: seq<Item>, negated: bool)

  datatype Parsed = Bad | Good(es: seq<Elem>)

  function Cons(e: Elem, p: Parsed): Parsed
  {
    if p.Bad? then Bad else Good([e] + p.es)
  }

  /** Where the text of a class starts. */
  function Within(p: Word): (n: nat)
    requires p != []
    ensures 0 < n <= |p|
  {
    if |p| > 1 && p[1] == CARET then 2 else 1
  }

  /** The elements of a pattern, its classes read in the usual way or as the program does; none if a class is not
      closed, or if `^` follows `*`. */
  function Elements(p: Word, usual: bool): Parsed
  {
    if p == [] then Good([])
    else if p[0] == QUERY then Cons(Any, Elements(p[1..], usual))
    else if p[0] == STAR then if |p| > 1 && p[1] == CARET then Bad else Cons(Star, Elements(p[1..], usual))
    else if p[0] == LBRK then
      var j := Within(p);
      var n := Index(p[j..], RBRK);
      if j + n == |p| then Bad
      else
        var text := p[j..][..n];
        var items := if usual then Reading(text) else Scanned(p[j - 1], text);
        Cons(Range(items, j == 2), Elements(p[j + n + 1..], usual))
    else Cons(One(Unquoted(p[0])), Elements(p[1..], usual))
  }

  /** All the classes of a pattern are tame. */
  predicate AllTame(p: Word)
  {
    if p == [] then true
    else if p[0] == LBRK then
      var j := Within(p);
      var n := Index(p[j..], RBRK);
      j + n < |p| ==> Tame(p[j - 1], p[j..][..n]) && AllTame(p[j + n + 1..])
    else AllTame(p[1..])
  }

  /** The program reads a pattern in the usual way exactly if all its classes are tame. */
  lemma {:induction false} PatternReadsAlike(p: Word)
    ensures Elements(p, true).Good? <==> Elements(p, false).Good?
    ensures Elements(p, false).Good? ==> (Elements(p, false) == Elements(p, true) <==> AllTame(p))
    decreases |p|
  {
    hide Index, Scanned, Reading, Tame;
    if p == [] {
    } else if p[0] == LBRK {
      var j := Within(p);
      var n := Index(p[j..], RBRK);
      if j + n < |p| {
        ReadsAlike(p[j - 1], p[j..][..n]);
        var rest := p[j + n + 1..];
        PatternReadsAlike(rest);
        SameFirst(Elements(p, false), Elements(p, true), Elements(rest, false), Elements(rest, true));
      }
    } else {
      PatternReadsAlike(p[1..]);
      SameFirst(Elements(p, false), Elements(p, true), Elements(p[1..], false), Elements(p[1..], true));
    }
  }

  lemma {:induction false} SameFirst(a: Parsed, b: Parsed, a': Parsed, b': Parsed)
    requires a.Good? && b.Good? && a'.Good? && b'.Good? ==> a.es != [] && b.es != []
    requires a.Good? && b.Good? && a'.Good? && b'.Good? ==> a.es[1..] == a'.es && b.es[1..] == b'.es
    ensures a.Good? && b.Good? && a'.Good? && b'.Good? ==> (a == b <==> a.es[0] == b.es[0] && a' == b')
  {
    if a.Good? && b.Good? && a'.Good? && b'.Good? {
      assert a.es == [a.es[0]] + a.es[1..] && b.es == [b.es[0]] + b.es[1..];
    }
  }

  /** The test of the scan on a class without its bracket. */
  predicate InClass(c: int, prev: Char, text: Word)
    decreases |text|
  {
    if text == [] then false
    else if text[0] == DASH && prev != LBRK && |text| > 1 then
      Unquoted(prev) <= c <= Unquoted(text[1]) || InClass(c, text[1], text[2..])
    else c == Unquoted(text[0]) || InClass(c, text[0], text[1..])
  }

  /** That test is whether the character is in one of the parts the program reads. */
  lemma {:induction false} InClassIsScanned(c: int, prev: Char, text: Word)
    ensures InClass(c, prev, text) <==> Has(Scanned(prev, text), c)
    decreases |text|
  {
    if text != [] {
      var a := Scanned(prev, text);
      if text[0] == DASH && prev != LBRK && |text| > 1 {
        InClassIsScanned(c, text[1], text[2..]);
        assert a[1..] == Scanned(text[1], text[2..]);
      } else if |text| > 2 && text[1] == DASH && text[0] != LBRK && Unquoted(text[0]) <= Unquoted(text[2]) {
        InClassIsScanned(c, text[2], text[3..]);
        assert a[1..] == Scanned(text[2], text[3..]) && text[1..][2..] == text[3..];
      } else {
        InClassIsScanned(c, text[0], text[1..]);
        assert a[1..] == Scanned(text[0], text[1..]);
      }
    }
  }

  predicate Member(c: int, items: seq<Item>, negated: bool)
  {
    Has(items, c) != negated
  }

  /** The usual meaning: each element takes one character, a star any number of them. */
  ghost predicate Glob(s: Word, es: seq<Elem>)
    decreases |es|
  {
    if es == [] then s == []
    else match es[0]
      case One(c) => s != [] && Unquoted(s[0]) == c && Glob(s[1..], es[1..])
      case Any => s != [] && Glob(s[1..], es[1..])
      case Range(items, negated) => s != [] && Member(Unquoted(s[0]), items, negated) && Glob(s[1..], es[1..])
      case Star => exists k :: 0 <= k <= |s| && Glob(s[k..], es[1..])
  }

  /** As the program has it: a star that is not the last element never takes the whole string, and a bare quote mark
      is the end of the string, except to a star and to what is one itself. */
  ghost predicate Match(s: Word, es: seq<Elem>)
    decreases |es|
  {
    if es == [] then Trimmed(s, 0) == 0
    else match es[0]
      case One(c) => s != [] && Unquoted(s[0]) == c && Match(s[1..], es[1..])
      case Any => Trimmed(s, 0) != 0 && Match(s[1..], es[1..])
      case Range(items, negated) => s != [] && Member(Unquoted(s[0]), items, negated) && Match(s[1..], es[1..])
      case Star => |es| == 1 || exists k :: 0 <= k < |s| && Match(s[k..], es[1..])
  }

  predicate AllStars(es: seq<Elem>)
  {
    forall k :: 0 <= k < |es| ==> es[k] == Star
  }

  /** Two or more stars at the end of a pattern mean what `?*` means. */
  function Effective(es: seq<Elem>): seq<Elem>
  {
    if es == [] then []
    else if |es| > 1 && AllStars(es) then [Any, Star]
    else [es[0]] + Effective(es[1..])
  }

  lemma {:induction false} StarsMatch(s: Word, es: seq<Elem>)
    requires AllStars(es) && es != []
    ensures Match(s, es) <==> |es| == 1 || s != []
    decreases |es|
  {
    if |es| > 1 {
      forall k | 0 <= k < |s|
        ensures Match(s[k..], es[1..])
      {
        StarsMatch(s[k..], es[1..]);
      }
      assert s != [] ==> Match(s[0..], es[1..]);
    }
  }

  lemma {:induction false} AnythingElse(s: Word)
    ensures Glob(s, [Any, Star]) <==> s != []
  {
    if s != [] {
      var t := s[1..];
      assert [Any, Star][1..] == [Star] && [Star][1..] == [];
      assert t[|t|..] == [] && Glob(t[|t|..], []);
    }
  }

  /** An element other than a star needs a character. */
  lemma {:induction false} NeedsOne(es: seq<Elem>)
    requires !AllStars(es)
    ensures !Glob([], Effective(es))
    decreases |es|
  {
    var f := Effective(es);
    assert f[0] == es[0] && f[1..] == Effective(es[1..]);
    if es[0] == Star {
      NeedsOne(es[1..]);
      var none: Word := [];
      assert forall k :: 0 <= k <= |none| ==> none[k..] == none;
    }
  }

  /** The program and the usual meaning agree, up to stars doubled at the end. */
  lemma {:induction false} MatchIsGlob(s: Word, es: seq<Elem>)
    requires Sane(s)
    ensures Match(s, es) <==> Glob(s, Effective(es))
    decreases |es|
  {
    if es == [] {
    } else if |es| > 1 && AllStars(es) {
      StarsMatch(s, es);
      AnythingElse(s);
    } else {
      var f := Effective(es);
      assert f[0] == es[0] && f[1..] == Effective(es[1..]);
      if es[0] == Star {
        StarTail(s, es);
      } else if s != [] {
        MatchIsGlob(s[1..], es[1..]);
      }
    }
  }

  lemma {:induction false} StarTail(s: Word, es: seq<Elem>)
    requires Sane(s) && es != [] && es[0] == Star && !(|es| > 1 && AllStars(es))
    ensures Match(s, es) <==> exists k :: 0 <= k <= |s| && Glob(s[k..], Effective(es[1..]))
    decreases |es|, 0
  {
    if |es| == 1 {
      assert s[|s|..] == [] && es[1..] == [] && Effective(es[1..]) == [];
      assert Glob(s[|s|..], Effective(es[1..]));
    } else {
      forall k | 0 <= k <= |s|
        ensures Match(s[k..], es[1..]) <==> Glob(s[k..], Effective(es[1..]))
      {
        MatchIsGlob(s[k..], es[1..]);
      }
      assert s[|s|..] == [];
      NeedsOne(es[1..]);
    }
  }

  /** Without stars doubled at the end the two agree. */
  lemma {:induction false} EffectiveSame(es: seq<Elem>)
    requires |es| > 1 ==> es[|es| - 2] != Star || es[|es| - 1] != Star
    ensures Effective(es) == es
  {
    if es != [] {
      EffectiveSame(es[1..]);
    }
  }

  /** The scan takes the terminator of the string for a character that an element accepts, before any earlier choice
      of a star has matched. */
  ghost predicate Overruns(s: Word, es: seq<Elem>)
    decreases |es|
  {
    if es == [] then false
    else match es[0]
      case One(c) => if s == [] then c == 0 else Unquoted(s[0]) == c && Overruns(s[1..], es[1..])
      case Any => Trimmed(s, 0) != 0 && Overruns(s[1..], es[1..])
      case Range(items, negated) =>
        if s == [] then Member(0, items, negated)
        else Member(Unquoted(s[0]), items, negated) && Overruns(s[1..], es[1..])
      case Star =>
        |es| > 1 && exists k ::
          0 <= k < |s| && Overruns(s[k..], es[1..]) && forall j :: 0 <= j < k ==> !Match(s[j..], es[1..])
  }

  // What the program answers

  /** A verdict; an error about a missing character; or a scan that has left the string or the pattern behind. */
  datatype Answer = Yes | No | Lacks(c: Char) | Astray

  datatype Scan = Hit(found: bool, rest: Word) | Open | Beyond

  /** The scan of a class from behind `prev`: a range whose second end is the terminator takes it along. */
  function Sweep(c: int, prev: Char, p: Word, found: bool): (r: Scan)
    ensures r.Hit? ==> |r.rest| < |p|
    decreases |p|
  {
    if p == [] then Open
    else if p[0] == RBRK then Hit(found, p[1..])
    else if found then Sweep(c, p[0], p[1..], true)
    else if p[0] == DASH && prev != LBRK && At(p, 1) != RBRK as int then
      if |p| == 1 then Beyond else Sweep(c, p[1], p[2..], Unquoted(prev) <= c <= Unquoted(p[1]))
    else Sweep(c, p[0], p[1..], c == Unquoted(p[0]))
  }

  /** What is left behind a class is the end of the pattern. */
  lemma {:induction false} SweepLeaves(c: int, prev: Char, p: Word, found: bool)
    ensures var r := Sweep(c, prev, p, found); r.Hit? ==> forall x :: x in r.rest ==> x in p
    decreases |p|
  {
    if p != [] {
      assert forall x :: x in p[1..] ==> x in p;
      SweepLeaves(c, p[0], p[1..], true);
      SweepLeaves(c, p[0], p[1..], c == Unquoted(p[0]));
      if |p| > 1 {
        assert forall x :: x in p[2..] ==> x in p;
        SweepLeaves(c, p[1], p[2..], Unquoted(prev) <= c <= Unquoted(p[1]));
      }
    }
  }

  function Verdict(b: bool): Answer
  {
    if b then Yes else No
  }

  function Stripped(p: Word): Word
  {
    if p != [] && p[0] == CARET then p[1..] else p
  }

  /** The answer with its sense kept or reversed. */
  function Turned(a: Answer, keep: bool): Answer
  {
    if keep || a.Lacks? || a.Astray? then a else Verdict(a == No)
  }

  /** What `pmatch` answers for a pattern without braces. */
  function Ask(s: Word, p: Word): Answer
    decreases |p|, 0, 0
  {
    var c := Trimmed(s, 0);
    if p == [] then Verdict(c == 0)
    else if p[0] == QUERY then if c == 0 then No else Ask(s[1..], p[1..])
    else if p[0] == STAR then if |p| == 1 then Yes else AskTails(s, p[1..])
    else if p[0] == LBRK then
      match Sweep(c, p[Within(p) - 1], p[Within(p)..], false)
      case Open => Lacks(RBRK)
      case Beyond => Astray
      case Hit(found, rest) =>
        if found == (Within(p) == 2) then No else if s == [] then Astray else Ask(s[1..], rest)
    else if Unquoted(p[0]) != c then No
    else if s == [] then Astray
    else Ask(s[1..], p[1..])
  }

  /** `Gmatch` on every tail of the string but the empty one, until one is matched. */
  function AskTails(s: Word, q: Word): Answer
    decreases |q|, 1, |s|
  {
    if s == [] then No
    else
      var a := Turned(Ask(s, Stripped(q)), Stripped(q) == q);
      if a != No then a else AskTails(s[1..], q)
  }

  /** `pmatch` on each of some patterns. */
  function AskAny(s: Word, ps: seq<Word>): Answer
  {
    if ps == [] then No
    else
      var a := Ask(s, ps[0]);
      if a.Lacks? || a.Astray? then a
      else
        var b := AskAny(s, ps[1..]);
        if b.Lacks? || b.Astray? || a == No then b else a
  }

  /** What `Gmatch` answers. */
  function Reply(s: Word, pattern: Word): Answer
  {
    var q := Stripped(pattern);
    match Expand(q)
    case Missing(c) => Lacks(c)
    case Ok(ps) => Turned(AskAny(s, ps), q == pattern)
  }

  lemma {:induction false} ReplyPlain(s: Word, q: Word)
    requires LBRC !in q
    ensures Reply(s, q) == Turned(Ask(s, Stripped(q)), Stripped(q) == q)
  {
    hide Ask, Expand;
    ExpandStep(Stripped(q));
    assert AskAny(s, []) == No;
    assert [Stripped(q)][1..] == [];
  }

  /** The usual meaning of a pattern, or what it would be if classes were usually read as the program does. */
  ghost predicate Matches(s: Word, p: Word, usual: bool)
    requires Elements(p, usual).Good?
  {
    Glob(s, Effective(Elements(p, usual).es))
  }

  lemma {:induction false} IndexNext(p: Word)
    requires p != [] && p[0] != RBRK
    ensures Index(p, RBRK) == Index(p[1..], RBRK) + 1
  {
  }

  /** Once a class has matched, only its end is looked for. */
  lemma {:induction false} SweepFound(c: int, prev: Char, p: Word)
    requires Index(p, RBRK) < |p|
    ensures Sweep(c, prev, p, true) == Hit(true, p[Index(p, RBRK) + 1..])
    decreases |p|
  {
    hide Index;
    if p[0] != RBRK {
      IndexNext(p);
      SweepFound(c, p[0], p[1..]);
    }
  }

  /** The scan of a closed class finds whether it holds the character, and ends behind the bracket. */
  lemma {:induction false} SweepClosed(c: int, prev: Char, p: Word)
    requires Index(p, RBRK) < |p|
    ensures var n := Index(p, RBRK); Sweep(c, prev, p, false) == Hit(InClass(c, prev, p[..n]), p[n + 1..])
    decreases |p|
  {
    hide Index, Sweep, InClass;
    var n := Index(p, RBRK);
    if p[0] == RBRK {
      UnitStep(c, prev, p, 0);
    } else {
      IndexNext(p);
      if p[0] == DASH && prev != LBRK && p[1] != RBRK {
        SweepRange(c, prev, p);
      } else {
        var q := p[1..];
        assert p[..n][1..] == q[..n - 1] && q[n..] == p[n + 1..];
        UnitStep(c, prev, p, n);
        if c == Unquoted(p[0]) {
          SweepFound(c, p[0], q);
        } else {
          SweepClosed(c, p[0], q);
        }
      }
    }
  }

  lemma {:induction false} UnitStep(c: int, prev: Char, p: Word, n: nat)
    requires p != [] && n <= |p| && (n == 0 <==> p[0] == RBRK)
    requires p[0] == DASH && prev != LBRK ==> |p| > 1 && (n == 1 <==> p[1] == RBRK) && p[1] == RBRK
    ensures n == 0 ==> Sweep(c, prev, p, false) == Hit(false, p[1..]) && !InClass(c, prev, p[..n])
    ensures n > 0 ==> var found := c == Unquoted(p[0]);
      && Sweep(c, prev, p, false) == Sweep(c, p[0], p[1..], found)
      && (InClass(c, prev, p[..n]) <==> found || InClass(c, p[0], p[..n][1..]))
  {
  }

  lemma {:induction false} SweepRange(c: int, prev: Char, p: Word)
    requires Index(p, RBRK) < |p| && |p| > 1 && p[0] == DASH && prev != LBRK && p[1] != RBRK
    ensures var n := Index(p, RBRK); Sweep(c, prev, p, false) == Hit(InClass(c, prev, p[..n]), p[n + 1..])
    decreases |p|, 0
  {
    hide Index, Sweep, InClass;
    var q := p[2..];
    assert p[1..][1..] == q;
    IndexNext(p);
    IndexNext(p[1..]);
    var n, found := Index(p, RBRK), Unquoted(prev) <= c <= Unquoted(p[1]);
    assert p[..n][2..] == q[..n - 2] && q[n - 1..] == p[n + 1..];
    RangeStep(c, prev, p, n);
    if found {
      SweepFound(c, p[1], q);
    } else {
      SweepClosed(c, p[1], q);
    }
  }

  lemma {:induction false} RangeStep(c: int, prev: Char, p: Word, n: nat)
    requires 2 <= n <= |p| && p[0] == DASH && prev != LBRK && p[1] != RBRK
    ensures var found := Unquoted(prev) <= c <= Unquoted(p[1]);
      && Sweep(c, prev, p, false) == Sweep(c, p[1], p[2..], found)
      && (InClass(c, prev, p[..n]) <==> found || InClass(c, p[1], p[..n][2..]))
  {
  }

  ghost predicate MatchesTail(s: Word, es: seq<Elem>)
  {
    exists k :: 0 <= k < |s| && Match(s[k..], es)
  }

  ghost predicate OverrunsTail(s: Word, es: seq<Elem>)
  {
    exists k :: 0 <= k < |s| && Overruns(s[k..], es) && forall j :: 0 <= j < k ==> !Match(s[j..], es)
  }

  lemma {:induction false} TailsStep(s: Word, es: seq<Elem>)
    requires s != []
    ensures MatchesTail(s, es) <==> Match(s, es) || MatchesTail(s[1..], es)
    ensures OverrunsTail(s, es) <==> Overruns(s, es) || (!Match(s, es) && OverrunsTail(s[1..], es))
  {
    hide Match, Overruns;
    var t := s[1..];
    assert s[0..] == s;
    assert forall k :: 0 <= k < |t| ==> t[k..] == s[k + 1..];
    if MatchesTail(s, es) && !Match(s, es) {
      var k :| 0 <= k < |s| && Match(s[k..], es);
      assert t[k - 1..] == s[k..];
    }
    if OverrunsTail(s, es) && !Overruns(s, es) {
      var k :| 0 <= k < |s| && Overruns(s[k..], es) && forall j :: 0 <= j < k ==> !Match(s[j..], es);
      assert t[k - 1..] == s[k..];
      assert !Match(s[0..], es);
    }
    if !Match(s, es) && OverrunsTail(t, es) {
      var k :| 0 <= k < |t| && Overruns(t[k..], es) && forall j :: 0 <= j < k ==> !Match(t[j..], es);
      assert Overruns(s[k + 1..], es);
      forall j | 0 <= j < k + 1
        ensures !Match(s[j..], es)
      {
        assert j > 0 ==> s[j..] == t[j - 1..];
      }
    }
  }

  /** The program and the elements of the pattern as it reads them agree: a match, none, or an overrun. */
  lemma {:induction false} AskIsMatch(s: Word, p: Word)
    requires Elements(p, false).Good?
    ensures var es := Elements(p, false).es;
      Ask(s, p) == if Overruns(s, es) then Astray else Verdict(Match(s, es))
    decreases |p|, 1, 0
  {
    if p == [] {
    } else if p[0] == STAR {
      AskIsStar(s, p);
    } else if p[0] == LBRK {
      AskIsRange(s, p);
    } else {
      var es := Elements(p, false).es;
      assert es[1..] == Elements(p[1..], false).es;
      if s != [] {
        AskIsMatch(s[1..], p[1..]);
      }
    }
  }

  lemma {:induction false} AskIsRange(s: Word, p: Word)
    requires Elements(p, false).Good? && p != [] && p[0] == LBRK
    ensures var es := Elements(p, false).es;
      Ask(s, p) == if Overruns(s, es) then Astray else Verdict(Match(s, es))
    decreases |p|, 0, 0
  {
    hide InClass, Sweep, Index, Elements, Scanned, Has;
    RangeElements(p);
    var c, j, es := Trimmed(s, 0), Within(p), Elements(p, false).es;
    var n := Index(p[j..], RBRK);
    var text, rest := p[j..][..n], p[j + n + 1..];
    assert p[j..][n + 1..] == rest;
    SweepClosed(c, p[j - 1], p[j..]);
    InClassIsScanned(c, p[j - 1], text);
    if s != [] {
      AskIsMatch(s[1..], rest);
    }
  }

  lemma {:induction false} RangeElements(p: Word)
    requires Elements(p, false).Good? && p != [] && p[0] == LBRK
    ensures var j, es := Within(p), Elements(p, false).es;
      var n := Index(p[j..], RBRK);
      && j + n < |p| && es != [] && es[0] == Range(Scanned(p[j - 1], p[j..][..n]), j == 2)
      && Elements(p[j + n + 1..], false) == Good(es[1..])
  {
    hide Index, Scanned;
  }

  lemma {:induction false} AskIsStar(s: Word, p: Word)
    requires Elements(p, false).Good? && p != [] && p[0] == STAR
    ensures var es := Elements(p, false).es;
      Ask(s, p) == if Overruns(s, es) then Astray else Verdict(Match(s, es))
    decreases |p|, 0, 0
  {
    var q, es := p[1..], Elements(p, false).es;
    assert es[1..] == Elements(q, false).es;
    if q != [] {
      Something(q);
      TailsIsMatch(s, q);
    }
  }

  lemma {:induction false} TailsIsMatch(s: Word, q: Word)
    requires Elements(q, false).Good? && Stripped(q) == q
    ensures var es := Elements(q, false).es;
      AskTails(s, q) == if OverrunsTail(s, es) then Astray else Verdict(MatchesTail(s, es))
    decreases |q|, 2, |s|
  {
    hide Elements, Match, Overruns, Ask, MatchesTail, OverrunsTail;
    var es := Elements(q, false).es;
    if s == [] {
      NoTails(es);
    } else {
      AskIsMatch(s, q);
      TailsIsMatch(s[1..], q);
      TailsStep(s, es);
    }
  }

  lemma {:induction false} NoTails(es: seq<Elem>)
    ensures !MatchesTail([], es) && !OverrunsTail([], es)
  {
  }

  lemma {:induction false} Something(p: Word)
    requires Elements(p, false).Good? && p != []
    ensures Elements(p, false).es != []
  {
  }

  /** An overrun needs an element that accepts the terminator. */
  lemma {:induction false} NeverOverruns(s: Word, es: seq<Elem>)
    requires forall k :: 0 <= k < |es| ==> !Accepts0(es[k])
    ensures !Overruns(s, es)
    decreases |es|
  {
    if es != [] {
      forall k | 0 <= k <= |s|
        ensures !Overruns(s[k..], es[1..])
      {
        NeverOverruns(s[k..], es[1..]);
      }
    }
  }

  predicate Accepts0(e: Elem)
  {
    (e.One? && e.c == 0) || (e.Range? && Member(0, e.items, e.negated))
  }

  /** In a pattern without bare quote marks only the negated classes do, and they all do. */
  lemma {:induction false} OnlyNegated(p: Word, k: nat)
    requires Sane(p) && Elements(p, false).Good? && k < |Elements(p, false).es|
    ensures var e := Elements(p, false).es[k]; Accepts0(e) <==> e.Range? && e.negated
    decreases |p|
  {
    hide Index, Scanned, Has;
    var es := Elements(p, false).es;
    if p[0] == LBRK {
      RangeElements(p);
      var j := Within(p);
      var n := Index(p[j..], RBRK);
      ClassNeedsOne(p[j - 1], p[j..][..n]);
      if k > 0 {
        OnlyNegated(p[j + n + 1..], k - 1);
      }
    } else {
      assert es[1..] == Elements(p[1..], false).es;
      if k > 0 {
        OnlyNegated(p[1..], k - 1);
      }
    }
  }

  lemma {:induction false} ClassNeedsOne(prev: Char, text: Word)
    requires Sane(text) && Unquoted(prev) != 0
    ensures !Has(Scanned(prev, text), 0)
    decreases |text|
  {
    InClassIsScanned(0, prev, text);
    if text != [] {
      ClassNeedsOne(text[0], text[1..]);
      InClassIsScanned(0, text[0], text[1..]);
      if |text| > 1 {
        ClassNeedsOne(text[1], text[2..]);
        InClassIsScanned(0, text[1], text[2..]);
      }
    }
  }

  /** A negated class at the end of the string: `[^x]` against nothing. */
  lemma {:induction false} NegatedOverrun(x: Char)
    requires x !in {RBRK, DASH} && Unquoted(x) != 0
    ensures Ask([], [LBRK, CARET, x, RBRK]) == Astray
  {
    var p := [LBRK, CARET, x, RBRK];
    assert p[2..] == [x, RBRK] && [x, RBRK][1..] == [RBRK];
    assert Sweep(0, x, [RBRK], false) == Hit(false, [RBRK][1..]);
  }

  // What becomes of classes that are not tame

  /** `[[-y]` has none of the characters between `[` and `y`. */
  lemma {:induction false} BracketRange(y: Char, c: Char)
    requires y != RBRK && Unquoted(LBRK) < Unquoted(c) < Unquoted(y)
    ensures var p := [LBRK, LBRK, DASH, y, RBRK];
      Ask([c], p) == No && Elements(p, true).Good? && Matches([c], p, true)
  {
    hide Ask, Elements, Matches, InClass, Reading;
    var text, u := [LBRK, DASH, y], Unquoted(c);
    assert text[1..] == [DASH, y] && [DASH, y][1..] == [y] && [y][1..] == [];
    InClassUnit(u, LBRK, text);
    InClassUnit(u, LBRK, [DASH, y]);
    InClassUnit(u, DASH, [y]);
    InReading(u, text);
    LoneClassMatch([c], [LBRK], text);
    assert [LBRK] + text + [RBRK] == [LBRK, LBRK, DASH, y, RBRK];
  }

  /** `[^-x]` has the dash. */
  lemma {:induction false} NegatedDash(x: Char)
    requires x != RBRK
    ensures var p := [LBRK, CARET, DASH, x, RBRK];
      Ask([DASH], p) == Yes && Elements(p, true).Good? && !Matches([DASH], p, true)
  {
    hide Ask, Elements, Matches, InClass, Reading;
    var text, u := [DASH, x], Unquoted(DASH);
    assert text[2..] == [];
    InClassSpan(u, CARET, text);
    InReading(u, text);
    LoneClassMatch([DASH], [LBRK, CARET], text);
    assert [LBRK, CARET] + text + [RBRK] == [LBRK, CARET, DASH, x, RBRK];
  }

  /** `[x-y-z]` has no dash, if that is before all three. */
  lemma {:induction false} ChainedRanges(x: Char, y: Char, z: Char)
    requires RBRK !in [x, y, z] && LBRK !in [x, y] && x != CARET
    requires Unquoted(DASH) < Unquoted(x) && Unquoted(DASH) < Unquoted(y)
    ensures var p := [LBRK, x, DASH, y, DASH, z, RBRK];
      Ask([DASH], p) == No && Elements(p, true).Good? && Matches([DASH], p, true)
  {
    hide Ask, Elements, Matches, InClass, Reading;
    var text, u := [x, DASH, y, DASH, z], Unquoted(DASH);
    assert text[1..] == [DASH, y, DASH, z] && [DASH, y, DASH, z][2..] == [DASH, z] && [DASH, z][2..] == [];
    InClassUnit(u, LBRK, text);
    InClassSpan(u, x, [DASH, y, DASH, z]);
    InClassSpan(u, y, [DASH, z]);
    assert text[3..] == [DASH, z];
    InReading(u, text);
    InReading(u, [DASH, z]);
    assert RBRK !in text;
    LoneClassMatch([DASH], [LBRK], text);
    assert [LBRK] + text + [RBRK] == [LBRK, x, DASH, y, DASH, z, RBRK];
  }

  /** `[x-y]` has `x`, even if the range runs backwards. */
  lemma {:induction false} BackwardsRange(x: Char, y: Char)
    requires x != RBRK && y != RBRK && x != CARET && Unquoted(y) < Unquoted(x)
    ensures var p := [LBRK, x, DASH, y, RBRK];
      Ask([x], p) == Yes && Elements(p, true).Good? && !Matches([x], p, true)
  {
    hide Ask, Elements, Matches, InClass, Reading;
    var text, u := [x, DASH, y], Unquoted(x);
    InClassUnit(u, LBRK, text);
    assert text[3..] == [];
    InReading(u, text);
    InReading(u, []);
    LoneClassMatch([x], [LBRK], text);
    assert [LBRK] + text + [RBRK] == [LBRK, x, DASH, y, RBRK];
  }

  lemma {:induction false} InClassUnit(u: int, prev: Char, text: Word)
    requires text != [] && (text[0] == DASH ==> prev == LBRK || |text| == 1)
    ensures InClass(u, prev, text) <==> u == Unquoted(text[0]) || InClass(u, text[0], text[1..])
    ensures !InClass(u, text[0], [])
  {
  }

  lemma {:induction false} InClassSpan(u: int, prev: Char, text: Word)
    requires |text| > 1 && text[0] == DASH && prev != LBRK
    ensures InClass(u, prev, text) <==> Unquoted(prev) <= u <= Unquoted(text[1]) || InClass(u, text[1], text[2..])
    ensures !InClass(u, text[1], [])
  {
  }

  /** The first part of a class in the usual reading. */
  lemma {:induction false} InReading(u: int, text: Word)
    ensures Has(Reading(text), u) <==>
      text != [] &&
      if |text| > 2 && text[1] == DASH then
        Unquoted(text[0]) <= u <= Unquoted(text[2]) || Has(Reading(text[3..]), u)
      else u == Unquoted(text[0]) || Has(Reading(text[1..]), u)
  {
    if text != [] {
      var rest := if |text| > 2 && text[1] == DASH then text[3..] else text[1..];
      assert Reading(text)[1..] == Reading(rest);
    }
  }

  /** A pattern that is one class, against one character: as the program has it, and as is usual. */
  lemma {:induction false} LoneClassMatch(s: Word, front: Word, text: Word)
    requires |s| == 1 && RBRK !in text
    requires front == [LBRK, CARET] || (front == [LBRK] && (text != [] ==> text[0] != CARET))
    ensures var p, u, negated := front + text + [RBRK], Unquoted(s[0]), |front| == 2;
      && Ask(s, p) == Verdict(InClass(u, front[|front| - 1], text) != negated)
      && Elements(p, true).Good? && (Matches(s, p, true) <==> Member(u, Reading(text), negated))
  {
    hide Index, Reading, Has, Sweep, InClass, Ask, Glob, Effective, Elements;
    var p, j, tail := front + text + [RBRK], |front|, text + [RBRK];
    assert p[j..] == tail && Within(p) == j && p[j + |text| + 1..] == [] && tail[|text| + 1..] == [];
    ClosedClass(text);
    SweepClosed(Unquoted(s[0]), front[j - 1], tail);
    AskClass(s, p);
    var e := Range(Reading(text), j == 2);
    LoneClass(p, text);
    OneElement(s, e);
  }

  lemma {:induction false} AskClass(s: Word, p: Word)
    requires |s| == 1 && p != [] && p[0] == LBRK
    requires var scan := Sweep(Unquoted(s[0]), p[Within(p) - 1], p[Within(p)..], false); scan.Hit? && scan.rest == []
    ensures var scan := Sweep(Unquoted(s[0]), p[Within(p) - 1], p[Within(p)..], false);
      Ask(s, p) == Verdict(scan.found != (Within(p) == 2))
  {
    hide Sweep;
    assert s[1..] == [] && Ask([], []) == Yes;
  }

  lemma {:induction false} LoneClass(p: Word, text: Word)
    requires p != [] && p[0] == LBRK && Within(p) + |text| + 1 == |p|
    requires Index(p[Within(p)..], RBRK) == |text| && p[Within(p)..][..|text|] == text
    ensures Elements(p, true) == Good([Range(Reading(text), Within(p) == 2)])
  {
    hide Index, Reading;
    assert p[|p|..] == [] && Elements([], true) == Good([]);
  }

  lemma {:induction false} OneElement(s: Word, e: Elem)
    requires |s| == 1 && e.Range?
    ensures Glob(s, Effective([e])) <==> Member(Unquoted(s[0]), e.items, e.negated)
  {
    assert [e][1..] == [] && Effective([e]) == [e] + Effective([]) == [e];
    assert s[1..] == [] && Glob([], []);
  }

  lemma {:induction false} ClosedClass(text: Word)
    requires RBRK !in text
    ensures Index(text + [RBRK], RBRK) == |text| && (text + [RBRK])[..|text|] == text
  {
    assert text + [RBRK] + [] == text + [RBRK];
    IndexIn(text, [], RBRK);
  }

  /** Not being tame need not show: `[a-c-d-]` has the usual characters all the same. */
  lemma {:induction false} NoDifference(c: int)
    ensures var text: Word := ['a' as int, DASH, 'c' as int, DASH, 'd' as int, DASH];
      !Tame(LBRK, text) && (Has(Scanned(LBRK, text), c) <==> Has(Reading(text), c))
  {
    var text: Word := ['a' as int, DASH, 'c' as int, DASH, 'd' as int, DASH];
    var rest, last: Word := [DASH, 'd' as int, DASH], [DASH];
    assert text[3..] == rest && rest[2..] == last && rest[1..] == ['d' as int, DASH] && ['d' as int, DASH][1..] == last;
    assert Reading(last) == [Unit(1, 45)] + Reading(last[1..]) == [Unit(1, 45)];
    assert Reading(rest) == [Unit(3, 45)] + ([Unit(2, 100)] + [Unit(1, 45)]);
    assert Reading(text) == [Span(6, 97, 99)] + Reading(rest)
        == [Span(6, 97, 99), Unit(3, 45), Unit(2, 100), Unit(1, 45)];
    assert Scanned('d' as int, last) == [Unit(1, 45)] + Scanned(DASH, last[1..]) == [Unit(1, 45)];
    assert Scanned('c' as int, rest) == [Span(4, 99, 100)] + [Unit(1, 45)];
    assert Scanned(LBRK, text) == [Span(6, 97, 99)] + Scanned('c' as int, rest)
        == [Span(6, 97, 99), Span(4, 99, 100), Unit(1, 45)];
    HasThree(Span(6, 97, 99), Span(4, 99, 100), [Unit(1, 45)], c);
    HasThree(Span(6, 97, 99), Unit(3, 45), [Unit(2, 100), Unit(1, 45)], c);
    HasThree(Unit(2, 100), Unit(1, 45), [], c);
    HasThree(Unit(1, 45), Unit(1, 45), [], c);
  }

  lemma {:induction false} HasThree(x: Item, y: Item, more: seq<Item>, c: int)
    ensures Has([x, y] + more, c) <==> Fits(x, c) || Fits(y, c) || Has(more, c)
    ensures Has([x], c) <==> Fits(x, c)
  {
    assert ([x, y] + more)[1..] == [y] + more && ([y] + more)[1..] == more && [x][1..] == [];
  }

  /** The scan of a class up to its bracket. */
  method ScanClass(prev: Char, p: Word, c: int) returns (r: Scan)
    ensures r == Sweep(c, prev, p, false)
  {
    var before, pat, found := prev, p, false;
    while pat != [] && pat[0] != RBRK
      invariant Sweep(c, before, pat, found) == Sweep(c, prev, p, false)
      decreases |pat|
    {
      if !found && pat[0] == DASH && before != LBRK && At(pat, 1) != RBRK as int {
        if |pat| == 1 {
          return Beyond;
        }
        found := c <= Unquoted(pat[1]) && Unquoted(before) <= c;
        before, pat := pat[1], pat[2..];
      } else {
        found := found || c == Unquoted(pat[0]);
        before, pat := pat[0], pat[1..];
      }
    }
    r := if pat == [] then Open else Hit(found, pat[1..]);
  }

  /** `pmatch`: any string against any pattern that brace expansion has left. */
  method Pmatch(s: Word, p: Word) returns (r: Answer)
    requires Final(p)
    ensures r == Ask(s, p)
    ensures Elements(p, false).Good? ==>
      var es := Elements(p, false).es; r == if Overruns(s, es) then Astray else Verdict(Match(s, es))
    ensures Elements(p, false).Good? ==> Elements(p, true).Good?
    ensures Elements(p, false).Good? && Sane(s) && (r == Yes || r == No) ==>
      r == Verdict(Matches(s, p, false)) && (AllTame(p) ==> r == Verdict(Matches(s, p, true)))
    decreases |p|, 0
  {
    hide Elements, Match, Overruns, Sane, Sweep, Matches, AllTame;
    if Elements(p, false).Good? {
      AskIsMatch(s, p);
      AskIsMatches(s, p);
    }
    var str, pat := s, p;
    while true
      invariant Ask(s, p) == Ask(str, pat) && |pat| <= |p| && (LBRC !in pat || STAR !in pat)
      decreases |pat|
    {
      var c := Trimmed(str, 0);
      if pat == [] {
        return Verdict(c == 0);
      }
      if pat[0] == STAR {
        if |pat| == 1 {
          return Yes;
        }
        r := TryAll(str, pat[1..]);
        return;
      }
      var rest := pat[1..];
      if pat[0] == LBRK {
        var negate := Within(pat) == 2;
        var scan := ScanClass(pat[Within(pat) - 1], pat[Within(pat)..], c);
        if !scan.Hit? {
          return if scan.Open? then Lacks(RBRK) else Astray;
        }
        if scan.found == negate {
          return No;
        }
        rest := scan.rest;
        SweepLeaves(c, pat[Within(pat) - 1], pat[Within(pat)..], false);
      } else if pat[0] == QUERY {
        if c == 0 {
          return No;
        }
      } else if Unquoted(pat[0]) != c {
        return No;
      }
      if str == [] {
        return Astray;
      }
      str, pat := str[1..], rest;
    }
  }

  /** A verdict is that of the meaning, which for a pattern whose classes are tame is the usual one. */
  lemma {:induction false} AskIsMatches(s: Word, p: Word)
    requires Elements(p, false).Good?
    ensures Elements(p, true).Good?
    ensures Sane(s) && (Ask(s, p) == Yes || Ask(s, p) == No) ==>
      Ask(s, p) == Verdict(Matches(s, p, false)) && (AllTame(p) ==> Ask(s, p) == Verdict(Matches(s, p, true)))
  {
    hide Elements, Match, Overruns, Ask, Glob, AllTame;
    PatternReadsAlike(p);
    AskIsMatch(s, p);
    if Sane(s) {
      MatchIsGlob(s, Elements(p, false).es);
    }
  }

  /** The loop of the star: the rest of the pattern against every tail of the string but the empty one. */
  method TryAll(s: Word, q: Word) returns (r: Answer)
    requires LBRC !in q
    ensures r == AskTails(s, q)
    decreases |q|, 3
  {
    hide Expand, Ask, Reply;
    var str := s;
    while str != []
      invariant AskTails(str, q) == AskTails(s, q)
      decreases |str|
    {
      ReplyPlain(str, q);
      r := Gmatch(str, q);
      if r != No {
        return;
      }
      str := str[1..];
    }
    return No;
  }

  /** Expansion ends in words that are final, and no longer than the one it started from. */
  lemma {:induction false} ExpandFinal(s: Word)
    requires Expand(s).Ok?
    ensures forall w :: w in Expand(s).value ==> Final(w) && |w| <= |s|
    decreases Opens(s), 1, 0
  {
    hide Opens, Expand, Alternatives;
    ExpandStep(s);
    if !Final(s) {
      var alts := Alternatives(s).value;
      forall k | 0 <= k < |alts|
        ensures Opens(alts[k]) < Opens(s) && |alts[k]| <= |s|
      {
        AlternativesShrink(s, k);
      }
      ExpandAllFinal(alts, Opens(s), |s|);
    }
  }

  lemma {:induction false} ExpandAllFinal(ws: seq<Word>, bound: nat, n: nat)
    requires ExpandAll(ws).Ok? && forall k :: 0 <= k < |ws| ==> Opens(ws[k]) < bound && |ws[k]| <= n
    ensures forall w :: w in ExpandAll(ws).value ==> Final(w) && |w| <= n
    decreases bound, 0, |ws|
  {
    hide Opens, Expand;
    if ws != [] {
      ExpandFinal(ws[0]);
      ExpandAllFinal(ws[1..], bound, n);
    }
  }

  /** `Gmatch`: some expansion of the pattern matches, or with a leading `^` none does. */
  method Gmatch(s: Word, pattern: Word) returns (r: Answer)
    ensures r == Reply(s, pattern)
    ensures Sane(s) && Meaningful(s, Stripped(pattern), false) ==>
      r == Verdict(SomeMatches(s, Expand(Stripped(pattern)).value, false) <==> Stripped(pattern) == pattern)
    ensures Sane(s) && Meaningful(s, Stripped(pattern), true) ==>
      r == Verdict(SomeMatches(s, Expand(Stripped(pattern)).value, true) <==> Stripped(pattern) == pattern)
    decreases |pattern|, 2
  {
    hide Expand, Ask, Sane, Meaningful, SomeMatches;
    var q := Stripped(pattern);
    ReplyIsMatch(s, pattern, false);
    ReplyIsMatch(s, pattern, true);
    var blk := new Slot[GLOBSPACE](_ => Null);
    blk[0] := Entry(q);
    ExpandOne(q);
    var err;
    ghost var ps;
    blk, err, ps := Expbrace(blk, [q]);
    if err.Missing? {
      return Lacks(err.c);
    }
    ExpandFinal(q);
    r := MatchAny(s, blk, ps, |pattern|);
    r := Turned(r, q == pattern);
  }

  /** The loop of `Gmatch` over the expanded patterns. */
  method MatchAny(s: Word, blk: array<Slot>, ghost ps: seq<Word>, ghost bound: nat) returns (r: Answer)
    requires Vector(blk, ps) && forall p :: p in ps ==> Final(p) && |p| <= bound
    ensures r == AskAny(s, ps)
    decreases bound, 1
  {
    hide Ask, Final;
    var gres, k := No, 0;
    assert ps[0..] == ps;
    while blk[k] != Null
      invariant k <= |ps| && gres in {Yes, No}
      invariant AskAny(s, ps) == (var b := AskAny(s, ps[k..]); if b.Lacks? || b.Astray? || gres == No then b else gres)
      decreases |ps| - k
    {
      assert ps[k] in ps && ps[k..][1..] == ps[k + 1..];
      r := Pmatch(s, blk[k].word);
      if r.Lacks? || r.Astray? {
        return;
      }
      gres := if gres == Yes then Yes else r;
      k := k + 1;
    }
    r := gres;
  }

  /** The expansions all have a meaning, a usual one if that is asked for, and none of them overruns the string. */
  ghost predicate Meaningful(s: Word, q: Word, usual: bool)
  {
    Expand(q).Ok? && AllMeaningful(s, Expand(q).value, usual)
  }

  ghost predicate AllMeaningful(s: Word, ps: seq<Word>, usual: bool)
  {
    forall p :: p in ps ==>
      Elements(p, false).Good? && !Overruns(s, Elements(p, false).es) && (usual ==> AllTame(p))
  }

  ghost predicate SomeMatches(s: Word, ps: seq<Word>, usual: bool)
  {
    exists p :: p in ps && Elements(p, usual).Good? && Matches(s, p, usual)
  }

  lemma {:induction false} AnyIsMatch(s: Word, ps: seq<Word>, usual: bool)
    requires Sane(s) && AllMeaningful(s, ps, usual)
    ensures AskAny(s, ps) == Verdict(SomeMatches(s, ps, usual))
  {
    hide Ask, Matches, Overruns, Elements, AllTame, Sane;
    if ps != [] {
      var p := ps[0];
      AnyIsMatch(s, ps[1..], usual);
      AskIsMatch(s, p);
      AskIsMatches(s, p);
      assert forall q :: q in ps <==> q == p || q in ps[1..];
    }
  }

  lemma {:induction false} ReplyIsMatch(s: Word, pattern: Word, usual: bool)
    ensures Sane(s) && Meaningful(s, Stripped(pattern), usual) ==>
      Reply(s, pattern) ==
      Verdict(SomeMatches(s, Expand(Stripped(pattern)).value, usual) <==> Stripped(pattern) == pattern)
  {
    hide Ask, Expand, AllMeaningful, SomeMatches, Sane;
    if Sane(s) && Meaningful(s, Stripped(pattern), usual) {
      AnyIsMatch(s, Expand(Stripped(pattern)).value, usual);
    }
  }

  lemma {:induction false} ExpandOne(q: Word)
    ensures ExpandAll([q]) == Expand(q)
  {
    hide Expand;
    assert [q][1..] == [];
    assert ExpandAll([]) == Ok([]);
    if Expand(q).Ok? {
      assert Expand(q).value + [] == Expand(q).value;
    }
  }
}
