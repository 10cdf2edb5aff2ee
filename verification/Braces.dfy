/** Brace expansion: the alternatives of one pair of braces, and the expansion they generate. */
module Braces {
  import opened Words

  const LBRC: Char := 123

  const RBRC: Char := 125

  const LBRK: Char := 91

  const RBRK: Char := 93

  const COMMA: Char := 44

  const MAXPATHLEN := 1024

  /** A value, or the character that is missing from the word. */
  datatype Outcome<T> = Ok(value: T) | Missing(c: Char)

  /** Where `c` first occurs in `t`, or the length of `t`. */
  function Index(t: Word, c: Char): (n: nat)
    ensures n <= |t| && c !in t[..n] && (n < |t| ==> t[n] == c)
  {
    if t == [] || t[0] == c then 0
    else
      var n := Index(t[1..], c);
      assert t[..n + 1] == [t[0]] + t[1..][..n];
      n + 1
  }

  function Later(o: Outcome<nat>, n: nat): Outcome<nat>
  {
    if o.Ok? then Ok(o.value + n) else o
  }

  /** Where the brace that closes depth `i` is in `t`. What is between brackets is skipped. */
  function Closing(t: Word, i: nat): (o: Outcome<nat>)
    ensures o.Ok? ==> o.value < |t| && t[o.value] == RBRC
  {
    if t == [] then Missing(RBRC)
    else if t[0] == LBRK then
      var n := Index(t[1..], RBRK);
      if n + 1 == |t| then Missing(RBRK)
      else
        var o := Closing(t[n + 2..], i);
        assert o.Ok? ==> t[n + 2..][o.value] == t[o.value + (n + 2)];
        Later(o, n + 2)
    else if t[0] == RBRC && i == 0 then Ok(0)
    else
      var o := Closing(t[1..], if t[0] == LBRC then i + 1 else if t[0] == RBRC then i - 1 else i);
      assert o.Ok? ==> t[1..][o.value] == t[o.value + 1];
      Later(o, 1)
  }

  /** A text put before the first of some pieces. */
  function Before(u: Word, pieces: seq<Word>): (r: seq<Word>)
    requires pieces != []
    ensures |r| == |pieces|
  {
    [u + pieces[0]] + pieces[1..]
  }

  /** The text cut at its commas, those inside braces and brackets apart. */
  function Pieces(t: Word, i: nat): (r: seq<Word>)
    ensures r != []
  {
    if t == [] then [[]]
    else if t[0] == LBRK then
      var n := Index(t[1..], RBRK);
      if n + 1 == |t| then [t] else Before(t[..n + 2], Pieces(t[n + 2..], i))
    else if t[0] == COMMA && i == 0 then [[]] + Pieces(t[1..], 0)
    else
      Before(t[..1], Pieces(t[1..], if t[0] == LBRC then i + 1 else if t[0] == RBRC && i > 0 then i - 1 else i))
  }

  function Join(pieces: seq<Word>): Word
    requires pieces != []
  {
    if |pieces| == 1 then pieces[0] else pieces[0] + [COMMA] + Join(pieces[1..])
  }

  lemma {:induction false} JoinBefore(u: Word, pieces: seq<Word>)
    requires pieces != []
    ensures Join(Before(u, pieces)) == u + Join(pieces)
  {
  }

  /** Cutting loses nothing: the pieces joined by commas are the text. */
  lemma {:induction false} JoinPieces(t: Word, i: nat)
    ensures Join(Pieces(t, i)) == t
    decreases |t|
  {
    hide Join, Index, Before;
    if t == [] {
      JoinOne(t);
    } else if t[0] == LBRK {
      var n := Index(t[1..], RBRK);
      if n + 1 == |t| {
        JoinOne(t);
      } else {
        JoinPieces(t[n + 2..], i);
        JoinBefore(t[..n + 2], Pieces(t[n + 2..], i));
        assert t[..n + 2] + t[n + 2..] == t;
      }
    } else if t[0] == COMMA && i == 0 {
      JoinPieces(t[1..], 0);
      JoinMore([], Pieces(t[1..], 0));
      assert [] + [COMMA] + t[1..] == t;
    } else {
      var i' := if t[0] == LBRC then i + 1 else if t[0] == RBRC && i > 0 then i - 1 else i;
      JoinPieces(t[1..], i');
      JoinBefore(t[..1], Pieces(t[1..], i'));
      assert t[..1] + t[1..] == t;
    }
  }

  lemma {:induction false} JoinOne(t: Word)
    ensures Join([t]) == t
  {
  }

  lemma {:induction false} JoinMore(t: Word, pieces: seq<Word>)
    requires pieces != []
    ensures Join([t] + pieces) == t + [COMMA] + Join(pieces)
  {
    assert ([t] + pieces)[1..] == pieces;
  }

  /** How many left braces there are. */
  function Opens(t: Word): nat
  {
    if t == [] then 0 else (if t[0] == LBRC then 1 else 0) + Opens(t[1..])
  }

  lemma {:induction false} OpensConcat(t: Word, u: Word)
    ensures Opens(t + u) == Opens(t) + Opens(u)
  {
    if t == [] {
      assert t + u == u;
    } else {
      assert (t + u)[1..] == t[1..] + u;
      OpensConcat(t[1..], u);
    }
  }

  lemma {:induction false} OpensPiece(pieces: seq<Word>, k: nat)
    requires k < |pieces|
    ensures Opens(pieces[k]) <= Opens(Join(pieces))
  {
    if |pieces| > 1 {
      OpensConcat(pieces[0] + [COMMA], Join(pieces[1..]));
      OpensConcat(pieces[0], [COMMA]);
      if k > 0 {
        OpensPiece(pieces[1..], k - 1);
      }
    }
  }

  /** What fits in the buffer of `globbrace`. */
  function Clip(w: Word): (r: Word)
    ensures r <= w
  {
    if |w| < MAXPATHLEN then w else w[..MAXPATHLEN - 1]
  }

  /** The word with the braces at `b` and `b + 1 + n` and all between them replaced by each alternative. */
  function Spread(s: Word, b: nat, n: nat, pieces: seq<Word>): (r: seq<Word>)
    requires b + 1 + n < |s|
    ensures |r| == |pieces| && forall k :: 0 <= k < |r| ==> r[k] == Clip(s[..b] + pieces[k] + s[b + 2 + n..])
  {
    seq(|pieces|, k requires 0 <= k < |pieces| => Clip(s[..b] + pieces[k] + s[b + 2 + n..]))
  }

  /** `globbrace`: the words the first pair of braces of `s` stands for. */
  function Alternatives(s: Word): Outcome<seq<Word>>
    requires LBRC in s
  {
    var b := Index(s, LBRC);
    assert s[..|s|] == s;
    match Closing(s[b + 1..], 0)
    case Missing(c) => Missing(c)
    case Ok(n) => Ok(Spread(s, b, n, Pieces(s[b + 1..b + 1 + n], 0)))
  }

  lemma {:induction false} OpensAround(u: Word, text: Word, rest: Word, piece: Word)
    ensures Opens(u + [LBRC] + text + [RBRC] + rest) == Opens(u) + 1 + Opens(text) + Opens(rest)
    ensures Opens(u + piece + rest) == Opens(u) + Opens(piece) + Opens(rest)
  {
    hide Opens;
    OpensConcat(u + [LBRC] + text + [RBRC], rest);
    OpensConcat(u + [LBRC] + text, [RBRC]);
    OpensConcat(u + [LBRC], text);
    OpensConcat(u, [LBRC]);
    OpensConcat(u + piece, rest);
    OpensConcat(u, piece);
    OpensOne();
  }

  lemma {:induction false} OpensOne()
    ensures Opens([LBRC]) == 1 && Opens([RBRC]) == 0
  {
  }

  /** Each alternative has fewer left braces than the word. */
  lemma {:induction false} AlternativesShrink(s: Word, k: nat)
    requires LBRC in s && Alternatives(s).Ok? && k < |Alternatives(s).value|
    ensures Opens(Alternatives(s).value[k]) < Opens(s) && |Alternatives(s).value[k]| < |s|
  {
    hide Opens, Closing, Pieces, Join, Index, Alternatives, Clip;
    var front, text, rest := Braced(s);
    var pieces := Pieces(text, 0);
    JoinPieces(text, 0);
    OpensPiece(pieces, k);
    LengthPiece(pieces, k);
    OpensAround(front, text, rest, pieces[k]);
    var w := front + pieces[k] + rest;
    assert w[..|Clip(w)|] == Clip(w);
    OpensPrefix(w, |Clip(w)|);
  }

  /** A word around its first braces, and what becomes of it. */
  lemma {:induction false} Braced(s: Word) returns (front: Word, text: Word, rest: Word)
    requires LBRC in s && Alternatives(s).Ok?
    ensures s == front + [LBRC] + text + [RBRC] + rest
    ensures var alts, pieces := Alternatives(s).value, Pieces(text, 0);
      |alts| == |pieces| && forall k :: 0 <= k < |alts| ==> alts[k] == Clip(front + pieces[k] + rest)
  {
    hide Closing, Pieces, Index, Clip;
    var b := Index(s, LBRC);
    var n := Closing(s[b + 1..], 0).value;
    front, text, rest := s[..b], s[b + 1..b + 1 + n], s[b + 2 + n..];
    assert s[b] == LBRC && s[b + 1 + n] == s[b + 1..][n] == RBRC;
  }

  lemma {:induction false} OpensPrefix(t: Word, n: nat)
    requires n <= |t|
    ensures Opens(t[..n]) <= Opens(t)
  {
    OpensConcat(t[..n], t[n..]);
    assert t[..n] + t[n..] == t;
  }

  lemma {:induction false} AllShrink(s: Word)
    requires LBRC in s && Alternatives(s).Ok?
    ensures forall k :: 0 <= k < |Alternatives(s).value| ==> Opens(Alternatives(s).value[k]) < Opens(s)
  {
    forall k | 0 <= k < |Alternatives(s).value|
      ensures Opens(Alternatives(s).value[k]) < Opens(s)
    {
      AlternativesShrink(s, k);
    }
  }

  lemma {:induction false} LengthPiece(pieces: seq<Word>, k: nat)
    requires k < |pieces|
    ensures |pieces[k]| <= |Join(pieces)|
  {
    if k > 0 {
      LengthPiece(pieces[1..], k - 1);
    }
  }

  // Expansion

  /** A word that is just `{` or `{}` is left alone. */
  predicate Exempt(s: Word)
  {
    s == [LBRC] || s == [LBRC, RBRC]
  }

  predicate Final(s: Word)
  {
    Exempt(s) || LBRC !in s
  }

  function Then(a: Outcome<seq<Word>>, b: Outcome<seq<Word>>): Outcome<seq<Word>>
  {
    if a.Missing? then a else if b.Missing? then b else Ok(a.value + b.value)
  }

  /** All that one word expands to, in order; the first character found missing makes the whole fail. */
  function Expand(s: Word): Outcome<seq<Word>>
    decreases Opens(s), 1, 0
  {
    if Final(s) then Ok([s])
    else match Alternatives(s)
      case Missing(c) => Missing(c)
      case Ok(alts) =>
        AllShrink(s);
        ExpandEach(alts, Opens(s))
  }

  function ExpandEach(ws: seq<Word>, bound: nat): Outcome<seq<Word>>
    requires forall k :: 0 <= k < |ws| ==> Opens(ws[k]) < bound
    decreases bound, 0, |ws|
  {
    if ws == [] then Ok([]) else Then(Expand(ws[0]), ExpandEach(ws[1..], bound))
  }

  function ExpandAll(ws: seq<Word>): Outcome<seq<Word>>
  {
    if ws == [] then Ok([]) else Then(Expand(ws[0]), ExpandAll(ws[1..]))
  }

  lemma {:induction false} EachIsAll(ws: seq<Word>, bound: nat)
    requires forall k :: 0 <= k < |ws| ==> Opens(ws[k]) < bound
    ensures ExpandEach(ws, bound) == ExpandAll(ws)
    decreases |ws|
  {
    hide Expand, Opens;
    if ws != [] {
      EachIsAll(ws[1..], bound);
    }
  }

  /** One expansion step, in terms of the whole list. */
  lemma {:induction false} ExpandStep(s: Word)
    ensures Expand(s) ==
      if Final(s) then Ok([s])
      else match Alternatives(s)
        case Missing(c) => Missing(c)
        case Ok(alts) => ExpandAll(alts)
  {
    hide Opens, Alternatives;
    if !Final(s) && Alternatives(s).Ok? {
      var alts := Alternatives(s).value;
      AllShrink(s);
      EachIsAll(alts, Opens(s));
    }
  }

  lemma {:induction false} ThenAssociative(a: Outcome<seq<Word>>, b: Outcome<seq<Word>>, c: Outcome<seq<Word>>)
    ensures Then(a, Then(b, c)) == Then(Then(a, b), c)
  {
    if a.Ok? && b.Ok? && c.Ok? {
      assert a.value + (b.value + c.value) == a.value + b.value + c.value;
    }
  }

  lemma {:induction false} ExpandConcat(ws: seq<Word>, vs: seq<Word>)
    ensures ExpandAll(ws + vs) == Then(ExpandAll(ws), ExpandAll(vs))
  {
    hide Expand;
    if ws == [] {
      assert ws + vs == vs;
      if ExpandAll(vs).Ok? {
        assert [] + ExpandAll(vs).value == ExpandAll(vs).value;
      }
    } else {
      assert (ws + vs)[1..] == ws[1..] + vs;
      ExpandConcat(ws[1..], vs);
      ThenAssociative(Expand(ws[0]), ExpandAll(ws[1..]), ExpandAll(vs));
    }
  }

  /** How many words the work list looks at in expanding `s`. */
  ghost function Work(s: Word): nat
    decreases Opens(s), 1, 0
  {
    if Final(s) || Alternatives(s).Missing? then 1
    else
      var alts := Alternatives(s).value;
      AllShrink(s);
      1 + WorkEach(alts, Opens(s))
  }

  ghost function WorkEach(ws: seq<Word>, bound: nat): nat
    requires forall k :: 0 <= k < |ws| ==> Opens(ws[k]) < bound
    decreases bound, 0, |ws|
  {
    if ws == [] then 0 else Work(ws[0]) + WorkEach(ws[1..], bound)
  }

  ghost function WorkAll(ws: seq<Word>): nat
  {
    if ws == [] then 0 else Work(ws[0]) + WorkAll(ws[1..])
  }

  lemma {:induction false} WorkEachIsAll(ws: seq<Word>, bound: nat)
    requires forall k :: 0 <= k < |ws| ==> Opens(ws[k]) < bound
    ensures WorkEach(ws, bound) == WorkAll(ws)
    decreases |ws|
  {
    hide Work, Opens;
    if ws != [] {
      WorkEachIsAll(ws[1..], bound);
    }
  }

  lemma {:induction false} WorkConcat(ws: seq<Word>, vs: seq<Word>)
    ensures WorkAll(ws + vs) == WorkAll(ws) + WorkAll(vs)
  {
    hide Work;
    if ws == [] {
      assert ws + vs == vs;
    } else {
      assert (ws + vs)[1..] == ws[1..] + vs;
      WorkConcat(ws[1..], vs);
    }
  }

  lemma {:induction false} WorkStep(s: Word)
    ensures Work(s) == if Final(s) || Alternatives(s).Missing? then 1 else 1 + WorkAll(Alternatives(s).value)
  {
    hide Opens, Alternatives;
    if !Final(s) && Alternatives(s).Ok? {
      var alts := Alternatives(s).value;
      AllShrink(s);
      WorkEachIsAll(alts, Opens(s));
    }
  }

  // What brace expansion means

  /** A pattern: literal characters, bracketed classes, and groups of alternatives. */
  datatype Pattern =
    | Empty
    | Literal(c: Char, rest: Pattern)
    | Class(text: Word, rest: Pattern)
    | Group(alts: Alts, rest: Pattern)

  datatype Alts = Last(only: Pattern) | More(first: Pattern, others: Alts)

  predicate Proper(p: Pattern)
  {
    match p
    case Empty => true
    case Literal(c, rest) => c !in {LBRC, RBRC, LBRK, COMMA} && Proper(rest)
    case Class(text, rest) => RBRK !in text && LBRC !in text && Proper(rest)
    case Group(alts, rest) => ProperAlts(alts) && Proper(rest)
  }

  predicate ProperAlts(alts: Alts)
  {
    match alts
    case Last(only) => Proper(only)
    case More(first, others) => Proper(first) && ProperAlts(others)
  }

  /** A pattern as a whole word: outside groups only a left brace is special. */
  predicate Whole(p: Pattern)
  {
    match p
    case Empty => true
    case Literal(c, rest) => c != LBRC && Whole(rest)
    case Class(text, rest) => LBRC !in text && Whole(rest)
    case Group(alts, rest) => ProperAlts(alts) && Whole(rest)
  }

  function Spell(p: Pattern): Word
  {
    match p
    case Empty => []
    case Literal(c, rest) => [c] + Spell(rest)
    case Class(text, rest) => [LBRK] + text + [RBRK] + Spell(rest)
    case Group(alts, rest) => [LBRC] + SpellAlts(alts) + [RBRC] + Spell(rest)
  }

  function SpellAlts(alts: Alts): Word
  {
    match alts
    case Last(only) => Spell(only)
    case More(first, others) => Spell(first) + [COMMA] + SpellAlts(others)
  }

  function Append(p: Pattern, q: Pattern): (r: Pattern)
    ensures Proper(p) && Whole(q) ==> Whole(r)
  {
    match p
    case Empty => q
    case Literal(c, rest) => Literal(c, Append(rest, q))
    case Class(text, rest) => Class(text, Append(rest, q))
    case Group(alts, rest) => Group(alts, Append(rest, q))
  }

  function Size(p: Pattern): nat
  {
    match p
    case Empty => 0
    case Literal(_, rest) => 1 + Size(rest)
    case Class(_, rest) => 1 + Size(rest)
    case Group(alts, rest) => 1 + SizeAlts(alts) + Size(rest)
  }

  function SizeAlts(alts: Alts): nat
  {
    match alts
    case Last(only) => 1 + Size(only)
    case More(first, others) => 1 + Size(first) + SizeAlts(others)
  }

  lemma {:induction false} SizeAppend(p: Pattern, q: Pattern)
    ensures Size(Append(p, q)) == Size(p) + Size(q)
  {
    match p {
      case Empty =>
      case Literal(_, rest) => SizeAppend(rest, q);
      case Class(_, rest) => SizeAppend(rest, q);
      case Group(_, rest) => SizeAppend(rest, q);
    }
  }

  /** The words the pattern stands for after the text `w`: every choice of alternatives, the first group varying
      slowest. The word `{}` stands for itself. */
  function Meaning(w: Word, p: Pattern): seq<Word>
    decreases Size(p)
  {
    match p
    case Empty => [w]
    case Literal(c, rest) => Meaning(w + [c], rest)
    case Class(text, rest) => Meaning(w + [LBRK] + text + [RBRK], rest)
    case Group(alts, rest) =>
      if w == [] && p == Group(Last(Empty), Empty) then [[LBRC, RBRC]] else MeaningAlts(w, alts, rest)
  }

  function MeaningAlts(w: Word, alts: Alts, rest: Pattern): seq<Word>
    decreases SizeAlts(alts) + Size(rest)
  {
    match alts
    case Last(only) =>
      SizeAppend(only, rest);
      Meaning(w, Append(only, rest))
    case More(first, others) =>
      SizeAppend(first, rest);
      Meaning(w, Append(first, rest)) + MeaningAlts(w, others, rest)
  }

  function Deeper(c: Char, i: nat): nat
  {
    if c == LBRC then i + 1 else if c == RBRC && i > 0 then i - 1 else i
  }

  lemma {:induction false} IndexIn(text: Word, u: Word, c: Char)
    requires c !in text
    ensures Index(text + [c] + u, c) == |text|
  {
    var t := text + [c] + u;
    assert t[|text|] == c;
    var n := Index(t, c);
    assert forall k :: 0 <= k < |text| ==> t[k] == text[k];
  }

  lemma {:induction false} OneChar(c: Char, u: Word, i: nat)
    requires c != LBRK
    ensures !(c == RBRC && i == 0) ==> Closing([c] + u, i) == Later(Closing(u, Deeper(c, i)), 1)
    ensures !(c == COMMA && i == 0) ==> Pieces([c] + u, i) == Before([c], Pieces(u, Deeper(c, i)))
  {
    assert ([c] + u)[1..] == u && ([c] + u)[..1] == [c];
  }

  lemma {:induction false} OneClass(text: Word, u: Word, i: nat)
    requires RBRK !in text
    ensures var b := [LBRK] + text + [RBRK];
      Closing(b + u, i) == Later(Closing(u, i), |b|) && Pieces(b + u, i) == Before(b, Pieces(u, i))
  {
    var b := [LBRK] + text + [RBRK];
    var t := b + u;
    assert t[1..] == text + [RBRK] + u;
    IndexIn(text, u, RBRK);
    assert t[|text| + 2..] == u && t[..|text| + 2] == b;
  }

  lemma {:induction false} BeforeBefore(u: Word, v: Word, pieces: seq<Word>)
    requires pieces != []
    ensures Before(u, Before(v, pieces)) == Before(u + v, pieces)
  {
    assert u + (v + pieces[0]) == u + v + pieces[0];
  }

  /** The text `b` is passed over at depth `i` when `u` follows. */
  ghost predicate Passed(b: Word, u: Word, i: nat)
  {
    Closing(b + u, i) == Later(Closing(u, i), |b|) && Pieces(b + u, i) == Before(b, Pieces(u, i))
  }

  lemma {:induction false} Chain(b: Word, r: Word, v: Word, i: nat)
    requires Passed(b, r + v, i) && Passed(r, v, i)
    ensures Passed(b + r, v, i)
  {
    hide Closing, Pieces, Before;
    assert b + r + v == b + (r + v);
    BeforeBefore(b, r, Pieces(v, i));
  }

  /** A whole pattern is passed over, at any depth. */
  lemma {:induction false} Passes(p: Pattern, v: Word, i: nat)
    requires Proper(p)
    ensures Passed(Spell(p), v, i)
    decreases p
  {
    hide Passed;
    match p {
      case Empty => PassedNothing(v, i);
      case Literal(c, rest) =>
        Passes(rest, v, i);
        PassedChar(c, Spell(rest) + v, i);
        Chain([c], Spell(rest), v, i);
      case Class(text, rest) =>
        Passes(rest, v, i);
        PassedClass(text, Spell(rest) + v, i);
        Chain([LBRK] + text + [RBRK], Spell(rest), v, i);
      case Group(alts, rest) =>
        Passes(rest, v, i);
        PassesGroup(alts, Spell(rest) + v, i);
        Chain([LBRC] + SpellAlts(alts) + [RBRC], Spell(rest), v, i);
    }
  }

  lemma {:induction false} PassedNothing(v: Word, i: nat)
    ensures Passed([], v, i)
  {
    hide Closing, Pieces, Before;
    assert [] + v == v;
    BeforeNothing(Pieces(v, i));
  }

  lemma {:induction false} PassedChar(c: Char, u: Word, i: nat)
    requires c !in {LBRC, RBRC, LBRK} && (c == COMMA ==> i > 0)
    ensures Passed([c], u, i)
  {
  }

  lemma {:induction false} PassedClass(text: Word, u: Word, i: nat)
    requires RBRK !in text
    ensures Passed([LBRK] + text + [RBRK], u, i)
  {
    hide Closing, Pieces, Before;
    OneClass(text, u, i);
  }

  lemma {:induction false} BeforeNothing(pieces: seq<Word>)
    requires pieces != []
    ensures Before([], pieces) == pieces
  {
    assert [] + pieces[0] == pieces[0];
  }

  lemma {:induction false} PassesGroup(alts: Alts, u: Word, i: nat)
    requires ProperAlts(alts)
    ensures Passed([LBRC] + SpellAlts(alts) + [RBRC], u, i)
    decreases alts, 1
  {
    hide Closing, Pieces, Before;
    var a := SpellAlts(alts);
    OneChar(LBRC, a + ([RBRC] + u), i);
    PassesAlts(alts, [RBRC] + u, i + 1);
    OneChar(RBRC, u, i + 1);
    assert [LBRC] + a + [RBRC] + u == [LBRC] + (a + ([RBRC] + u));
    BeforeBefore(a, [RBRC], Pieces(u, i));
    BeforeBefore([LBRC], a + [RBRC], Pieces(u, i));
    assert [LBRC] + (a + [RBRC]) == [LBRC] + a + [RBRC];
  }

  lemma {:induction false} PassesAlts(alts: Alts, u: Word, i: nat)
    requires ProperAlts(alts) && i > 0
    ensures Passed(SpellAlts(alts), u, i)
    decreases alts, 0
  {
    hide Passed;
    match alts {
      case Last(only) => Passes(only, u, i);
      case More(first, others) =>
        var a, o := Spell(first), SpellAlts(others);
        PassesAlts(others, u, i);
        PassedChar(COMMA, o + u, i);
        Chain([COMMA], o, u, i);
        Passes(first, [COMMA] + o + u, i);
        Chain(a, [COMMA] + o, u, i);
        assert a + ([COMMA] + o) == a + [COMMA] + o;
    }
  }

  function AltWords(alts: Alts): seq<Word>
  {
    match alts
    case Last(only) => [Spell(only)]
    case More(first, others) => [Spell(first)] + AltWords(others)
  }

  /** The text of a group is cut into exactly its alternatives. */
  lemma {:induction false} PiecesAlts(alts: Alts)
    requires ProperAlts(alts)
    ensures Pieces(SpellAlts(alts), 0) == AltWords(alts)
  {
    match alts {
      case Last(only) =>
        Passes(only, [], 0);
        assert Spell(only) + [] == Spell(only);
      case More(first, others) =>
        PiecesAlts(others);
        var u := [COMMA] + SpellAlts(others);
        assert u[1..] == SpellAlts(others);
        assert Pieces(u, 0) == [[]] + AltWords(others);
        Passes(first, u, 0);
        assert Spell(first) + [COMMA] + SpellAlts(others) == Spell(first) + u;
        assert Spell(first) + [] == Spell(first);
    }
  }

  /** The closing brace of a group is found, at its end. */
  lemma {:induction false} ClosesAlts(alts: Alts, u: Word)
    requires ProperAlts(alts)
    ensures Closing(SpellAlts(alts) + [RBRC] + u, 0) == Ok(|SpellAlts(alts)|)
  {
    hide Pieces, Closing;
    match alts {
      case Last(only) =>
        Passes(only, [RBRC] + u, 0);
        assert Spell(only) + [RBRC] + u == Spell(only) + ([RBRC] + u);
        ClosesHere(u);
      case More(first, others) =>
        var a, o := Spell(first), SpellAlts(others);
        ClosesAlts(others, u);
        OneChar(COMMA, o + [RBRC] + u, 0);
        Passes(first, [COMMA] + (o + [RBRC] + u), 0);
        assert a + [COMMA] + o + [RBRC] + u == a + ([COMMA] + (o + [RBRC] + u));
    }
  }

  lemma {:induction false} ClosesHere(u: Word)
    ensures Closing([RBRC] + u, 0) == Ok(0)
  {
  }

  lemma {:induction false} SpellAppend(p: Pattern, q: Pattern)
    ensures Spell(Append(p, q)) == Spell(p) + Spell(q)
  {
    match p {
      case Empty =>
      case Literal(c, rest) => SpellAppend(rest, q);
      case Class(text, rest) => SpellAppend(rest, q);
      case Group(alts, rest) => SpellAppend(rest, q);
    }
  }

  lemma {:induction false} SpellNothing(p: Pattern)
    ensures Spell(p) == [] <==> p == Empty
  {
  }

  /** The parts of a word around its first braces. */
  lemma {:induction false} Around(w: Word, a: Word, r: Word)
    ensures var s := w + ([LBRC] + a + [RBRC] + r);
      && LBRC in s && |w| + 1 + |a| < |s| && s[..|w|] == w && s[|w| + 2 + |a|..] == r && s[|w| + 1..|w| + 1 + |a|] == a
      && s[|w| + 1..] == a + [RBRC] + r && s == w + [LBRC] + (a + [RBRC] + r)
  {
  }

  /** What `globbrace` makes of a word whose first braces are a group. */
  lemma {:induction false} GroupAlternatives(w: Word, alts: Alts, rest: Pattern)
    requires LBRC !in w && ProperAlts(alts)
    ensures var s := w + Spell(Group(alts, rest));
      && LBRC in s && |w| + 1 + |SpellAlts(alts)| < |s| && s[..|w|] == w
      && s[|w| + 2 + |SpellAlts(alts)|..] == Spell(rest)
      && Alternatives(s) == Ok(Spread(s, |w|, |SpellAlts(alts)|, AltWords(alts)))
  {
    hide Closing, Pieces, Index, Spread, SpellAlts, Alternatives, Spell, AltWords;
    var a, r := SpellAlts(alts), Spell(rest);
    SpellGroup(alts, rest);
    ClosesAlts(alts, r);
    PiecesAlts(alts);
    BracedIs(w, a, r);
  }

  /** What `globbrace` makes of a word with a closed brace. */
  lemma {:induction false} BracedIs(w: Word, a: Word, r: Word)
    requires LBRC !in w && Closing(a + [RBRC] + r, 0) == Ok(|a|)
    ensures var s := w + ([LBRC] + a + [RBRC] + r);
      && LBRC in s && |w| + 1 + |a| < |s| && s[..|w|] == w && s[|w| + 2 + |a|..] == r
      && Alternatives(s) == Ok(Spread(s, |w|, |a|, Pieces(a, 0)))
  {
    hide Closing, Pieces, Index, Spread, Alternatives;
    var s, t := w + ([LBRC] + a + [RBRC] + r), a + [RBRC] + r;
    Around(w, a, r);
    IndexIn(w, t, LBRC);
    assert Index(s, LBRC) == |w| && s[|w| + 1..] == t;
    AlternativesAre(s, |w|, |a|);
  }

  lemma {:induction false} SpellGroup(alts: Alts, rest: Pattern)
    ensures Spell(Group(alts, rest)) == [LBRC] + SpellAlts(alts) + [RBRC] + Spell(rest)
  {
  }

  lemma {:induction false} AlternativesAre(s: Word, b: nat, n: nat)
    requires b + 1 + n < |s| && LBRC in s && Index(s, LBRC) == b && Closing(s[b + 1..], 0) == Ok(n)
    ensures Alternatives(s) == Ok(Spread(s, b, n, Pieces(s[b + 1..b + 1 + n], 0)))
  {
    hide Closing, Pieces, Index, Spread;
  }

  lemma {:induction false} GroupExempt(w: Word, alts: Alts, rest: Pattern)
    requires LBRC !in w
    ensures Exempt(w + Spell(Group(alts, rest))) <==> w == [] && Group(alts, rest) == Group(Last(Empty), Empty)
  {
    var s := w + Spell(Group(alts, rest));
    Around(w, SpellAlts(alts), Spell(rest));
    SpellNothing(rest);
    if alts.Last? {
      SpellNothing(alts.only);
    }
    assert s[|w|] == LBRC;
  }

  lemma {:induction false} ExpandAlts(w: Word, alts: Alts, rest: Pattern, s: Word, n: nat)
    requires LBRC !in w && ProperAlts(alts) && Whole(rest)
    requires |w| + 1 + n < |s| && s[..|w|] == w && s[|w| + 2 + n..] == Spell(rest)
    requires |w| + |SpellAlts(alts)| + |Spell(rest)| < MAXPATHLEN
    ensures ExpandAll(Spread(s, |w|, n, AltWords(alts))) == Ok(MeaningAlts(w, alts, rest))
    decreases SizeAlts(alts) + Size(rest)
  {
    hide Expand, Meaning, Spell;
    var first := if alts.Last? then alts.only else alts.first;
    SizeAppend(first, rest);
    SpellAppend(first, rest);
    ExpandMeaning(w, Append(first, rest));
    assert w + Spell(first) + Spell(rest) == w + Spell(Append(first, rest));
    var more := Spread(s, |w|, n, AltWords(alts));
    if alts.More? {
      ExpandAlts(w, alts.others, rest, s, n);
      assert AltWords(alts)[1..] == AltWords(alts.others);
    } else {
      assert AltWords(alts)[1..] == [];
      assert ExpandAll([]) == Ok([]);
      assert Meaning(w, Append(first, rest)) + [] == Meaning(w, Append(first, rest));
    }
    assert more[1..] == Spread(s, |w|, n, AltWords(alts)[1..]);
  }

  /** Brace expansion computes the meaning of every pattern that fits the buffer, whatever text without left braces
      comes before it. */
  lemma {:induction false} ExpandMeaning(w: Word, p: Pattern)
    requires LBRC !in w && Whole(p) && |w| + |Spell(p)| < MAXPATHLEN
    ensures Expand(w + Spell(p)) == Ok(Meaning(w, p))
    decreases Size(p)
  {
    hide Expand, Alternatives, ExpandAll, Exempt, Spell, Spread;
    match p {
      case Empty =>
        ExpandStep(w);
        SpellNothing(Empty);
        assert w + [] == w;
        ExemptHasBrace(w);
      case Literal(c, rest) =>
        Regroup(w, p);
        ExpandMeaning(w + [c], rest);
      case Class(text, rest) =>
        Regroup(w, p);
        ExpandMeaning(w + [LBRK] + text + [RBRK], rest);
      case Group(alts, rest) =>
        var s := w + Spell(p);
        ExpandStep(s);
        GroupAlternatives(w, alts, rest);
        GroupExempt(w, alts, rest);
        if Exempt(s) {
          ExemptGroup();
        } else {
          ExpandAlts(w, alts, rest, s, |SpellAlts(alts)|);
        }
    }
  }

  lemma {:induction false} Regroup(w: Word, p: Pattern)
    ensures p.Literal? ==> w + Spell(p) == w + [p.c] + Spell(p.rest)
    ensures p.Class? ==> w + Spell(p) == w + [LBRK] + p.text + [RBRK] + Spell(p.rest)
  {
  }

  lemma {:induction false} ExemptHasBrace(w: Word)
    requires LBRC !in w
    ensures !Exempt(w)
  {
  }

  lemma {:induction false} ExemptGroup()
    ensures [] + Spell(Group(Last(Empty), Empty)) == [LBRC, RBRC]
  {
    assert SpellAlts(Last(Empty)) == [];
  }
}
