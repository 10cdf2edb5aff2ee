/** The loops of brace expansion: `globbrace` on one word and the in-place work list of `expbrace`. */
module BraceWork {
  import opened Words
  import opened Braces

  /** `for (++pe; *pe != RBRK && *pe != EOS; pe++)`. */
  method SkipClass(s: Word, k: nat) returns (n: nat)
    requires k <= |s|
    ensures n == k + Index(s[k..], RBRK)
  {
    n := k;
    while n < |s| && s[n] != RBRK
      invariant k <= n <= |s| && n + Index(s[n..], RBRK) == k + Index(s[k..], RBRK)
    {
      assert s[n..][1..] == s[n + 1..];
      n := n + 1;
    }
  }

  lemma {:induction false} Onward(s: Word, k: nat, i: nat)
    requires k < |s| && s[k] != LBRK && !(s[k] == RBRC && i == 0)
    ensures Closing(s[k..], i) == Later(Closing(s[k + 1..], Deeper(s[k], i)), 1)
  {
    hide Closing, Pieces, Before;
    Uncons(s, k);
    OneChar(s[k], s[k + 1..], i);
  }

  lemma {:induction false} Uncons(s: Word, k: nat)
    requires k < |s|
    ensures s[k..] == [s[k]] + s[k + 1..]
  {
  }

  lemma {:induction false} OverClass(s: Word, k: nat, i: nat)
    requires k < |s| && s[k] == LBRK
    ensures var m := k + 1 + Index(s[k + 1..], RBRK);
      Closing(s[k..], i) == if m == |s| then Missing(RBRK) else Later(Closing(s[m + 1..], i), m + 1 - k)
  {
    hide Index;
    var t, n := s[k..], Index(s[k + 1..], RBRK);
    assert t[1..] == s[k + 1..];
    assert n + 1 < |t| ==> t[n + 2..] == s[k + 1 + n + 1..];
  }

  /** The check for balanced braces. */
  method FindClosing(s: Word, p: nat) returns (r: Outcome<nat>)
    requires p <= |s|
    ensures r == Closing(s[p..], 0)
  {
    hide Closing, Index;
    var i: nat, pe := 0, p;
    while pe < |s|
      invariant p <= pe <= |s| && Later(Closing(s[pe..], i), pe - p) == Closing(s[p..], 0)
    {
      if s[pe] == LBRK {
        OverClass(s, pe, i);
        var m := SkipClass(s, pe + 1);
        if m == |s| {
          return Missing(RBRK);
        }
        pe := m;
      } else if s[pe] == RBRC && i == 0 {
        assert s[pe..] == [RBRC] + s[pe + 1..];
        ClosesHere(s[pe + 1..]);
        return Ok(pe - p);
      } else {
        Onward(s, pe, i);
        if s[pe] == LBRC {
          i := i + 1;
        } else if s[pe] == RBRC {
          i := i - 1;
        }
      }
      pe := pe + 1;
    }
    NothingCloses(i);
    assert s[pe..] == [];
    return Missing(RBRC);
  }

  lemma {:induction false} NothingCloses(i: nat)
    ensures Closing([], i) == Missing(RBRC)
  {
  }

  /** The second scan at `pm`, at depth `i`: the pieces before `pl` are done, and the next one starts there. */
  ghost predicate Cutting(s: Word, p: nat, pl: nat, pm: nat, pe: nat, i: nat, done: seq<Word>)
  {
    && p <= pl <= pm <= pe < |s| && Closing(s[pm..], i) == Ok(pe - pm)
    && done + Before(s[pl..pm], Pieces(s[pm..pe], i)) == Pieces(s[p..pe], 0)
  }

  lemma {:induction false} CutStart(s: Word, p: nat, pe: nat)
    requires p <= pe < |s| && Closing(s[p..], 0) == Ok(pe - p)
    ensures Cutting(s, p, p, p, pe, 0, [])
  {
    hide Closing, Pieces;
    BeforeNothing(Pieces(s[p..pe], 0));
    assert s[p..p] == [];
    assert [] + Pieces(s[p..pe], 0) == Pieces(s[p..pe], 0);
  }

  lemma {:induction false} CutClass(s: Word, p: nat, pl: nat, pm: nat, pe: nat, i: nat, done: seq<Word>)
    requires Cutting(s, p, pl, pm, pe, i, done) && s[pm] == LBRK
    ensures var m := pm + 1 + Index(s[pm + 1..], RBRK); m < |s| && Cutting(s, p, pl, m + 1, pe, i, done)
  {
    hide Closing, Pieces, Index, Before;
    OverClass(s, pm, i);
    var n := Index(s[pm + 1..], RBRK);
    var m := pm + 1 + n;
    var text := s[pm + 1..][..n];
    assert s[pm..pe] == [LBRK] + text + [RBRK] + s[m + 1..pe];
    OneClass(text, s[m + 1..pe], i);
    BeforeBefore(s[pl..pm], [LBRK] + text + [RBRK], Pieces(s[m + 1..pe], i));
    assert s[pl..pm] + ([LBRK] + text + [RBRK]) == s[pl..m + 1];
  }

  lemma {:induction false} CutChar(s: Word, p: nat, pl: nat, pm: nat, pe: nat, i: nat, done: seq<Word>)
    requires Cutting(s, p, pl, pm, pe, i, done) && pm < pe && s[pm] != LBRK && !(s[pm] == COMMA && i == 0)
    ensures !(s[pm] == RBRC && i == 0) && Cutting(s, p, pl, pm + 1, pe, Deeper(s[pm], i), done)
  {
    hide Closing, Pieces, Before;
    if s[pm] == RBRC && i == 0 {
      Uncons(s, pm);
      ClosesHere(s[pm + 1..]);
    } else {
      Onward(s, pm, i);
      assert s[pm..pe] == [s[pm]] + s[pm + 1..pe];
      OneChar(s[pm], s[pm + 1..pe], i);
      BeforeBefore(s[pl..pm], [s[pm]], Pieces(s[pm + 1..pe], Deeper(s[pm], i)));
      assert s[pl..pm] + [s[pm]] == s[pl..pm + 1];
    }
  }

  lemma {:induction false} CutComma(s: Word, p: nat, pl: nat, pm: nat, pe: nat, done: seq<Word>)
    requires Cutting(s, p, pl, pm, pe, 0, done) && pm < pe && s[pm] == COMMA
    ensures Cutting(s, p, pm + 1, pm + 1, pe, 0, done + [s[pl..pm]])
  {
    hide Closing;
    Onward(s, pm, 0);
    var t, u := s[pm..pe], s[pm + 1..pe];
    assert t[1..] == u;
    assert s[pm + 1..pm + 1] == [];
    BeforeNothing(Pieces(u, 0));
    assert s[pl..pm] + [] == s[pl..pm];
    assert Before(s[pl..pm], Pieces(t, 0)) == [s[pl..pm]] + Pieces(u, 0);
    assert done + ([s[pl..pm]] + Pieces(u, 0)) == done + [s[pl..pm]] + Pieces(u, 0);
  }

  lemma {:induction false} CutEnd(s: Word, p: nat, pl: nat, pe: nat, i: nat, done: seq<Word>)
    requires Cutting(s, p, pl, pe, pe, i, done)
    ensures i == 0 && s[pe] == RBRC && done + [s[pl..pe]] == Pieces(s[p..pe], 0)
  {
    assert s[pe..pe] == [];
    assert s[pl..pe] + [] == s[pl..pe];
    if i > 0 {
      Onward(s, pe, i);
    }
  }

  /** `globbrace`: one word for every alternative of the first braces. */
  method Globbrace(s: Word, b: nat) returns (r: Outcome<seq<Word>>)
    requires b < |s| && b == Index(s, LBRC)
    ensures LBRC in s && r == Alternatives(s)
  {
    hide Closing, Index, Pieces, Spread, Cutting;
    assert s[b] in s;
    var p := b + 1;
    var closing := FindClosing(s, p);
    if closing.Missing? {
      return Missing(closing.c);
    }
    var n := closing.value;
    var pe := p + n;
    var i: nat, pl, pm, vl := 0, p, p, [];
    ghost var done := [];
    CutStart(s, p, pe);
    while pm != pe
      invariant Cutting(s, p, pl, pm, pe, i, done) && p <= pl <= pm <= pe && vl == Spread(s, b, n, done)
      decreases pe - pm
    {
      if s[pm] == LBRK {
        CutClass(s, p, pl, pm, pe, i, done);
        pm := SkipClass(s, pm + 1);
      } else if s[pm] == COMMA && i == 0 {
        CutComma(s, p, pl, pm, pe, done);
        SpreadMore(s, b, n, done, s[pl..pm]);
        done := done + [s[pl..pm]];
        vl := vl + [Clip(s[..b] + s[pl..pm] + s[pe + 1..])];
        pl := pm + 1;
      } else {
        CutChar(s, p, pl, pm, pe, i, done);
        if s[pm] == LBRC {
          i := i + 1;
        } else if s[pm] == RBRC {
          i := i - 1;
        }
      }
      pm := pm + 1;
      CutWithin(s, p, pl, pm, pe, i, done);
    }
    CutEnd(s, p, pl, pe, i, done);
    SpreadMore(s, b, n, done, s[pl..pe]);
    r := Ok(vl + [Clip(s[..b] + s[pl..pm] + s[pe + 1..])]);
  }

  lemma {:induction false} CutWithin(s: Word, p: nat, pl: nat, pm: nat, pe: nat, i: nat, done: seq<Word>)
    requires Cutting(s, p, pl, pm, pe, i, done)
    ensures p <= pl <= pm <= pe
  {
  }

  lemma {:induction false} SpreadMore(s: Word, b: nat, n: nat, done: seq<Word>, piece: Word)
    requires b + 1 + n < |s|
    ensures Spread(s, b, n, done + [piece]) == Spread(s, b, n, done) + [Clip(s[..b] + piece + s[b + 2 + n..])]
  {
    hide Spread;
  }

  // The work list

  datatype Slot = Null | Entry(word: Word)

  /** A null-terminated vector of words. */
  ghost predicate Vector(nv: array<Slot>, ws: seq<Word>)
    reads nv
  {
    |ws| < nv.Length && nv[|ws|] == Null && forall k :: 0 <= k < |ws| ==> nv[k] == Entry(ws[k])
  }

  /** What is still to come, once the words before `vl` are final. */
  ghost function Outlook(ws: seq<Word>, vl: nat): Outcome<seq<Word>>
    requires vl <= |ws|
  {
    Then(Ok(ws[..vl]), ExpandAll(ws[vl..]))
  }

  lemma {:induction false} OutlookFinal(ws: seq<Word>, vl: nat)
    requires vl < |ws| && Final(ws[vl])
    ensures Outlook(ws, vl) == Outlook(ws, vl + 1) && WorkAll(ws[vl + 1..]) < WorkAll(ws[vl..])
  {
    hide Expand, Work, Final;
    ExpandStep(ws[vl]);
    WorkStep(ws[vl]);
    assert ws[vl..] == [ws[vl]] + ws[vl + 1..];
    ThenAssociative(Ok(ws[..vl]), Ok([ws[vl]]), ExpandAll(ws[vl + 1..]));
    assert ws[..vl] + [ws[vl]] == ws[..vl + 1];
  }

  lemma {:induction false} OutlookMissing(ws: seq<Word>, vl: nat)
    requires vl < |ws| && !Final(ws[vl]) && Alternatives(ws[vl]).Missing?
    ensures Outlook(ws, vl) == Missing(Alternatives(ws[vl]).c)
  {
  }

  lemma {:induction false} OutlookSpread(ws: seq<Word>, vl: nat)
    requires vl < |ws| && !Final(ws[vl]) && Alternatives(ws[vl]).Ok?
    ensures var next := ws[..vl] + Alternatives(ws[vl]).value + ws[vl + 1..];
      Outlook(ws, vl) == Outlook(next, vl) && WorkAll(next[vl..]) < WorkAll(ws[vl..])
  {
    hide Expand, Work, Exempt, Alternatives;
    var alts := Alternatives(ws[vl]).value;
    var next := ws[..vl] + alts + ws[vl + 1..];
    ExpandStep(ws[vl]);
    WorkStep(ws[vl]);
    assert ws[vl..] == [ws[vl]] + ws[vl + 1..];
    assert next[vl..] == alts + ws[vl + 1..] && next[..vl] == ws[..vl];
    ExpandConcat(alts, ws[vl + 1..]);
    WorkConcat(alts, ws[vl + 1..]);
  }

  /** Moves the entries behind `vp`, the null at `el` included, up by `len`. */
  method ShiftUp(nv: array<Slot>, vp: nat, el: nat, len: nat)
    requires vp <= el && el + len < nv.Length && len > 0
    modifies nv
    ensures forall k :: 0 <= k <= vp ==> nv[k] == old(nv[k])
    ensures forall k :: vp + len < k <= el + len ==> nv[k] == old(nv[k - len])
  {
    var bp := el;
    while bp != vp
      invariant vp <= bp <= el
      invariant forall k :: 0 <= k <= bp ==> nv[k] == old(nv[k])
      invariant forall k :: bp + len < k <= el + len ==> nv[k] == old(nv[k - len])
    {
      nv[bp + len] := nv[bp];
      bp := bp - 1;
    }
  }

  /** Puts the words of `bl` in place of the one at `vl`. */
  method SpreadOut(nv: array<Slot>, vl: nat, el: nat, bl: seq<Word>, ghost ws: seq<Word>)
    requires Vector(nv, ws) && vl < el == |ws| && |bl| > 1 && el + |bl| - 1 < nv.Length
    modifies nv
    ensures Vector(nv, ws[..vl] + bl + ws[vl + 1..])
  {
    nv[vl] := Entry(bl[0]);
    var len := |bl| - 1;
    ShiftUp(nv, vl, el, len);
    ghost var next := ws[..vl] + bl + ws[vl + 1..];
    var k := vl + 1;
    while k <= vl + len
      invariant vl < k <= vl + len + 1
      invariant forall m :: 0 <= m < k || vl + len < m < el + len ==> nv[m] == Entry(next[m])
      invariant nv[el + len] == Null
    {
      nv[k] := Entry(bl[k - vl]);
      k := k + 1;
    }
  }

  const GLOBSPACE := 100

  /** Room for `len` more words, in a new vector if need be. */
  method Grow(nv: array<Slot>, el: nat, len: nat, ghost ws: seq<Word>) returns (r: array<Slot>)
    requires Vector(nv, ws) && el == |ws|
    ensures Vector(r, ws) && el + len <= r.Length && (r == nv || fresh(r))
  {
    r := nv;
    if el + len >= nv.Length {
      var l := el + len - nv.Length;
      r := new Slot[nv.Length + if GLOBSPACE > l then GLOBSPACE else l](_ => Null);
      var k := 0;
      while k < nv.Length
        invariant k <= nv.Length && fresh(r) && forall m :: 0 <= m < k ==> r[m] == nv[m]
      {
        r[k] := nv[k];
        k := k + 1;
      }
    }
  }

  method Strchr(s: Word, c: Char) returns (b: nat)
    ensures b == Index(s, c) && (b < |s| <==> c in s)
  {
    b := 0;
    while b < |s| && s[b] != c
      invariant b <= |s| && b + Index(s[b..], c) == Index(s, c) && c !in s[..b]
    {
      assert s[b..][1..] == s[b + 1..];
      b := b + 1;
    }
    assert s[..|s|] == s;
  }

  /** One word of the work list: left as it is, or replaced by its alternatives to be looked at again. */
  method LookAt(nv: array<Slot>, vl: nat, el: nat, ghost ws: seq<Word>)
    returns (r: array<Slot>, vl': nat, el': nat, err: Outcome<()>, ghost ws': seq<Word>)
    requires Vector(nv, ws) && vl < el == |ws|
    modifies nv
    ensures Vector(r, ws') && el' == |ws'| && vl' <= el' && (r == nv || fresh(r))
    ensures err.Missing? ==> Outlook(ws, vl) == Missing(err.c)
    ensures err.Ok? ==> Outlook(ws', vl') == Outlook(ws, vl) && WorkAll(ws'[vl'..]) < WorkAll(ws[vl..])
  {
    hide Alternatives, Outlook, WorkAll, Index;
    r, vl', el', err, ws' := nv, vl, el, Ok(()), ws;
    var s := nv[vl].word;
    var b := Strchr(s, LBRC);
    if Exempt(s) || b == |s| {
      OutlookFinal(ws, vl);
      vl' := vl + 1;
      return;
    }
    var bl := Globbrace(s, b);
    if bl.Missing? {
      OutlookMissing(ws, vl);
      err := Missing(bl.c);
      return;
    }
    OutlookSpread(ws, vl);
    AlternativesSome(s);
    ws' := ws[..vl] + bl.value + ws[vl + 1..];
    if |bl.value| == 1 {
      nv[vl] := Entry(bl.value[0]);
      return;
    }
    r := Grow(nv, el, |bl.value|, ws);
    SpreadOut(r, vl, el, bl.value, ws);
    el' := el + (|bl.value| - 1);
  }

  lemma {:induction false} AlternativesSome(s: Word)
    requires LBRC in s && Alternatives(s).Ok?
    ensures Alternatives(s).value != []
  {
    hide Closing, Pieces, Index;
  }

  /** `expbrace`: the vector becomes, word by word and in order, the expansion of what it held. */
  method Expbrace(nv0: array<Slot>, ghost ws0: seq<Word>)
    returns (nv: array<Slot>, err: Outcome<()>, ghost ws: seq<Word>)
    requires Vector(nv0, ws0)
    modifies nv0
    ensures match ExpandAll(ws0)
      case Ok(all) => err.Ok? && ws == all && Vector(nv, all)
      case Missing(c) => err == Missing(c)
    ensures nv == nv0 || fresh(nv)
  {
    hide Outlook, WorkAll, ExpandAll;
    nv, err, ws := nv0, Ok(()), ws0;
    var el := 0;
    while nv[el] != Null
      invariant el <= |ws|
      decreases |ws| - el
    {
      el := el + 1;
    }
    var vl: nat := 0;
    OutlookStart(ws);
    while nv[vl] != Null
      invariant Vector(nv, ws) && vl <= el == |ws| && (nv == nv0 || fresh(nv)) && err.Ok?
      invariant Outlook(ws, vl) == ExpandAll(ws0)
      decreases WorkAll(ws[vl..])
    {
      nv, vl, el, err, ws := LookAt(nv, vl, el, ws);
      if err.Missing? {
        return;
      }
    }
    OutlookEnd(ws);
  }

  lemma {:induction false} OutlookStart(ws: seq<Word>)
    ensures Outlook(ws, 0) == ExpandAll(ws)
  {
    hide ExpandAll;
    assert ws[0..] == ws && ws[..0] == [];
    if ExpandAll(ws).Ok? {
      assert [] + ExpandAll(ws).value == ExpandAll(ws).value;
    }
  }

  lemma {:induction false} OutlookEnd(ws: seq<Word>)
    ensures Outlook(ws, |ws|) == Ok(ws)
  {
    assert ws[|ws|..] == [] && ws[..|ws|] == ws && ws + [] == ws;
    assert ExpandAll([]) == Ok([]);
  }
}
