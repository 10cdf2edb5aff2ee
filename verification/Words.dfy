/** Shell words and their collating order: `s_strcmp` and the name comparison of the variable store. */
module Words {

  /** A `Char` of the shell is a 16-bit signed short; NUL never occurs inside a word. */
  type Char = c: int | -0x8000 <= c < 0x8000 && c != 0 witness 1

  type Word = seq<Char>

  datatype Option<T> = None | Some(value: T)

  /** The word spelt `s`. */
  predicate Is(w: Word, s: string)
  {
    |w| == |s| && forall i :: 0 <= i < |s| ==> w[i] == s[i] as int
  }

  /** The unit at position `i` of the NUL-terminated form of `w`. */
  function At(w: Word, i: nat): (c: int)
  {
    if i < |w| then w[i] else 0
  }

  /** `c & TRIM`. */
  function Unquoted(c: Char): (r: int)
    ensures 0 <= r < 0x8000
  {
    (c as int) % 0x8000
  }

  /** A unit that is nothing but the quote bit. */
  const MARK: Char := -0x8000

  /** `t` is `w` up to its first bare quote mark, with the quote bit of every unit gone. */
  ghost predicate Trimmed(w: Word, t: Word)
  {
    && |t| <= |w| && (|t| < |w| ==> w[|t|] == MARK)
    && (forall k :: 0 <= k < |t| ==> w[k] != MARK)
    && (forall k :: 0 <= k < |t| ==> t[k] as int == (w[k] as int) + if w[k] < 0 then 0x8000 else 0)
  }

  ghost predicate AllTrimmed(vec: seq<Word>, r: seq<Word>)
  {
    |r| == |vec| && forall i :: 0 <= i < |vec| ==> Trimmed(vec[i], r[i])
  }

  /** No unit of these words has the quote bit. */
  ghost predicate Unmarked(vec: seq<Word>)
  {
    forall i, k :: 0 <= i < |vec| && 0 <= k < |vec[i]| ==> vec[i][k] > 0
  }

  /** `trim` on one word: the quote bit is cleared; a unit that was only a quote bit becomes the terminator. */
  function Trim(w: Word): (t: Word)
    ensures Trimmed(w, t)
  {
    if w == [] || Unquoted(w[0]) == 0 then [] else [Unquoted(w[0])] + Trim(w[1..])
  }

  /** `trim`. */
  function TrimAll(vec: seq<Word>): (r: seq<Word>)
    ensures AllTrimmed(vec, r)
  {
    seq(|vec|, i requires 0 <= i < |vec| => Trim(vec[i]))
  }

  /** Trimming is determined by what it does to each unit, and leaves words without quote bits alone. */
  lemma {:induction false} TrimmedOnce(vec: seq<Word>, r: seq<Word>)
    requires AllTrimmed(vec, r)
    ensures r == TrimAll(vec) && (Unmarked(vec) ==> r == vec)
  {
    forall i | 0 <= i < |vec| ensures r[i] == Trim(vec[i]) && (Unmarked(vec) ==> r[i] == vec[i]) {
      assert Trimmed(vec[i], r[i]) && Trimmed(vec[i], Trim(vec[i]));
    }
  }

  /** What `s_strcmp` returns once its scan has stopped at position `i`. */
  function Verdict(a: Word, b: Word, i: nat): int
  {
    if At(a, i) == 0 && At(b, i) == 0 then 0
    else if At(a, i) == 0 then -1
    else if At(b, i) == 0 then 1
    else At(a, i) - At(b, i)
  }

  /** The position at which the scan of `s_strcmp` stops when it starts at `i`. */
  function Stop(a: Word, b: Word, i: nat): (k: nat)
    ensures i <= k
    decreases |a| - i
  {
    if At(a, i) != 0 && At(a, i) == At(b, i) then Stop(a, b, i + 1) else i
  }

  function Strcmp(a: Word, b: Word): int
  {
    Verdict(a, b, Stop(a, b, 0))
  }

  /** The scanning loop of `s_strcmp`. */
  method ScanCompare(a: Word, b: Word) returns (r: int)
    ensures r == Strcmp(a, b)
  {
    var i := 0;
    while At(a, i) != 0 && At(a, i) == At(b, i)
      invariant Stop(a, b, 0) == Stop(a, b, i)
      decreases |a| - i
    {
      i := i + 1;
    }
    if At(a, i) == 0 && At(b, i) == 0 {
      return 0;
    } else if At(a, i) == 0 {
      return -1;
    } else if At(b, i) == 0 {
      return 1;
    } else {
      return At(a, i) - At(b, i);
    }
  }

  /** The comparison used by the store: difference of first units, then `s_strcmp`. */
  function NameCmp(a: Word, b: Word): int
  {
    if At(a, 0) - At(b, 0) != 0 then At(a, 0) - At(b, 0) else Strcmp(a, b)
  }

  /** The comparison as the store's loops perform it. */
  method CompareNames(a: Word, b: Word) returns (cmp: int)
    ensures cmp == NameCmp(a, b) && (cmp == 0 <==> a == b)
  {
    CmpZeroIffEqual(a, b);
    cmp := At(a, 0) - At(b, 0);
    if cmp == 0 {
      cmp := ScanCompare(a, b);
    }
  }

  predicate Less(a: Word, b: Word)
  {
    NameCmp(a, b) < 0
  }

  /** The scan stops at the length of the longest common prefix. */
  lemma {:induction false} StopIsCommonPrefix(a: Word, b: Word, i: nat)
    requires i <= |a| && i <= |b| && a[..i] == b[..i]
    ensures var k := Stop(a, b, i);
      && k <= |a| && k <= |b| && a[..k] == b[..k]
      && (k < |a| && k < |b| ==> a[k] != b[k])
    decreases |a| - i
  {
    if i < |a| && i < |b| && a[i] == b[i] {
      assert a[..i + 1] == a[..i] + [a[i]];
      assert b[..i + 1] == b[..i] + [b[i]];
      StopIsCommonPrefix(a, b, i + 1);
    }
  }

  /** Any position that satisfies the characterisation is the stopping position. */
  lemma StopIs(a: Word, b: Word, k: nat)
    requires k <= |a| && k <= |b| && a[..k] == b[..k]
    requires k < |a| && k < |b| ==> a[k] != b[k]
    ensures Stop(a, b, 0) == k
  {
    StopIsCommonPrefix(a, b, 0);
  }

  lemma CmpZeroIffEqual(a: Word, b: Word)
    ensures NameCmp(a, b) == 0 <==> a == b
  {
    StopIsCommonPrefix(a, b, 0);
    var k := Stop(a, b, 0);
    assert a == a[..k] + a[k..] && b == b[..k] + b[k..];
  }

  lemma CmpAntisymmetric(a: Word, b: Word)
    ensures NameCmp(a, b) < 0 <==> NameCmp(b, a) > 0
  {
    StopIsCommonPrefix(a, b, 0);
    StopIs(b, a, Stop(a, b, 0));
  }

  /** Below the first unit the end of a word collates lowest, even below negative units. */
  lemma CmpTransitive(a: Word, b: Word, c: Word)
    requires Less(a, b) && Less(b, c)
    ensures Less(a, c)
  {
    StopIsCommonPrefix(a, b, 0);
    StopIsCommonPrefix(b, c, 0);
    var i, j := Stop(a, b, 0), Stop(b, c, 0);
    var k := if i < j then i else j;
    assert a[..k] == c[..k] by {
      assert a[..k] == a[..i][..k] == b[..i][..k] == b[..k];
      assert c[..k] == c[..j][..k] == b[..j][..k] == b[..k];
    }
    assert i < j && i < |b| ==> b[i] == b[..j][i] == c[..j][i] == c[i];
    assert j < i && j < |b| ==> b[j] == b[..i][j] == a[..i][j] == a[j];
    assert k < |a| && k < |c| ==> a[k] != c[k];
    StopIs(a, c, k);
    if k > 0 {
      assert a[0] == a[..k][0] && c[0] == c[..k][0] && b[0] == b[..i][0] == a[..i][0];
    }
  }

  /** `a` comes before `b`: at the first place where they differ its unit is the smaller one, or it ends there. Only a
      negative unit at the very start comes before the empty word. */
  ghost predicate Precedes(a: Word, b: Word)
  {
    exists k :: 0 <= k <= |a| && k <= |b| && a[..k] == b[..k] &&
      if k < |a| && k < |b| then a[k] < b[k]
      else if k == 0 && |a| != |b| then (if a == [] then b[0] > 0 else a[0] < 0)
      else k == |a| < |b|
  }

  lemma {:induction false} LessIsPrecedes(a: Word, b: Word)
    ensures Less(a, b) <==> Precedes(a, b)
  {
    hide Stop;
    StopIsCommonPrefix(a, b, 0);
    var n := Stop(a, b, 0);
    assert n > 0 ==> a[0] == a[..n][0] == b[..n][0] == b[0];
    if Precedes(a, b) {
      var k :| 0 <= k <= |a| && k <= |b| && a[..k] == b[..k] &&
        if k < |a| && k < |b| then a[k] < b[k]
        else if k == 0 && |a| != |b| then (if a == [] then b[0] > 0 else a[0] < 0)
        else k == |a| < |b|;
      StopIs(a, b, k);
    }
  }

  /** `NameCmp` is a strict total order on words. */
  lemma LessIsStrictTotalOrder()
    ensures forall a: Word :: !Less(a, a)
    ensures forall a: Word, b: Word :: a != b ==> Less(a, b) != Less(b, a)
    ensures forall a: Word, b: Word, c: Word :: Less(a, b) && Less(b, c) ==> Less(a, c)
  {
    forall a: Word ensures !Less(a, a) { CmpZeroIffEqual(a, a); }
    forall a: Word, b: Word | a != b ensures Less(a, b) != Less(b, a) {
      CmpZeroIffEqual(a, b);
      CmpZeroIffEqual(b, a);
      CmpAntisymmetric(a, b);
      CmpAntisymmetric(b, a);
    }
    forall a: Word, b: Word, c: Word | Less(a, b) && Less(b, c) ensures Less(a, c) { CmpTransitive(a, b, c); }
  }
}
