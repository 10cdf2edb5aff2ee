/** Whole-stream meaning of dd's `conv=block` and `conv=unblock`, and the byte automaton between the two. */
module DdSpec {

  type Byte = b: int | 0 <= b < 256

  const NL: Byte := 10
  const SP: Byte := 32

  /** `ctab`: absent, or a translation of every byte. */
  datatype Table = NoTable | Translate(f: Byte -> Byte) {
    function Of(c: Byte): Byte { if NoTable? then c else f(c) }
  }

  function Mapped(tab: Table, s: seq<Byte>): (r: seq<Byte>)
    ensures |r| == |s|
  {
    seq(|s|, i requires 0 <= i < |s| => tab.Of(s[i]))
  }

  function Fill(c: Byte, n: nat): (r: seq<Byte>)
    ensures |r| == n
  {
    seq(n, _ => c)
  }

  /** The index of the first newline, or the length when there is none. */
  function LineEnd(s: seq<Byte>): (k: nat)
    ensures k <= |s| && (k < |s| ==> s[k] == NL) && NL !in s[..k]
  {
    if s == [] || s[0] == NL then 0
    else
      var k := LineEnd(s[1..]);
      assert s[..k + 1] == [s[0]] + s[1..][..k];
      k + 1
  }

  /** One fixed-length record: the line cut to `n`, translated, and padded with translated spaces. */
  function Record(n: nat, tab: Table, line: seq<Byte>): (r: seq<Byte>)
    ensures |r| == n
  {
    if n <= |line| then Mapped(tab, line[..n]) else Mapped(tab, line) + Fill(tab.Of(SP), n - |line|)
  }

  /** What `block_close` writes for an unfinished line: the padding is translated, the bytes are not. */
  function TailRecord(n: nat, tab: Table, tail: seq<Byte>): (r: seq<Byte>)
    requires |tail| <= n
    ensures |r| == n
  {
    tail + Fill(tab.Of(SP), n - |tail|)
  }

  /** `conv=block` on a whole stream: one record per line. */
  function Blocked(n: nat, tab: Table, s: seq<Byte>): seq<Byte>
    decreases |s|
  {
    if s == [] then []
    else
      var k := LineEnd(s);
      if k < |s| then Record(n, tab, s[..k]) + Blocked(n, tab, s[k + 1..])
      else if n <= k then Record(n, tab, s)
      else TailRecord(n, tab, s)
  }

  /** The converter between two reads: bytes emitted, the unfinished line, and whether a cut line is being skipped. */
  datatype State = State(out: seq<Byte>, pending: seq<Byte>, skipping: bool)

  ghost predicate Wf(n: nat, st: State)
  {
    |st.pending| < n && NL !in st.pending && (st.skipping ==> st.pending == [])
  }

  function Eat(n: nat, tab: Table, st: State, c: Byte): State
  {
    if st.skipping then State(st.out, [], c != NL)
    else if c == NL then State(st.out + Record(n, tab, st.pending), [], false)
    else if |st.pending| + 1 >= n then State(st.out + Record(n, tab, st.pending + [c]), [], true)
    else State(st.out, st.pending + [c], false)
  }

  function Run(n: nat, tab: Table, st: State, s: seq<Byte>): State
    decreases |s|
  {
    if s == [] then st else Run(n, tab, Eat(n, tab, st, s[0]), s[1..])
  }

  /** What `block_close` adds. */
  function Closed(n: nat, tab: Table, st: State): seq<Byte>
    requires |st.pending| <= n
  {
    if st.pending == [] then st.out else st.out + TailRecord(n, tab, st.pending)
  }

  lemma {:induction false} RunConcat(n: nat, tab: Table, st: State, a: seq<Byte>, b: seq<Byte>)
    ensures Run(n, tab, st, a + b) == Run(n, tab, Run(n, tab, st, a), b)
    decreases |a|
  {
    if a == [] {
      assert a + b == b;
    } else {
      assert (a + b)[1..] == a[1..] + b;
      RunConcat(n, tab, Eat(n, tab, st, a[0]), a[1..], b);
    }
  }

  lemma {:induction false} RunWf(n: nat, tab: Table, st: State, s: seq<Byte>)
    requires Wf(n, st)
    ensures Wf(n, Run(n, tab, st, s))
    decreases |s|
  {
    if s != [] { RunWf(n, tab, Eat(n, tab, st, s[0]), s[1..]); }
  }

  /** A short stretch without a newline only accumulates. */
  lemma {:induction false} RunShort(n: nat, tab: Table, out: seq<Byte>, p: seq<Byte>, s: seq<Byte>)
    requires NL !in s && |p| + |s| < n
    ensures Run(n, tab, State(out, p, false), s) == State(out, p + s, false)
    decreases |s|
  {
    if s == [] {
      assert p + s == p;
    } else {
      assert p + s == (p + [s[0]]) + s[1..];
      RunShort(n, tab, out, p + [s[0]], s[1..]);
    }
  }

  /** While skipping, everything up to and including the next newline is dropped. */
  lemma {:induction false} RunSkip(n: nat, tab: Table, out: seq<Byte>, s: seq<Byte>)
    ensures var k := LineEnd(s);
      Run(n, tab, State(out, [], true), s) ==
      if k < |s| then Run(n, tab, State(out, [], false), s[k + 1..]) else State(out, [], true)
    decreases |s|
  {
    if s != [] && s[0] != NL {
      RunSkip(n, tab, out, s[1..]);
      assert LineEnd(s) < |s| ==> s[LineEnd(s) + 1..] == s[1..][LineEnd(s[1..]) + 1..];
    }
  }

  /** A line that ends within `n` bytes becomes a padded record. */
  lemma {:induction false} RunLine(n: nat, tab: Table, out: seq<Byte>, s: seq<Byte>)
    requires LineEnd(s) < |s| && LineEnd(s) < n
    ensures var k := LineEnd(s);
      Run(n, tab, State(out, [], false), s) == Run(n, tab, State(out + Record(n, tab, s[..k]), [], false), s[k + 1..])
  {
    var k := LineEnd(s);
    assert s == s[..k] + s[k..] && s[k..][1..] == s[k + 1..];
    RunConcat(n, tab, State(out, [], false), s[..k], s[k..]);
    RunShort(n, tab, out, [], s[..k]);
    assert [] + s[..k] == s[..k];
  }

  lemma {:induction false} WithinLine(s: seq<Byte>, n: nat)
    requires 0 < n <= LineEnd(s)
    ensures NL !in s[..n - 1] && s[n - 1] != NL
  {
    assert s[..n - 1] == s[..LineEnd(s)][..n - 1] && s[n - 1] == s[..LineEnd(s)][n - 1];
  }

  /** `n` bytes without a newline become a full record, and the rest of the line is skipped. */
  lemma {:induction false} RunFull(n: nat, tab: Table, out: seq<Byte>, s: seq<Byte>)
    requires 0 < n <= LineEnd(s)
    ensures Run(n, tab, State(out, [], false), s) == Run(n, tab, State(out + Record(n, tab, s[..n]), [], true), s[n..])
  {
    hide Run, Record, LineEnd;
    var a, c, rest := s[..n - 1], s[n - 1], s[n - 1..];
    WithinLine(s, n);
    assert s == a + rest && rest[0] == c && rest[1..] == s[n..];
    RunConcat(n, tab, State(out, [], false), a, rest);
    RunShort(n, tab, out, [], a);
    assert [] + a == a && a + [c] == s[..n];
    RunStep(n, tab, State(out, a, false), rest);
  }

  lemma {:induction false} RunStep(n: nat, tab: Table, st: State, s: seq<Byte>)
    requires s != []
    ensures Run(n, tab, st, s) == Run(n, tab, Eat(n, tab, st, s[0]), s[1..])
  {
  }

  lemma {:induction false} LineEndIs(s: seq<Byte>, k: nat)
    requires k <= |s| && NL !in s[..k] && (k < |s| ==> s[k] == NL)
    ensures LineEnd(s) == k
  {
  }

  /** A line of `n` bytes or more becomes a cut record, wherever it ends. */
  lemma {:induction false} RunCut(n: nat, tab: Table, out: seq<Byte>, s: seq<Byte>)
    requires 0 < n <= LineEnd(s)
    ensures var k := LineEnd(s);
      var r := out + Record(n, tab, s[..k]);
      Run(n, tab, State(out, [], false), s) ==
      if k < |s| then Run(n, tab, State(r, [], false), s[k + 1..]) else State(r, [], true)
  {
    var k := LineEnd(s);
    assert s[..k][..n] == s[..n] == s[..n][..n];
    RunFull(n, tab, out, s);
    assert s[n..][..k - n] == s[..k][n..];
    LineEndIs(s[n..], k - n);
    RunSkip(n, tab, out + Record(n, tab, s[..k]), s[n..]);
    assert k < |s| ==> s[n..][k - n + 1..] == s[k + 1..];
  }

  /** The automaton computes the whole-stream function. */
  lemma {:induction false} RunIsBlocked(n: nat, tab: Table, out: seq<Byte>, s: seq<Byte>)
    requires 0 < n
    ensures Wf(n, Run(n, tab, State(out, [], false), s))
    ensures Closed(n, tab, Run(n, tab, State(out, [], false), s)) == out + Blocked(n, tab, s)
    decreases |s|
  {
    hide Record, Run, TailRecord, LineEnd;
    assert Wf(n, State(out, [], false));
    RunWf(n, tab, State(out, [], false), s);
    var k := LineEnd(s);
    var r := Record(n, tab, s[..k]);
    if n <= k {
      RunCut(n, tab, out, s);
    } else if k < |s| {
      RunLine(n, tab, out, s);
    } else {
      RunShort(n, tab, out, [], s);
      assert [] + s == s;
    }
    if k < |s| {
      RunIsBlocked(n, tab, out + r, s[k + 1..]);
      assert (out + r) + Blocked(n, tab, s[k + 1..]) == out + (r + Blocked(n, tab, s[k + 1..]));
    } else {
      assert s[..k] == s;
    }
  }

  /** The unterminated last line. */
  function Tail(s: seq<Byte>): seq<Byte>
    decreases |s|
  {
    var k := LineEnd(s);
    if k < |s| then Tail(s[k + 1..]) else s
  }

  lemma {:induction false} MappedConcat(tab: Table, a: seq<Byte>, b: seq<Byte>)
    ensures Mapped(tab, a + b) == Mapped(tab, a) + Mapped(tab, b)
  {
  }

  lemma {:induction false} RecordMapped(n: nat, tab: Table, line: seq<Byte>)
    ensures Mapped(tab, Record(n, NoTable, line)) == Record(n, tab, line)
  {
  }

  /** Translating while blocking is translating the blocked stream, except that a short unterminated last
      line is copied untranslated: the two agree exactly when translation leaves that line alone. */
  lemma {:induction false} TranslationLaw(n: nat, tab: Table, s: seq<Byte>)
    requires 0 < n
    ensures Blocked(n, tab, s) == Mapped(tab, Blocked(n, NoTable, s)) <==>
            (n <= |Tail(s)| || Mapped(tab, Tail(s)) == Tail(s))
    decreases |s|
  {
    hide Record;
    var k := LineEnd(s);
    if k < |s| {
      var a, b := Record(n, NoTable, s[..k]), Blocked(n, NoTable, s[k + 1..]);
      MappedConcat(tab, a, b);
      RecordMapped(n, tab, s[..k]);
      TranslationLaw(n, tab, s[k + 1..]);
      PrefixedEqual(Record(n, tab, s[..k]), Blocked(n, tab, s[k + 1..]), Mapped(tab, b));
    } else if n <= k {
      RecordMapped(n, tab, s);
    } else {
      TailMapped(n, tab, s);
    }
  }

  lemma {:induction false} TailMapped(n: nat, tab: Table, s: seq<Byte>)
    requires |s| < n
    ensures TailRecord(n, tab, s) == Mapped(tab, TailRecord(n, NoTable, s)) <==> Mapped(tab, s) == s
  {
    var p := Fill(SP, n - |s|);
    MappedConcat(tab, s, p);
    assert Mapped(tab, p) == Fill(tab.Of(SP), n - |s|);
    assert (s + Fill(tab.Of(SP), n - |s|))[..|s|] == s;
    assert (Mapped(tab, s) + Mapped(tab, p))[..|s|] == Mapped(tab, s);
  }

  lemma {:induction false} PrefixedEqual(p: seq<Byte>, a: seq<Byte>, b: seq<Byte>)
    ensures p + a == p + b <==> a == b
  {
    if p + a == p + b {
      assert a == (p + a)[|p|..] == (p + b)[|p|..] == b;
    }
  }

  /** A record without its trailing spaces. */
  function Strip(r: seq<Byte>): (t: seq<Byte>)
    ensures t <= r && (t != [] ==> t[|t| - 1] != SP)
  {
    if r != [] && r[|r| - 1] == SP then Strip(r[..|r| - 1]) else r
  }

  /** `conv=unblock` on a whole stream. */
  function Unblocked(n: nat, s: seq<Byte>): seq<Byte>
    requires 0 < n
    decreases |s|
  {
    if s == [] then []
    else if |s| < n then Strip(s) + [NL]
    else Strip(s[..n]) + [NL] + Unblocked(n, s[n..])
  }

  /** The lines that come from the whole records of a stream, and what is left over. */
  function Lines(n: nat, s: seq<Byte>): seq<Byte>
    requires 0 < n
    decreases |s|
  {
    if |s| < n then [] else Strip(s[..n]) + [NL] + Lines(n, s[n..])
  }

  function Leftover(n: nat, s: seq<Byte>): (r: seq<Byte>)
    requires 0 < n
    ensures |r| < n
    decreases |s|
  {
    if |s| < n then s else Leftover(n, s[n..])
  }

  lemma {:induction false} LinesFirst(n: nat, s: seq<Byte>)
    requires 0 < n
    ensures if |s| < n then Lines(n, s) == [] && Leftover(n, s) == s
            else Lines(n, s) == Strip(s[..n]) + [NL] + Lines(n, s[n..]) && Leftover(n, s) == Leftover(n, s[n..])
  {
  }

  /** Lines already made do not depend on what is read later. */
  lemma {:induction false} LinesConcat(n: nat, a: seq<Byte>, b: seq<Byte>)
    requires 0 < n
    ensures Lines(n, a + b) == Lines(n, a) + Lines(n, Leftover(n, a) + b)
    ensures Leftover(n, a + b) == Leftover(n, Leftover(n, a) + b)
    decreases |a|
  {
    hide Lines, Leftover, Strip;
    LinesFirst(n, a);
    if n <= |a| {
      assert (a + b)[..n] == a[..n] && (a + b)[n..] == a[n..] + b;
      LinesFirst(n, a + b);
      LinesConcat(n, a[n..], b);
      var line, x, y := Strip(a[..n]) + [NL], Lines(n, a[n..]), Lines(n, Leftover(n, a[n..]) + b);
      assert line + (x + y) == (line + x) + y;
    } else {
      assert [] + Lines(n, a + b) == Lines(n, a + b);
    }
  }

  lemma {:induction false} UnblockedIsLines(n: nat, s: seq<Byte>)
    requires 0 < n
    ensures var r := Leftover(n, s);
      Unblocked(n, s) == Lines(n, s) + if r == [] then [] else Strip(r) + [NL]
    decreases |s|
  {
    if n <= |s| { UnblockedIsLines(n, s[n..]); }
  }

  /** The first line, cut to `n` bytes and without trailing spaces. */
  function FirstCut(n: nat, s: seq<Byte>): (r: seq<Byte>)
    ensures NL !in r && |r| <= LineEnd(s) && r <= s
  {
    var k := LineEnd(s);
    assert n <= k ==> s[..n] == s[..k][..n];
    Strip(if n <= k then s[..n] else s[..k])
  }

  /** Every line cut to `n` bytes, without trailing spaces, and terminated. */
  function CutLines(n: nat, s: seq<Byte>): seq<Byte>
    decreases |s|
  {
    if s == [] then []
    else
      var k := LineEnd(s);
      FirstCut(n, s) + [NL] + if k < |s| then CutLines(n, s[k + 1..]) else []
  }

  /** Trailing padding never survives a strip. */
  lemma {:induction false} StripPadded(a: seq<Byte>, m: nat)
    ensures Strip(a + Fill(SP, m)) == Strip(a)
    decreases m
  {
    if m == 0 {
      assert a + Fill(SP, 0) == a;
    } else {
      var r := a + Fill(SP, m);
      assert r[..|r| - 1] == a + Fill(SP, m - 1);
      StripPadded(a, m - 1);
    }
  }

  lemma {:induction false} StripRecord(n: nat, line: seq<Byte>)
    ensures Strip(Record(n, NoTable, line)) == Strip(if n <= |line| then line[..n] else line)
  {
    if n <= |line| {
      assert Mapped(NoTable, line[..n]) == line[..n];
    } else {
      assert Mapped(NoTable, line) == line;
      StripPadded(line, n - |line|);
    }
  }

  lemma {:induction false} UnblockRecord(n: nat, r: seq<Byte>, rest: seq<Byte>)
    requires 0 < n == |r|
    ensures Unblocked(n, r + rest) == Strip(r) + [NL] + Unblocked(n, rest)
    ensures Unblocked(n, []) == []
  {
    assert (r + rest)[..n] == r && (r + rest)[n..] == rest;
  }

  /** Without a table, every line of the stream becomes one record, the last one too. */
  lemma {:induction false} BlockedFirst(n: nat, s: seq<Byte>)
    requires s != []
    ensures var k := LineEnd(s);
      Blocked(n, NoTable, s) == Record(n, NoTable, s[..k]) + if k < |s| then Blocked(n, NoTable, s[k + 1..]) else []
  {
  }

  /** `unblock` after `block` returns every line cut to `n` bytes and stripped of trailing spaces. */
  lemma {:induction false} RoundTrip(n: nat, s: seq<Byte>)
    requires 0 < n
    ensures Unblocked(n, Blocked(n, NoTable, s)) == CutLines(n, s)
    decreases |s|
  {
    if s != [] {
      hide Record, Strip, LineEnd, FirstCut, Unblocked, Blocked, CutLines;
      var k := LineEnd(s);
      BlockedFirst(n, s);
      CutLinesFirst(n, s);
      StripRecord(n, s[..k]);
      FirstCutIs(n, s);
      UnblockRecord(n, Record(n, NoTable, s[..k]), if k < |s| then Blocked(n, NoTable, s[k + 1..]) else []);
      if k < |s| {
        RoundTrip(n, s[k + 1..]);
      }
    }
  }

  lemma {:induction false} FirstCutIs(n: nat, s: seq<Byte>)
    ensures var line := s[..LineEnd(s)]; FirstCut(n, s) == Strip(if n <= |line| then line[..n] else line)
  {
    assert n <= LineEnd(s) ==> s[..LineEnd(s)][..n] == s[..n];
  }

  /** Newline-terminated lines of at most `n` bytes, none ending in a space. */
  ghost predicate Fits(n: nat, s: seq<Byte>)
    decreases |s|
  {
    s == [] ||
    var k := LineEnd(s);
    k < |s| && k <= n && (k == 0 || s[k - 1] != SP) && Fits(n, s[k + 1..])
  }

  lemma {:induction false} FirstCutWhole(n: nat, s: seq<Byte>)
    ensures |FirstCut(n, s)| == LineEnd(s) <==> LineEnd(s) <= n && (LineEnd(s) == 0 || s[LineEnd(s) - 1] != SP)
  {
  }

  /** The round trip is the identity exactly on the streams that fit. */
  lemma {:induction false} CutLinesIdentity(n: nat, s: seq<Byte>)
    ensures CutLines(n, s) == s <==> Fits(n, s)
    decreases |s|
  {
    hide Strip, LineEnd, FirstCut, CutLines, Fits;
    FitsFirst(n, s);
    CutLinesFirst(n, s);
    if s != [] {
      var k := LineEnd(s);
      FirstCutWhole(n, s);
      SameFirstLine(FirstCut(n, s), if k < |s| then CutLines(n, s[k + 1..]) else [], s);
      if k < |s| {
        CutLinesIdentity(n, s[k + 1..]);
      }
    }
  }

  lemma {:induction false} FitsFirst(n: nat, s: seq<Byte>)
    ensures var k := LineEnd(s);
      Fits(n, s) <==> s == [] || (k < |s| && k <= n && (k == 0 || s[k - 1] != SP) && Fits(n, s[k + 1..]))
  {
  }

  lemma {:induction false} CutLinesFirst(n: nat, s: seq<Byte>)
    ensures var k := LineEnd(s);
      CutLines(n, s) == if s == [] then [] else FirstCut(n, s) + [NL] + if k < |s| then CutLines(n, s[k + 1..]) else []
  {
  }

  lemma {:induction false} SameFirstLine(line: seq<Byte>, rest: seq<Byte>, s: seq<Byte>)
    requires line <= s && |line| <= LineEnd(s) && NL !in line
    ensures line + [NL] + rest == s <==> LineEnd(s) < |s| && |line| == LineEnd(s) && rest == s[|line| + 1..]
  {
    var t := line + [NL] + rest;
    assert t[..|line|] == line && t[|line|] == NL && t[|line| + 1..] == rest;
    LineEndIs(t, |line|);
    if LineEnd(s) < |s| && |line| == LineEnd(s) {
      assert s == s[..|line|] + [NL] + s[|line| + 1..];
    }
  }

  // Truncated records

  /** How many records are longer than `n`. */
  function Longer(n: nat, s: seq<Byte>): nat
    decreases |s|
  {
    var k := LineEnd(s);
    (if k > n then 1 else 0) + if k < |s| then Longer(n, s[k + 1..]) else 0
  }

  /** How many the loop of `block` counts when it gets the whole text at once: it cannot tell an unterminated line that
      just fills a record from one that goes on. */
  function Tally(n: nat, s: seq<Byte>): nat
    decreases |s|
  {
    var k := LineEnd(s);
    if k == |s| then if n <= k then 1 else 0
    else (if k > n then 1 else 0) + Tally(n, s[k + 1..])
  }

  lemma {:induction false} TallyIsLonger(n: nat, s: seq<Byte>)
    ensures Tally(n, s) == Longer(n, s) + if |Tail(s)| == n then 1 else 0
    decreases |s|
  {
    hide LineEnd;
    if LineEnd(s) < |s| {
      TallyIsLonger(n, s[LineEnd(s) + 1..]);
    }
  }

  /** What of a chunk the record loop looks at, behind what it has carried over. */
  function Anew(st: State, added: seq<Byte>): seq<Byte>
  {
    var k := LineEnd(added);
    if !st.skipping then st.pending + added else if k < |added| then added[k + 1..] else []
  }

  /** Between reads a line shorter than a record is carried over, and a longer one is being skipped. */
  lemma {:induction false} RunTail(n: nat, tab: Table, out: seq<Byte>, s: seq<Byte>)
    requires 0 < n
    ensures var st := Run(n, tab, State(out, [], false), s);
      (st.skipping <==> n <= |Tail(s)|) && st.pending == if n <= |Tail(s)| then [] else Tail(s)
    decreases |s|
  {
    hide Record, Run, LineEnd;
    var k := LineEnd(s);
    var r := out + Record(n, tab, s[..k]);
    if k < |s| {
      if k < n {
        RunLine(n, tab, out, s);
      } else {
        RunCut(n, tab, out, s);
      }
      RunTail(n, tab, r, s[k + 1..]);
    } else if n <= k {
      RunCut(n, tab, out, s);
    } else {
      assert s[..k] == s && [] + s == s;
      RunShort(n, tab, out, [], s);
    }
  }

  /** A read that ends where a line has just filled a record, and only its newline is to come, is counted as well. */
  lemma {:induction false} TallyConcat(n: nat, tab: Table, p: seq<Byte>, c: seq<Byte>)
    requires 0 < n && c != []
    ensures Tally(n, p + c) + (if |Tail(p)| == n && c[0] == NL then 1 else 0) ==
      Tally(n, p) + Tally(n, Anew(Run(n, tab, State([], [], false), p), c))
  {
    hide Run, LineEnd, Tally, Tail;
    RunTail(n, tab, [], p);
    TallyApart(n, p, c);
  }

  lemma {:induction false} TallyApart(n: nat, p: seq<Byte>, c: seq<Byte>)
    requires 0 < n && c != []
    ensures var skipping := n <= |Tail(p)|;
      Tally(n, p + c) + (if |Tail(p)| == n && c[0] == NL then 1 else 0) ==
      Tally(n, p) + Tally(n, Anew(State([], if skipping then [] else Tail(p), skipping), c))
    decreases |p|
  {
    hide LineEnd, Tally, Tail, Anew;
    var k := LineEnd(p);
    TailStep(p);
    TallyStep(n, p);
    if k < |p| {
      assert (p + c)[..k] == p[..k] && (p + c)[k + 1..] == p[k + 1..] + c;
      LineEndIs(p + c, k);
      TallyStep(n, p + c);
      TallyApart(n, p[k + 1..], c);
    } else if n <= k {
      AnewIs(State([], [], true), c);
      TallyLate(n, p, c);
      TallyStep(n, []);
    } else {
      AnewIs(State([], p, false), c);
    }
  }

  lemma {:induction false} TailStep(s: seq<Byte>)
    ensures var k := LineEnd(s); Tail(s) == if k < |s| then Tail(s[k + 1..]) else s
  {
    hide LineEnd;
  }

  lemma {:induction false} AnewState(st: State, c: seq<Byte>)
    ensures Anew(st, c) == Anew(State([], st.pending, st.skipping), c)
  {
  }

  lemma {:induction false} AnewIs(st: State, c: seq<Byte>)
    ensures !st.skipping ==> Anew(st, c) == st.pending + c
    ensures st.skipping ==> var k := LineEnd(c); Anew(st, c) == if k < |c| then c[k + 1..] else []
  {
    hide LineEnd;
  }

  lemma {:induction false} TallyLate(n: nat, p: seq<Byte>, c: seq<Byte>)
    requires c != [] && n <= |p| == LineEnd(p)
    ensures var k := LineEnd(c);
      Tally(n, p + c) + (if |p| == n && c[0] == NL then 1 else 0) ==
      1 + if k < |c| then Tally(n, c[k + 1..]) else 0
  {
    hide Tally, LineEnd;
    var k := LineEnd(c);
    assert p[..|p|] == p && (p + c)[..|p| + k] == p + c[..k];
    LineEndIs(p + c, |p| + k);
    assert k < |c| ==> (p + c)[|p| + k + 1..] == c[k + 1..];
    assert k > 0 ==> c[0] == c[..k][0];
    TallyStep(n, p + c);
  }

  lemma {:induction false} TallyStep(n: nat, s: seq<Byte>)
    ensures var k := LineEnd(s);
      Tally(n, s) == if k == |s| then if n <= k then 1 else 0
                     else (if k > n then 1 else 0) + Tally(n, s[k + 1..])
  {
    hide LineEnd;
  }
}
