/** The record converters of dd over their in-place buffers, and the read, write and close steps around them. */
module DdConv {
  import opened DdSpec

  lemma {:induction false} ModStep(n: nat, m: nat)
    requires 0 < m
    ensures (n + m) % m == n % m
  {
    var d := (n + m) / m - n / m - 1;
    assert d * m == n % m - (n + m) % m;
    assert d != 0 ==> d * m <= -1 * m || m <= d * m;
  }

  lemma {:induction false} ModAdd(a: nat, b: nat, m: nat)
    requires 0 < m && a % m == 0
    ensures (a + b) % m == b % m
    decreases a
  {
    if a < m {
      assert a == 0;
    } else {
      ModStep(a - m, m);
      ModAdd(a - m, b, m);
      ModStep(a - m + b, m);
    }
  }

  lemma {:induction false} ModSmall(n: nat, m: nat)
    requires n < m
    ensures n % m == n
  {
    assert n / m == 0;
  }

  ghost predicate Multiple(n: nat, m: nat)
    requires 0 < m
  {
    n % m == 0
  }

  lemma {:induction false} MultipleAdd(a: nat, b: nat, m: nat)
    requires 0 < m && Multiple(a, m)
    ensures Multiple(0, m) && Multiple(m, m) && (Multiple(a + b, m) <==> Multiple(b, m))
  {
    ModStep(0, m);
    ModAdd(a, b, m);
  }

  lemma {:induction false} LineEndPrefix(s: seq<Byte>, m: nat)
    requires m <= |s|
    ensures var k := LineEnd(s[..m]); if k < m then LineEnd(s) == k else m <= LineEnd(s)
  {
  }

  /** `memmove` within one buffer. */
  method Move(a: array<Byte>, dst: nat, src: nat, n: nat)
    requires dst + n <= a.Length && src + n <= a.Length
    modifies a
    ensures a[dst..dst + n] == old(a[src..src + n])
    ensures a[..dst] == old(a[..dst]) && a[dst + n..] == old(a[dst + n..])
  {
    forall i | 0 <= i < n { a[dst + i] := a[src + i]; }
  }

  /** `memset`. */
  method Set(a: array<Byte>, dst: nat, c: Byte, n: nat)
    requires dst + n <= a.Length
    modifies a
    ensures a[dst..dst + n] == Fill(c, n)
    ensures a[..dst] == old(a[..dst]) && a[dst + n..] == old(a[dst + n..])
  {
    forall i | 0 <= i < n { a[dst + i] := c; }
  }

  method Copy(a: array<Byte>, dst: nat, s: seq<Byte>)
    requires dst + |s| <= a.Length
    modifies a
    ensures a[dst..dst + |s|] == s
    ensures a[..dst] == old(a[..dst]) && a[dst + |s|..] == old(a[dst + |s|..])
  {
    forall i | 0 <= i < |s| { a[dst + i] := s[i]; }
  }

  /** `memmove`, and `memset` of the rest of `n` bytes. */
  method CopyPadded(a: array<Byte>, dst: nat, s: seq<Byte>, c: Byte, n: nat)
    requires |s| <= n && dst + n <= a.Length
    modifies a
    ensures a[dst..dst + n] == s + Fill(c, n - |s|)
    ensures a[..dst] == old(a[..dst]) && a[dst + n..] == old(a[dst + n..])
  {
    Copy(a, dst, s);
    ghost var half := a[..];
    assert half[dst + n..] == old(a[dst + |s|..])[n - |s|..];
    Set(a, dst + |s|, c, n - |s|);
    Joined(a[..], half, dst, s, n);
  }

  lemma Joined(t: seq<Byte>, half: seq<Byte>, dst: nat, s: seq<Byte>, n: nat)
    requires |s| <= n && dst + n <= |half| == |t|
    requires t[..dst + |s|] == half[..dst + |s|] && half[dst..dst + |s|] == s
    ensures t[..dst] == half[..dst] && t[dst..dst + n] == s + t[dst + |s|..dst + n]
  {
    assert t[..dst] == t[..dst + |s|][..dst];
    assert s == t[..dst + |s|][dst..];
  }

  class Dd {
    const ibs: nat
    const obs: nat
    const cbsz: nat
    const tab: Table
    const inDb: array<Byte>
    var inDbp: nat
    var inDbcnt: nat
    var inDbrcnt: nat
    const outDb: array<Byte>
    var outDbp: nat
    var outDbcnt: nat
    var intrunc: bool
    var truncs: nat
    /** Every byte handed to `write` so far. */
    var written: seq<Byte>
    /** What the output buffer held to begin with. */
    ghost const first: seq<Byte>

    ghost predicate Sized()
    {
      && 0 < ibs && 0 < obs && 0 < cbsz && inDb != outDb
      && inDb.Length == (if ibs < cbsz then cbsz else ibs) + cbsz && outDb.Length == obs + cbsz
    }

    /** The output block before the one being filled. */
    ghost function Shadow(): seq<Byte>
      reads this`written
    {
      if |written| < obs then first else written[|written| - obs..]
    }

    /** Beyond the next record the output buffer still holds the block before. */
    ghost predicate Remembers()
      reads this`written, this`outDbp, outDb
    {
      && |first| == outDb.Length == obs + cbsz
      && 0 < obs && Multiple(|written|, obs) && (written == [] || obs <= |written|)
      && forall j :: outDbp + cbsz <= j < obs ==> outDb[j] == Shadow()[j]
    }

    /** Writing a record leaves what lies beyond it. */
    twostate lemma StillRemembers()
      requires Sized() && old(Remembers()) && written == old(written) && outDbp == old(outDbp) < obs
      requires outDb[outDbp + cbsz..] == old(outDb[outDbp + cbsz..])
      ensures Remembers()
    {
      forall j | outDbp + cbsz <= j < obs
        ensures outDb[j] == Shadow()[j]
      {
        assert outDb[j] == outDb[outDbp + cbsz..][j - (outDbp + cbsz)] == old(outDb[j]);
      }
    }

    /** The state between reads. */
    ghost predicate Ready()
      reads this, inDb, outDb
    {
      && Sized() && inDbp == inDbcnt < cbsz && outDbp == outDbcnt < obs && Remembers()
      && NL !in inDb[..inDbcnt] && (intrunc ==> inDbcnt == 0)
    }

    /** All output produced so far: what was written and what waits in the output buffer. */
    ghost function Emitted(): seq<Byte>
      reads this`written, this`outDbcnt, outDb
      requires outDbcnt <= outDb.Length
    {
      written + outDb[..outDbcnt]
    }

    ghost function Abs(): State
      reads this, inDb, outDb
      requires outDbcnt <= outDb.Length && inDbcnt <= inDb.Length
    {
      State(Emitted(), inDb[..inDbcnt], intrunc)
    }

    constructor (ibs: nat, obs: nat, cbsz: nat, tab: Table)
      requires 0 < ibs && 0 < obs && 0 < cbsz
      ensures this.ibs == ibs && this.obs == obs && this.cbsz == cbsz && this.tab == tab
      ensures Ready() && Abs() == State([], [], false) && fresh(inDb) && fresh(outDb)
      ensures written == [] && outDbcnt == 0 && truncs == 0
    {
      this.ibs, this.obs, this.cbsz, this.tab := ibs, obs, cbsz, tab;
      inDb := new Byte[(if ibs < cbsz then cbsz else ibs) + cbsz];
      var out := new Byte[obs + cbsz];
      outDb, first := out, out[..];
      inDbp, inDbcnt, inDbrcnt, outDbp, outDbcnt := 0, 0, 0, 0, 0;
      intrunc, truncs, written := false, 0, [];
    }

    /** The write loop of `dd_out` for one block of `n` bytes, under any pattern of short writes. */
    method WriteBlock(outp: nat, n: nat)
      requires outp + n <= outDb.Length
      modifies this`written
      ensures written == old(written) + outDb[outp..outp + n]
    {
      var p, cnt := outp, n;
      while cnt > 0
        invariant p + cnt == outp + n && outp <= p && written == old(written) + outDb[outp..p]
      {
        var nw :| 1 <= nw <= cnt;
        written := written + outDb[p..p + nw];
        p, cnt := p + nw, cnt - nw;
      }
    }

    /** The block loop of `dd_out`. */
    method WriteBlocks(force: bool) returns (outp: nat)
      requires 0 < obs && outDbcnt <= outDb.Length && if force then outDbcnt > 0 else obs <= outDbcnt
      modifies this`written, this`outDbcnt
      ensures outp + outDbcnt == old(outDbcnt) && outDbcnt < obs && (force ==> outDbcnt == 0)
      ensures written == old(written) + outDb[..outp]
      ensures !force ==> obs <= outp && Multiple(outp, obs) && (old(outDbcnt) < 2 * obs ==> outp == obs)
    {
      assert Multiple(0, obs);
      hide Multiple;
      outp := 0;
      var n := if force then outDbcnt else obs;
      while true
        invariant outp + outDbcnt == old(outDbcnt) && 0 < n <= outDbcnt && n == (if force then outDbcnt else obs)
        invariant written == old(written) + outDb[..outp] && (outp == 0 || 2 * obs <= old(outDbcnt))
        invariant !force ==> Multiple(outp, obs)
        decreases outDbcnt
      {
        WriteBlock(outp, n);
        assert outDb[..outp + n] == outDb[..outp] + outDb[outp..outp + n];
        if !force {
          MultipleAdd(outp, obs, obs);
        }
        outp, outDbcnt := outp + n, outDbcnt - n;
        if outDbcnt < obs {
          break;
        }
        n := obs;
      }
    }

    /** `dd_out`: whole blocks leave the buffer, the rest moves to its front; `force` empties it. */
    method DdOut(force: bool)
      requires 0 < obs && outDbcnt <= outDb.Length
      requires if force then outDbcnt > 0 else obs <= outDbcnt == outDbp
      modifies this`written, this`outDbp, this`outDbcnt, outDb
      ensures outDbp == outDbcnt && outDbcnt < obs && outDbcnt <= outDb.Length && (force ==> outDbcnt == 0)
      ensures Emitted() == old(Emitted())
      ensures !force ==> |old(written)| + obs <= |written| && written <= old(Emitted())
      ensures !force && Multiple(|old(written)|, obs) ==> Multiple(|written|, obs)
      ensures !force && old(outDbcnt) < 2 * obs ==> |written| == |old(written)| + obs
      ensures forall k :: outDbcnt <= k < outDb.Length ==> outDb[k] == old(outDb[k])
    {
      hide Multiple;
      ghost var all, w := outDb[..outDbcnt], written;
      var outp := WriteBlocks(force);
      if !force && Multiple(|w|, obs) {
        MultipleAdd(|w|, outp, obs);
      }
      ghost var gone, rest := outDb[..outp], outDb[outp..outp + outDbcnt];
      assert all == gone + rest;
      Shift(outp);
      Regroup(w, gone, rest);
    }

    /** What is left after writing moves to the front of the buffer. */
    method Shift(outp: nat)
      requires outp + outDbcnt <= outDb.Length && (outDbcnt != 0 ==> outDbp == outp + outDbcnt)
      modifies this`outDbp, outDb
      ensures outDbp == outDbcnt && outDb[..outDbcnt] == old(outDb[outp..outp + outDbcnt])
      ensures forall k :: outDbcnt <= k < outDb.Length ==> outDb[k] == old(outDb[k])
    {
      if outDbcnt != 0 {
        Move(outDb, 0, outDbp - outDbcnt, outDbcnt);
        assert outDb[0..0 + outDbcnt] == outDb[..outDbcnt];
      }
      outDbp := outDbcnt;
    }

    /** The buffer holds the unfinished line followed by the bytes just read. */
    ghost predicate Loaded(added: seq<Byte>)
      reads this, inDb
    {
      && Sized() && inDbp == inDbcnt <= inDb.Length && outDbp == outDbcnt < obs
      && inDbrcnt == |added| <= inDbcnt && inDb[inDbcnt - inDbrcnt..inDbcnt] == added
    }

    /** The unfinished line in front of the bytes just read. */
    ghost function Carried(): seq<Byte>
      reads this, inDb
      requires inDbrcnt <= inDbcnt <= inDb.Length
    {
      inDb[..inDbcnt - inDbrcnt]
    }

    /** One successful `read` of `dd_in`, and the bookkeeping after it. */
    method Read(chunk: seq<Byte>)
      requires Waiting() && 0 < |chunk| <= ibs
      modifies this`inDbp, this`inDbcnt, this`inDbrcnt, inDb
      ensures Loaded(chunk) && Carried() == old(inDb[..inDbcnt])
    {
      Copy(inDb, inDbp, chunk);
      inDbrcnt := |chunk|;
      inDbcnt := inDbcnt + inDbrcnt;
      inDbp := inDbp + inDbrcnt;
    }

    /** The copying loop of `block`: bytes up to a newline, `maxlen` at most, translated into the output buffer. */
    method CopyBytes(inp: nat, maxlen: nat) returns (cnt: nat)
      requires inDb != outDb && inp + maxlen <= inDb.Length && outDbp + maxlen <= outDb.Length
      modifies outDb
      ensures cnt <= maxlen && (cnt < maxlen ==> inDb[inp + cnt] == NL)
      ensures forall j :: inp <= j < inp + cnt ==> inDb[j] != NL
      ensures forall j :: 0 <= j < outDb.Length ==>
        outDb[j] == if outDbp <= j < outDbp + cnt then tab.Of(inDb[inp + (j - outDbp)]) else old(outDb[j])
    {
      cnt := 0;
      while cnt < maxlen && inDb[inp + cnt] != NL
        invariant cnt <= maxlen
        invariant forall j :: inp <= j < inp + cnt ==> inDb[j] != NL
        invariant forall j :: 0 <= j < outDb.Length ==>
          outDb[j] == if outDbp <= j < outDbp + cnt then tab.Of(inDb[inp + (j - outDbp)]) else old(outDb[j])
      {
        outDb[outDbp + cnt] := tab.Of(inDb[inp + cnt]);
        cnt := cnt + 1;
      }
    }

    /** The bytes of a line up to a record, copied; and whether the line ended before that. */
    method CopyLine(inp: nat, maxlen: nat) returns (cnt: nat, newline: bool)
      requires inDb != outDb && inp + maxlen <= inDb.Length && maxlen <= cbsz && outDbp + cbsz <= outDb.Length
      modifies outDb
      ensures var k := LineEnd(inDb[inp..inp + maxlen]); cnt == k && newline == (k < maxlen)
      ensures outDb[..outDbp] == old(outDb[..outDbp]) && outDb[outDbp + cbsz..] == old(outDb[outDbp + cbsz..])
      ensures outDb[outDbp..outDbp + cnt] == Mapped(tab, inDb[inp..inp + cnt])
    {
      hide LineEnd;
      cnt := CopyBytes(inp, maxlen);
      newline := cnt < maxlen;
      ghost var line := inDb[inp..inp + maxlen];
      assert line[..cnt] == inDb[inp..inp + cnt];
      LineEndIs(line, cnt);
    }

    /** Skip to the byte after the next newline: how far, and whether one was found. */
    method Toss(inp: nat, avail: nat) returns (k: nat)
      requires inp + avail <= inDb.Length
      ensures k == LineEnd(inDb[inp..inp + avail])
    {
      k := 0;
      while k < avail && inDb[inp + k] != NL
        invariant k <= avail && NL !in inDb[inp..inp + k]
      {
        k := k + 1;
      }
      ghost var s := inDb[inp..inp + avail];
      assert s[..k] == inDb[inp..inp + k];
      LineEndIs(s, k);
    }

    /** Pad a short record with spaces. */
    method Pad(cnt: nat, ghost line: seq<Byte>)
      requires Sized() && outDbp < obs && cnt == |line| <= cbsz
      requires outDb[outDbp..outDbp + cnt] == Mapped(tab, line)
      modifies outDb
      ensures outDb[..outDbp] == old(outDb[..outDbp]) && outDb[outDbp + cbsz..] == old(outDb[outDbp + cbsz..])
      ensures outDb[outDbp..outDbp + cbsz] == Record(cbsz, tab, line)
    {
      hide Mapped, Record;
      PaddedRecord(cbsz, tab, line);
      ghost var p := outDbp + cnt;
      assert outDb[..p] == outDb[..outDbp] + outDb[outDbp..p];
      if cnt < cbsz {
        Set(outDb, outDbp + cnt, tab.Of(SP), cbsz - cnt);
      }
      assert outDb[..outDbp] == outDb[..p][..outDbp];
      assert outDb[outDbp..outDbp + cbsz] == outDb[..p][outDbp..] + outDb[p..outDbp + cbsz];
    }

    /** Advance over a finished record and write when the buffer is full. */
    method Advance()
      requires Sized() && outDbp == outDbcnt < obs && Remembers()
      modifies this`written, this`outDbp, this`outDbcnt, outDb
      ensures outDbp == outDbcnt < obs && Remembers()
      ensures Emitted() == old(Emitted()) + old(outDb[outDbp..outDbp + cbsz])
    {
      hide Multiple;
      ghost var front, record := outDb[..outDbp], outDb[outDbp..outDbp + cbsz];
      assert outDb[..outDbp + cbsz] == front + record;
      Regroup(written, front, record);
      ghost var e := Emitted() + record;
      if outDbp + cbsz >= obs {
        Wrap(e);
      } else {
        outDbp, outDbcnt := outDbp + cbsz, outDbcnt + cbsz;
      }
    }

    /** The write when the buffer is full: the block just written is the one the buffer still holds behind the rest. */
    method Wrap(ghost e: seq<Byte>)
      requires Sized() && outDbp == outDbcnt < obs <= outDbp + cbsz && Remembers()
      requires e == written + outDb[..outDbp + cbsz]
      modifies this`written, this`outDbp, this`outDbcnt, outDb
      ensures outDbp == outDbcnt < obs && Remembers() && Emitted() == e
    {
      hide Multiple;
      outDbp, outDbcnt := outDbp + cbsz, outDbcnt + cbsz;
      ghost var buf, w := outDb[..], written;
      assert buf[..outDbcnt] == outDb[..outDbcnt];
      DdOut(false);
      if cbsz < obs {
        LastBlock(written, w, buf, outDbcnt, obs, e);
      }
    }

    /** The input the record loop has yet to look at. */
    ghost function Rest(inp: nat): seq<Byte>
      reads this, inDb
      requires inp + inDbcnt <= inDb.Length
    {
      inDb[inp..inp + inDbcnt]
    }

    ghost predicate Looping(inp: nat)
      reads this, inDb, outDb
    {
      && Sized() && inp + inDbcnt == inDbp <= inDb.Length && outDbp == outDbcnt < obs && Remembers()
      && (intrunc ==> inDbcnt == 0)
    }

    /** What the automaton still has to do from inside the record loop. */
    ghost function Outcome(inp: nat): State
      reads this, inDb, outDb
      requires Looping(inp)
    {
      Run(cbsz, tab, State(Emitted(), [], intrunc), Rest(inp))
    }

    /** Finish the record at `outDbp`: pad it and advance. */
    method EmitRecord(cnt: nat, ghost line: seq<Byte>)
      requires Sized() && outDbp == outDbcnt < obs && cnt == (if cbsz <= |line| then cbsz else |line|) && Remembers()
      requires outDb[outDbp..outDbp + cnt] == Mapped(tab, line[..cnt])
      modifies this`written, this`outDbp, this`outDbcnt, outDb
      ensures outDbp == outDbcnt < obs && Remembers() && Emitted() == old(Emitted()) + Record(cbsz, tab, line)
    {
      hide Dd.Remembers;
      RecordOfPrefix(cbsz, tab, line, cnt);
      Pad(cnt, line[..cnt]);
      StillRemembers();
      Advance();
    }

    /** Consume the line at `inp`, of which `cnt` bytes and a newline if `newline` have been copied. */
    method ConsumeLine(inp: nat, cnt: nat, newline: bool) returns (next: nat)
      requires Looping(inp) && !intrunc && cnt <= LineEnd(Rest(inp))
      requires if newline then cnt == LineEnd(Rest(inp)) < inDbcnt && cnt < cbsz else cnt == cbsz
      modifies this`inDbcnt, this`intrunc, this`truncs
      ensures var k := old(LineEnd(Rest(inp)));
        if k < old(inDbcnt) then next == inp + k + 1 && inDbcnt == old(inDbcnt) - k - 1 && !intrunc
        else next == inp + old(inDbcnt) && inDbcnt == 0 && intrunc
      ensures var k := old(LineEnd(Rest(inp)));
        truncs == old(truncs) + if k > cbsz || (k == cbsz && k == old(inDbcnt)) then 1 else 0
    {
      hide Dd.Remembers, LineEnd;
      ghost var rest := Rest(inp);
      next := inp + cnt;
      inDbcnt := inDbcnt - cnt;
      if newline {
        next, inDbcnt := next + 1, inDbcnt - 1;
      } else {
        LineEndDrop(rest, cnt);
        Slices(inDb, inp, inp + inDbcnt + cnt, cnt);
        next := TossRest(next);
      }
    }

    /** The rest of a line whose record is full. */
    method TossRest(inp: nat) returns (next: nat)
      requires inp + inDbcnt <= inDb.Length && !intrunc
      modifies this`inDbcnt, this`intrunc, this`truncs
      ensures var k := old(LineEnd(Rest(inp)));
        && (if k < old(inDbcnt) then next == inp + k + 1 && inDbcnt == old(inDbcnt) - k - 1 && !intrunc
            else next == inp + old(inDbcnt) && inDbcnt == 0 && intrunc)
        && truncs == old(truncs) + if 0 < k || old(inDbcnt) == 0 then 1 else 0
    {
      hide LineEnd;
      EndsAtOnce(Rest(inp));
      if inDbcnt == 0 || inDb[inp] != NL {
        truncs := truncs + 1;
      }
      var k := Toss(inp, inDbcnt);
      if k == inDbcnt {
        next, inDbcnt, intrunc := inp + k, 0, true;
      } else {
        next, inDbcnt := inp + k + 1, inDbcnt - k - 1;
      }
    }

    /** One turn of the record loop on a line that is complete or at least as long as a record. */
    method WholeLine(inp: nat, cnt: nat, newline: bool) returns (next: nat)
      requires Looping(inp) && !intrunc && cnt <= LineEnd(Rest(inp))
      requires if newline then cnt == LineEnd(Rest(inp)) < inDbcnt && cnt < cbsz else cnt == cbsz
      requires outDb[outDbp..outDbp + cnt] == Mapped(tab, inDb[inp..inp + cnt])
      modifies this`inDbcnt, this`intrunc, this`truncs, this`written, this`outDbp, this`outDbcnt, outDb
      ensures outDbp == outDbcnt < obs && Remembers()
      ensures var k := old(LineEnd(Rest(inp)));
        && Emitted() == old(Emitted()) + Record(cbsz, tab, old(Rest(inp)[..k]))
        && (if k < old(inDbcnt) then next == inp + k + 1 && inDbcnt == old(inDbcnt) - k - 1 && !intrunc
            else next == inp + old(inDbcnt) && inDbcnt == 0 && intrunc)
        && truncs == old(truncs) + if k > cbsz || (k == cbsz && k == old(inDbcnt)) then 1 else 0
    {
      hide Dd.Remembers, Record, LineEnd, Mapped;
      ghost var line := Rest(inp)[..LineEnd(Rest(inp))];
      SubPrefix(Rest(inp), |line|, cnt);
      Slices(inDb, inp, inp + inDbcnt, cnt);
      next := ConsumeLine(inp, cnt, newline);
      EmitRecord(cnt, line);
    }

    /** A whole line through the loop leaves the automaton's outcome as it was. */
    method LineTurn(inp: nat, cnt: nat, newline: bool) returns (next: nat)
      requires Looping(inp) && !intrunc && cnt <= LineEnd(Rest(inp))
      requires if newline then cnt == LineEnd(Rest(inp)) < inDbcnt && cnt < cbsz else cnt == cbsz
      requires outDb[outDbp..outDbp + cnt] == Mapped(tab, inDb[inp..inp + cnt])
      modifies this`inDbcnt, this`intrunc, this`truncs, this`written, this`outDbp, this`outDbcnt, outDb
      ensures Looping(next) && Outcome(next) == old(Outcome(inp)) && inDbcnt < old(inDbcnt)
      ensures truncs + Tally(cbsz, Rest(next)) == old(truncs + Tally(cbsz, Rest(inp)))
    {
      hide Dd.Remembers, Run, Record, LineEnd, Mapped, Tally;
      ghost var rest, out := Rest(inp), Emitted();
      TallyStep(cbsz, rest);
      TallyStep(cbsz, []);
      next := WholeLine(inp, cnt, newline);
      RunOneLine(cbsz, tab, out, rest);
      assert Rest(next) == if LineEnd(rest) < |rest| then rest[LineEnd(rest) + 1..] else [];
    }

    /** An unfinished short line is moved to the front of the buffer to wait for the rest of it. */
    method Park(inp: nat)
      requires Looping(inp) && !intrunc && LineEnd(Rest(inp)) == inDbcnt < cbsz
      modifies inDb
      ensures inDbcnt <= inDb.Length && NL !in inDb[..inDbcnt] && Abs() == old(Outcome(inp))
    {
      hide Dd.Remembers, Run, LineEnd;
      ghost var rest := Rest(inp);
      assert [] + rest == rest && rest[..|rest|] == rest;
      RunShort(cbsz, tab, Emitted(), [], rest);
      Move(inDb, 0, inDbp - inDbcnt, inDbcnt);
      assert inDb[..inDbcnt] == rest;
    }

    /** One turn of the record loop; `done` when an unfinished short line has been moved to the front. */
    method Turn(inp: nat) returns (next: nat, done: bool)
      requires Looping(inp) && 0 < inDbcnt
      modifies this`inDbcnt, this`intrunc, this`truncs, this`written, this`outDbp, this`outDbcnt, inDb, outDb
      ensures outDbp == outDbcnt < obs && Remembers()
      ensures done ==> !intrunc && inDbcnt < cbsz && NL !in inDb[..inDbcnt] && Abs() == old(Outcome(inp))
      ensures done ==> truncs == old(truncs + Tally(cbsz, Rest(inp)))
      ensures !done ==> Looping(next) && Outcome(next) == old(Outcome(inp)) && inDbcnt < old(inDbcnt)
      ensures !done ==> truncs + Tally(cbsz, Rest(next)) == old(truncs + Tally(cbsz, Rest(inp)))
    {
      hide Dd.Remembers, Run, LineEnd, Mapped, Tally;
      var maxlen := if cbsz < inDbcnt then cbsz else inDbcnt;
      ghost var rest := Rest(inp);
      Slices(inDb, inp, inp + inDbcnt, maxlen);
      LineEndPrefix(rest, maxlen);
      var cnt, newline := CopyLine(inp, maxlen);
      StillRemembers();
      assert Emitted() == old(Emitted());
      next, done := inp, !newline && inDbcnt < cbsz;
      if done {
        TallyStep(cbsz, rest);
        Park(inp);
      } else {
        next := LineTurn(inp, cnt, newline);
      }
    }

    /** The prelude of `block`: while a cut line is being skipped, look for its end in the bytes just read. */
    method SkipPrelude(ghost added: seq<Byte>) returns (found: bool)
      requires Sized() && inDbp == inDbcnt == inDbrcnt <= inDb.Length && inDb[..inDbcnt] == added
      requires outDbp == outDbcnt < obs && intrunc && Remembers()
      modifies this`inDbp, this`inDbcnt, this`intrunc
      ensures outDbp == outDbcnt < obs && Remembers() && inDbcnt <= inDbp <= inDb.Length
      ensures var target := old(Run(cbsz, tab, State(Emitted(), [], true), added));
        if found then !intrunc && Looping(inDbp - inDbcnt) && Outcome(inDbp - inDbcnt) == target
        else intrunc && inDbcnt == inDbp == 0 && Abs() == target
      ensures var text := Anew(State([], [], true), added);
        if found then Rest(inDbp - inDbcnt) == text else text == []
    {
      hide Dd.Remembers, Run, LineEnd, Anew;
      RunSkip(cbsz, tab, Emitted(), added);
      AnewIs(State([], [], true), added);
      assert inDb[0..0 + inDbrcnt] == added;
      var k := Toss(0, inDbrcnt);
      found := k < inDbrcnt;
      if !found {
        inDbcnt, inDbp := 0, 0;
      } else {
        intrunc := false;
        var inp, cnt := k + 1, inDbrcnt - k;
        inDbcnt := cnt - 1;
        inDbp := inp + cnt - 1;
        assert Rest(inp) == added[k + 1..];
      }
    }

    /** The unfinished line and the bytes just read, looked at together. */
    lemma FromCarried(added: seq<Byte>)
      requires Loaded(added) && |Carried()| < cbsz && NL !in Carried() && !intrunc && Remembers()
      ensures Looping(0) && Rest(0) == Anew(State([], Carried(), false), added)
      ensures Outcome(0) == Run(cbsz, tab, State(Emitted(), Carried(), false), added)
    {
      hide Dd.Remembers, Run, LineEnd, Anew;
      assert Rest(0) == Carried() + added;
      AnewIs(State([], Carried(), false), added);
      Rescan(cbsz, tab, Emitted(), Carried(), added);
    }

    lemma NothingCarried(added: seq<Byte>)
      requires Loaded(added) && Carried() == []
      ensures inDbcnt == inDbrcnt && inDb[..inDbcnt] == added
    {
    }

    /** `block`: on any chunk, the buffers and the truncation flag move exactly as the automaton does, and the records
        counted as truncated are those of the text gone through. */
    method Block(ghost added: seq<Byte>)
      requires Loaded(added) && |Carried()| < cbsz && NL !in Carried() && (intrunc ==> Carried() == []) && Remembers()
      modifies this`inDbp, this`inDbcnt, this`intrunc, this`truncs, inDb
      modifies this`written, this`outDbp, this`outDbcnt, outDb
      ensures Ready() && Abs() == old(Run(cbsz, tab, State(Emitted(), Carried(), intrunc), added))
      ensures truncs == old(truncs + Tally(cbsz, Anew(State([], Carried(), intrunc), added)))
    {
      hide Dd.Remembers, Run, Dd.Emitted, Tally, Anew;
      if intrunc {
        NothingCarried(added);
        TallyNothing(cbsz);
        var found := SkipPrelude(added);
        if !found {
          return;
        }
      } else {
        FromCarried(added);
      }
      Records(inDbp - inDbcnt);
    }

    /** The record loop of `block`, and what it leaves for the next chunk. */
    method Records(start: nat)
      requires Looping(start)
      modifies this`inDbp, this`inDbcnt, this`intrunc, this`truncs, inDb
      modifies this`written, this`outDbp, this`outDbcnt, outDb
      ensures Ready() && Abs() == old(Outcome(start)) && truncs == old(truncs + Tally(cbsz, Rest(start)))
    {
      hide Dd.Remembers, Run, Tally;
      ghost var target := Outcome(start);
      var inp := start;
      TallyNothing(cbsz);
      while inDbcnt != 0
        invariant Looping(inp) && Outcome(inp) == target
        invariant truncs + Tally(cbsz, Rest(inp)) == old(truncs + Tally(cbsz, Rest(start)))
        decreases inDbcnt
      {
        var done;
        inp, done := Turn(inp);
        if done {
          inDbp := inDbcnt;
          return;
        }
      }
      RunNothing(cbsz, tab, State(Emitted(), [], intrunc));
      assert Rest(inp) == [] == inDb[..inDbcnt];
      inDbp := inDbcnt;
    }

    /** The end of `dd_close`: write whatever the output buffer still holds. */
    method Flush()
      requires 0 < obs && outDbcnt <= outDb.Length
      modifies this`written, this`outDbp, this`outDbcnt, outDb
      ensures written == old(Emitted())
    {
      if outDbcnt != 0 {
        DdOut(true);
      }
    }

    /** The unfinished line, copied as it is, and its padding. */
    method PutTail()
      requires Ready()
      modifies outDb
      ensures outDb[..outDbp] == old(outDb[..outDbp]) && outDb[outDbp + cbsz..] == old(outDb[outDbp + cbsz..])
      ensures outDb[outDbp..outDbp + cbsz] == TailRecord(cbsz, tab, inDb[..inDbcnt])
    {
      hide Dd.Remembers;
      CopyPadded(outDb, outDbp, inDb[inDbp - inDbcnt..inDbp], tab.Of(SP), cbsz);
    }

    /** `block_close`: an unfinished line becomes a last record; `out.dbp` stays in front of it. */
    method BlockClose()
      requires Ready()
      modifies this`truncs, this`outDbcnt, outDb
      ensures outDbcnt == old(outDbcnt) + (if inDbcnt == 0 then 0 else cbsz)
      ensures outDb[..outDbp] == old(outDb[..outDbp]) && outDb[outDbp + cbsz..] == old(outDb[outDbp + cbsz..])
      ensures inDbcnt != 0 ==> outDb[outDbp..outDbcnt] == TailRecord(cbsz, tab, inDb[..inDbcnt])
      ensures Emitted() == Closed(cbsz, tab, old(Abs()))
      ensures truncs == old(truncs) + if inDbcnt == 0 then 0 else 1
    {
      hide Dd.Remembers, TailRecord;
      if inDbcnt != 0 {
        truncs := truncs + 1;
        PutTail();
        outDbcnt := outDbcnt + cbsz;
        assert outDb[..outDbcnt] == outDb[..outDbp] + outDb[outDbp..outDbcnt];
      }
    }

    /** The end of `dd_close` with `osync`: meant to pad the last output block to its full size. */
    method FlushOsync()
      requires 0 < obs && outDbp <= outDbcnt <= outDb.Length && obs <= outDb.Length
      modifies this`written, this`outDbp, this`outDbcnt, outDb
      ensures written == old(written) + Padded(old(outDb[..]), old(outDbp), old(outDbcnt), obs)
    {
      if 0 < outDbcnt < obs {
        ghost var gap, buf := obs - outDbcnt, outDb[..];
        Set(outDb, outDbp, SP, obs - outDbcnt);
        outDbcnt := obs;
        Patched(buf, outDb[..], outDbp, Fill(SP, gap), obs);
      }
      Flush();
    }

    /** What lies beyond the next record. */
    lemma StaleBytes()
      requires Ready()
      ensures obs <= |Shadow()| && Multiple(|written|, obs)
      ensures outDbp + cbsz < obs ==>
        outDb[outDbp + cbsz..][..obs - (outDbp + cbsz)] == Shadow()[outDbp + cbsz..obs]
    {
    }

    /** `dd_close` after `block` with `osync`. Without an unfinished line the last block is padded as promised.
        With one, `block_close` has left `out.dbp` in front of the record it added: a buffer already past a block
        gets no padding, and in a shorter one the padding overwrites that record and the bytes it should have
        covered are those of the block before. */
    method CloseBlockOsync()
      requires Ready()
      modifies this`truncs, this`written, this`outDbp, this`outDbcnt, outDb
      ensures Osynced(obs, cbsz, tab, old(Abs()), old(outDbcnt), old(Shadow()), written)
      ensures var full := Closed(cbsz, tab, old(Abs()));
        written == full + Fill(SP, Short(|full|, obs)) <==>
        OsyncWorks(obs, cbsz, tab, old(outDbcnt), old(inDb[..inDbcnt]), old(Shadow()))
    {
      hide TailRecord, Padded, Multiple, Short, OsyncWorks, Osynced, Dd.Remembers, Dd.Shadow;
      StaleBytes();
      ghost var w, st, b, tail, shadow := written, Abs(), outDbcnt, inDb[..inDbcnt], Shadow();
      BlockClose();
      ghost var buf := outDb[..];
      Views(outDb, b, cbsz, obs);
      if tail == [] {
        PlainOutcome(w, buf, b, cbsz, obs, tab, shadow);
      } else {
        OsyncOutcome(w, buf, b, cbsz, obs, tab, tail, shadow);
      }
      FlushOsync();
    }

    /** The buffered bytes and the block before them, read off the output so far. */
    lemma BeforeIsShadow()
      requires Ready()
      ensures Held(Emitted(), obs) == outDbcnt && Before(Emitted(), obs, first) == Shadow() && obs <= |Shadow()|
      ensures |first| == obs + cbsz
    {
      hide Multiple, Held;
      ghost var out, w := Emitted(), written;
      HeldIs(out, |w|, obs);
      assert out[..|w|] == w;
    }

    /** The state between reads of `unblock`. */
    ghost predicate Waiting()
      reads this
    {
      Sized() && inDbp == inDbcnt < cbsz && outDbp == outDbcnt < obs
    }

    /** The translation loop of `unblock`, over the bytes just read, from the last to the first. */
    method TranslateInput()
      requires inDbrcnt <= inDbp <= inDb.Length
      modifies inDb
      ensures inDb[..inDbp - inDbrcnt] == old(inDb[..inDbp - inDbrcnt])
      ensures inDb[inDbp - inDbrcnt..inDbp] == Mapped(tab, old(inDb[inDbp - inDbrcnt..inDbp]))
    {
      var lo, p := inDbp - inDbrcnt, inDbp;
      while lo < p
        invariant lo <= p <= inDbp
        invariant inDb[..p] == old(inDb[..p])
        invariant forall i :: p <= i < inDbp ==> inDb[i] == tab.Of(old(inDb[i]))
      {
        p := p - 1;
        inDb[p] := tab.Of(inDb[p]);
      }
      assert inDb[..lo] == old(inDb[..p][..lo]);
    }

    /** The length of the record at `inp` without its trailing spaces. */
    method StrippedLength(inp: nat, n: nat) returns (k: nat)
      requires inp + n <= inDb.Length
      ensures k <= n && inDb[inp..inp + k] == Strip(inDb[inp..inp + n])
    {
      k := n;
      while k > 0 && inDb[inp + k - 1] == SP
        invariant k <= n && Strip(inDb[inp..inp + k]) == Strip(inDb[inp..inp + n])
      {
        ghost var r := inDb[inp..inp + k];
        assert r[..k - 1] == inDb[inp..inp + k - 1];
        k := k - 1;
      }
    }

    /** One record of `n` bytes becomes a line in the output buffer. */
    method PutLine(inp: nat, n: nat)
      requires Sized() && outDbp == outDbcnt < obs && n <= cbsz && inp + n <= inDb.Length
      modifies this`outDbp, this`outDbcnt, outDb
      ensures outDbp == outDbcnt <= outDb.Length
      ensures Emitted() == old(Emitted()) + (Strip(inDb[inp..inp + n]) + [NL])
    {
      hide Strip;
      ghost var was := outDb[..outDbp];
      var cnt := StrippedLength(inp, n);
      if cnt > 0 {
        Copy(outDb, outDbp, inDb[inp..inp + cnt]);
        outDbp, outDbcnt := outDbp + cnt, outDbcnt + cnt;
      }
      ghost var line := inDb[inp..inp + cnt];
      assert outDb[..outDbp] == was + line;
      PutNewline();
      Regroup(was, line, [NL]);
      Regroup(written, was, line + [NL]);
    }

    method PutNewline()
      requires outDbp == outDbcnt < outDb.Length
      modifies this`outDbp, this`outDbcnt, outDb
      ensures outDbp == outDbcnt == old(outDbp) + 1 && outDb[..outDbp] == old(outDb[..outDbp]) + [NL]
    {
      outDbcnt := outDbcnt + 1;
      outDb[outDbp] := NL;
      outDbp := outDbp + 1;
    }

    /** A whole record becomes a line, and the buffer is written when it is full. */
    method PutFullLine(inp: nat)
      requires Sized() && outDbp == outDbcnt < obs && inp + cbsz <= inDb.Length
      modifies this`written, this`outDbp, this`outDbcnt, outDb
      ensures outDbp == outDbcnt < obs
      ensures Emitted() == old(Emitted()) + (Strip(inDb[inp..inp + cbsz]) + [NL])
    {
      PutLine(inp, cbsz);
      if outDbcnt >= obs {
        DdOut(false);
      }
    }

    /** The record loop of `unblock` over the buffered bytes `s`. */
    method TakeRecords(ghost s: seq<Byte>)
      requires Sized() && inDbp == inDbcnt == |s| <= inDb.Length && outDbp == outDbcnt < obs && inDb[..inDbp] == s
      modifies this`inDbcnt, this`written, this`outDbp, this`outDbcnt, outDb
      ensures outDbp == outDbcnt < obs && inDbcnt < cbsz && inDbcnt <= inDbp
      ensures Emitted() == old(Emitted()) + Lines(cbsz, s) && inDb[inDbp - inDbcnt..inDbp] == Leftover(cbsz, s)
    {
      hide Lines, Leftover, Strip, Dd.Emitted, Multiple;
      var inp := 0;
      ghost var all := Emitted() + Lines(cbsz, s);
      assert s[0..] == s;
      while inDbcnt >= cbsz
        invariant inp + inDbcnt == inDbp && outDbp == outDbcnt < obs
        invariant Emitted() + Lines(cbsz, s[inp..]) == all && Leftover(cbsz, s[inp..]) == Leftover(cbsz, s)
      {
        LinesFirst(cbsz, s[inp..]);
        ghost var out, line := Emitted(), Strip(inDb[inp..inp + cbsz]) + [NL];
        assert s[inp..][..cbsz] == inDb[inp..inp + cbsz] && s[inp..][cbsz..] == s[inp + cbsz..];
        PutFullLine(inp);
        inp, inDbcnt := inp + cbsz, inDbcnt - cbsz;
        Regroup(out, line, Lines(cbsz, s[inp..]));
      }
      LinesFirst(cbsz, s[inp..]);
      assert Emitted() + [] == Emitted() && inDb[inDbp - inDbcnt..inDbp] == s[inp..];
    }

    /** `unblock`: whole records become lines, a partial record moves to the front. */
    method Unblock(ghost added: seq<Byte>)
      requires Loaded(added) && |Carried()| < cbsz
      modifies this`inDbp, this`inDbcnt, this`written, this`outDbp, this`outDbcnt, inDb, outDb
      ensures Waiting()
      ensures var s := old(Carried()) + Mapped(tab, added);
        Emitted() == old(Emitted()) + Lines(cbsz, s) && inDb[..inDbcnt] == Leftover(cbsz, s)
    {
      hide Lines, Leftover, Mapped;
      ghost var s := Carried() + Mapped(tab, added);
      TranslateInput();
      assert inDb[..inDbp] == s;
      TakeRecords(s);
      KeepRest();
    }

    /** A partial record moves to the front of the buffer. */
    method KeepRest()
      requires inDbcnt <= inDbp <= inDb.Length
      modifies this`inDbp, inDb
      ensures inDbp == inDbcnt && inDb[..inDbcnt] == old(inDb[inDbp - inDbcnt..inDbp])
    {
      if inDbcnt != 0 {
        Move(inDb, 0, inDbp - inDbcnt, inDbcnt);
        assert inDb[0..0 + inDbcnt] == inDb[..inDbcnt];
      }
      inDbp := inDbcnt;
    }

    /** `unblock_close`: a short last record becomes a line too. */
    method UnblockClose()
      requires Waiting()
      modifies this`outDbp, this`outDbcnt, outDb
      ensures outDbcnt <= outDb.Length
      ensures var r := inDb[..inDbcnt]; Emitted() == old(Emitted()) + if r == [] then [] else Strip(r) + [NL]
    {
      if inDbcnt != 0 {
        PutLine(0, inDbcnt);
        assert inDb[0..0 + inDbcnt] == inDb[..inDbcnt];
      }
    }
  }

  function Min(a: nat, b: nat): nat { if a < b then a else b }

  /** What `osync` makes of a buffer that holds `cnt` bytes when the padding starts at `dbp`. */
  ghost function Padded(buf: seq<Byte>, dbp: nat, cnt: nat, obs: nat): seq<Byte>
    requires dbp <= cnt <= |buf| && obs <= |buf|
  {
    if 0 < cnt < obs then buf[..dbp] + Fill(SP, obs - cnt) + buf[dbp + (obs - cnt)..obs] else buf[..cnt]
  }

  /** How many bytes short of a whole number of blocks. */
  function Short(n: nat, obs: nat): (r: nat)
    requires 0 < obs
    ensures r < obs
  {
    if n % obs == 0 then 0 else obs - n % obs
  }

  lemma {:induction false} ShortIs(w: nat, n: nat, obs: nat)
    requires 0 < obs && Multiple(w, obs)
    ensures Short(w + n, obs) == 0 <==> Multiple(n, obs)
    ensures n < obs ==> Short(w + n, obs) == if n == 0 then 0 else obs - n
  {
    ModAdd(w, n, obs);
    if n < obs {
      ModSmall(n, obs);
    }
  }

  lemma {:induction false} OsyncOutcome(w: seq<Byte>, buf: seq<Byte>, b: nat, cbsz: nat, obs: nat,
                                        tab: Table, tail: seq<Byte>, shadow: seq<Byte>)
    requires 0 < cbsz && b < obs <= |shadow| && |buf| == obs + cbsz && Multiple(|w|, obs)
    requires tail != [] && |tail| <= cbsz && buf[b..b + cbsz] == TailRecord(cbsz, tab, tail)
    requires b + cbsz < obs ==> buf[b + cbsz..obs] == shadow[b + cbsz..obs]
    ensures var full, all := w + buf[..b + cbsz], w + Padded(buf, b, b + cbsz, obs);
      && (all == full + Fill(SP, Short(|full|, obs)) <==> OsyncWorks(obs, cbsz, tab, b, tail, shadow))
      && forall skipping :: Osynced(obs, cbsz, tab, State(w + buf[..b], tail, skipping), b, shadow, all)
  {
    hide Multiple, Short, TailRecord, Padded, Fill, Overwritten, OsyncWorks;
    var n := b + cbsz;
    OsyncExact(w, buf, b, cbsz, obs, tab, tail, shadow);
    PaddedOver(w, buf, b, n, obs);
    assert w + buf[..b] + buf[b..n] == w + buf[..n];
    if n < obs {
      assert buf[b..obs] == buf[b..n] + buf[n..obs];
      PaddedTail(w, buf, b, n, obs);
    }
  }

  lemma {:induction false} OsyncExact(w: seq<Byte>, buf: seq<Byte>, b: nat, cbsz: nat, obs: nat,
                                      tab: Table, tail: seq<Byte>, shadow: seq<Byte>)
    requires 0 < cbsz && b < obs <= |shadow| && |buf| == obs + cbsz && Multiple(|w|, obs)
    requires tail != [] && |tail| <= cbsz && buf[b..b + cbsz] == TailRecord(cbsz, tab, tail)
    requires b + cbsz < obs ==> buf[b + cbsz..obs] == shadow[b + cbsz..obs]
    ensures var full, all := w + buf[..b + cbsz], w + Padded(buf, b, b + cbsz, obs);
      all == full + Fill(SP, Short(|full|, obs)) <==> OsyncWorks(obs, cbsz, tab, b, tail, shadow)
  {
    hide Multiple, Short, TailRecord, Padded, Fill;
    var n, gap := b + cbsz, Short(|w| + (b + cbsz), obs);
    ShortIs(|w|, n, obs);
    Regroup(w, buf[..n], Fill(SP, gap));
    PrefixedEqual(w, Padded(buf, b, n, obs), buf[..n] + Fill(SP, gap));
    if n < obs {
      PaddedExact(buf, b, n, obs);
      SameEnd(buf, shadow, n, obs, Min(cbsz, obs - n));
    } else {
      PaddedOver(w, buf, b, n, obs);
    }
  }

  lemma {:induction false} SameEnd(a: seq<Byte>, b: seq<Byte>, n: nat, m: nat, g: nat)
    requires n + g <= m <= |a| && m <= |b| && a[n..m] == b[n..m]
    ensures a[m - g..m] == b[m - g..m]
  {
    assert a[m - g..m] == a[n..m][m - g - n..] && b[m - g..m] == b[n..m][m - g - n..];
  }

  lemma {:induction false} PlainOutcome(w: seq<Byte>, buf: seq<Byte>, b: nat, cbsz: nat, obs: nat,
                                        tab: Table, shadow: seq<Byte>)
    requires b < obs <= |shadow| && obs <= |buf| && Multiple(|w|, obs)
    ensures var full, all := w + buf[..b], w + Padded(buf, b, b, obs);
      && all == full + Fill(SP, Short(|full|, obs)) && OsyncWorks(obs, cbsz, tab, b, [], shadow)
      && forall skipping :: Osynced(obs, cbsz, tab, State(full, [], skipping), b, shadow, all)
  {
    hide Multiple, Short;
    PaddedPlain(buf, b, obs);
    ShortIs(|w|, b, obs);
  }

  /** When `osync` pads the last block as promised after `b` buffered bytes and an unfinished line: there is no such
      line, or its record ends a block, or the bytes the padding overwrites and those it misses are spaces already. */
  ghost predicate OsyncWorks(obs: nat, cbsz: nat, tab: Table, b: nat, tail: seq<Byte>, shadow: seq<Byte>)
    requires 0 < obs <= |shadow| && |tail| <= cbsz
  {
    || tail == []
    || Multiple(b + cbsz, obs)
    || (b + cbsz < obs
        && var g := Min(cbsz, obs - (b + cbsz));
        TailRecord(cbsz, tab, tail)[..g] == Fill(SP, g) == shadow[obs - g..obs])
  }

  /** `rest` after `out`, its first `gap` bytes overwritten with spaces. */
  ghost function Overwritten(out: seq<Byte>, rest: seq<Byte>, gap: nat): seq<Byte>
    requires gap <= |rest|
  {
    out + Fill(SP, gap) + rest[gap..]
  }

  /** What `osync` writes after `block` has stopped in state `st` with `b` bytes buffered. */
  ghost predicate Osynced(obs: nat, cbsz: nat, tab: Table, st: State, b: nat, shadow: seq<Byte>, written: seq<Byte>)
    requires 0 < obs <= |shadow| && |st.pending| <= cbsz
  {
    var full, n := Closed(cbsz, tab, st), b + cbsz;
    if st.pending == [] then b < obs && written == full + if b == 0 then [] else Fill(SP, obs - b)
    else if obs <= n then written == full
    else
      var record, g := TailRecord(cbsz, tab, st.pending), Min(cbsz, obs - n);
      && written == Overwritten(st.out, record + shadow[n..obs], obs - n)
      && |written| == |full| + (obs - n)
      && (written[..|full|] == full <==> record[..g] == Fill(SP, g))
  }

  lemma {:induction false} PaddedTail(w: seq<Byte>, buf: seq<Byte>, b: nat, n: nat, obs: nat)
    requires b < n < obs <= |buf|
    ensures w + Padded(buf, b, n, obs) == Overwritten(w + buf[..b], buf[b..obs], obs - n)
  {
    assert buf[b..obs][obs - n..] == buf[b + (obs - n)..obs];
  }

  lemma {:induction false} PaddedPlain(buf: seq<Byte>, cnt: nat, obs: nat)
    requires cnt < obs <= |buf|
    ensures Padded(buf, cnt, cnt, obs) == buf[..cnt] + if cnt == 0 then [] else Fill(SP, obs - cnt)
  {
  }

  /** A buffer in which `mid` has been written at `p`, up to `n`. */
  lemma {:induction false} Patched(was: seq<Byte>, now: seq<Byte>, p: nat, mid: seq<Byte>, n: nat)
    requires |was| == |now| && p + |mid| <= n <= |now| && now[..p] == was[..p]
    requires now[p..p + |mid|] == mid && now[p + |mid|..] == was[p + |mid|..]
    ensures now[..n] == was[..p] + mid + was[p + |mid|..n]
  {
  }

  /** The front of a padded buffer: up to the padding as it was, then spaces, then what the padding does not reach. */
  lemma {:induction false} PaddedFront(buf: seq<Byte>, b: nat, n: nat, obs: nat)
    requires b < n < obs <= |buf|
    ensures var p, g := Padded(buf, b, n, obs), Min(n - b, obs - n);
      |p| == obs && p[..n] == buf[..b] + (Fill(SP, g) + buf[b..n][g..])
  {
    var p, g := Padded(buf, b, n, obs), Min(n - b, obs - n);
    var q := buf[..b] + (Fill(SP, g) + buf[b..n][g..]);
    forall i | 0 <= i < n
      ensures p[i] == q[i]
    {
      if b + g <= i {
        assert q[i] == buf[b..n][g..][i - (b + g)] == buf[i];
      }
    }
  }

  /** Padding that starts before the last record overwrites it: harmless exactly when it was spaces. */
  lemma {:induction false} PaddedOver(w: seq<Byte>, buf: seq<Byte>, b: nat, n: nat, obs: nat)
    requires b < n <= |buf| && obs <= |buf|
    ensures obs <= n ==> Padded(buf, b, n, obs) == buf[..n]
    ensures n < obs ==>
      var p, g := Padded(buf, b, n, obs), Min(n - b, obs - n);
      |p| == obs && ((w + p)[..|w| + n] == w + buf[..n] <==> buf[b..n][..g] == Fill(SP, g))
  {
    if n < obs {
      var p, g, x, t := Padded(buf, b, n, obs), Min(n - b, obs - n), buf[..b], buf[b..n];
      PaddedFront(buf, b, n, obs);
      assert buf[..n] == x + t && (w + p)[..|w| + n] == w + p[..n];
      Overlay(w, x, t, g);
    }
  }

  lemma {:induction false} LastBlock(now: seq<Byte>, w: seq<Byte>, buf: seq<Byte>, k: nat, obs: nat, e: seq<Byte>)
    requires |now| == |w| + obs && obs + k <= |buf| && now <= e == w + buf[..obs + k]
    ensures now[|now| - obs..] == buf[..obs]
  {
    assert now == e[..|w| + obs];
  }

  lemma {:induction false} Regroup(w: seq<Byte>, a: seq<Byte>, b: seq<Byte>)
    ensures w + a + b == w + (a + b) && w + a <= w + (a + b)
  {
  }

  /** The padding covers exactly the missing bytes when what it overwrites and what it misses are spaces. */
  lemma {:induction false} PaddedExact(buf: seq<Byte>, b: nat, n: nat, obs: nat)
    requires b < n < obs <= |buf|
    ensures var g := Min(n - b, obs - n);
      Padded(buf, b, n, obs) == buf[..n] + Fill(SP, obs - n) <==> buf[b..n][..g] == Fill(SP, g) == buf[obs - g..obs]
  {
    var p, q, g := Padded(buf, b, n, obs), buf[..n] + Fill(SP, obs - n), Min(n - b, obs - n);
    if p == q {
      assert buf[b..n][..g] == q[b..b + g] == p[b..b + g] == Fill(SP, g);
      assert buf[obs - g..obs] == p[obs - g..] == q[obs - g..] == Fill(SP, g);
    }
    if buf[b..n][..g] == Fill(SP, g) == buf[obs - g..obs] {
      PaddedBlank(buf, b, n, obs);
    }
  }

  lemma {:induction false} PaddedBlank(buf: seq<Byte>, b: nat, n: nat, obs: nat)
    requires b < n < obs <= |buf|
    requires var g := Min(n - b, obs - n); buf[b..n][..g] == Fill(SP, g) == buf[obs - g..obs]
    ensures Padded(buf, b, n, obs) == buf[..n] + Fill(SP, obs - n)
  {
    var p, q, g := Padded(buf, b, n, obs), buf[..n] + Fill(SP, obs - n), Min(n - b, obs - n);
    forall i | 0 <= i < obs
      ensures p[i] == q[i]
    {
      if b <= i < b + g {
        assert q[i] == buf[b..n][..g][i - b];
      }
      if obs - g <= i {
        assert buf[i] == buf[obs - g..obs][i - (obs - g)];
      }
    }
  }

  /** Overwriting the front of the last part of a stream with spaces is harmless exactly when it was spaces. */
  lemma {:induction false} Overlay(w: seq<Byte>, x: seq<Byte>, t: seq<Byte>, g: nat)
    requires g <= |t|
    ensures w + (x + (Fill(SP, g) + t[g..])) == w + (x + t) <==> t[..g] == Fill(SP, g)
  {
    var u := Fill(SP, g) + t[g..];
    PrefixedEqual(w, x + u, x + t);
    PrefixedEqual(x, u, t);
    assert u[..g] == Fill(SP, g);
    assert t == t[..g] + t[g..];
  }

  lemma RunNothing(n: nat, tab: Table, st: State)
    ensures Run(n, tab, st, []) == st
  {
  }

  /** Scanning the unfinished line again together with what follows it. */
  lemma {:induction false} Rescan(n: nat, tab: Table, out: seq<Byte>, carried: seq<Byte>, added: seq<Byte>)
    requires |carried| < n && NL !in carried
    ensures Run(n, tab, State(out, [], false), carried + added) == Run(n, tab, State(out, carried, false), added)
  {
    RunConcat(n, tab, State(out, [], false), carried, added);
    RunShort(n, tab, out, [], carried);
    assert [] + carried == carried;
  }

  function Flatten(chunks: seq<seq<Byte>>): seq<Byte>
  {
    if chunks == [] then [] else Flatten(chunks[..|chunks| - 1]) + chunks[|chunks| - 1]
  }

  lemma {:induction false} TallyNothing(n: nat)
    requires 0 < n
    ensures Tally(n, []) == 0
  {
  }

  /** How many reads end where a line has just filled a record and only its newline is to come. */
  function Splits(n: nat, chunks: seq<seq<Byte>>): nat
  {
    if |chunks| < 2 then 0
    else
      var before, last := chunks[..|chunks| - 1], chunks[|chunks| - 1];
      Splits(n, before) + if |Tail(Flatten(before))| == n && last != [] && last[0] == NL then 1 else 0
  }

  /** The reads of dd with `conv=block`, up to the end of the input. */
  method BlockReads(ibs: nat, obs: nat, cbsz: nat, tab: Table, chunks: seq<seq<Byte>>) returns (dd: Dd)
    requires 0 < ibs && 0 < obs && 0 < cbsz && forall k :: 0 <= k < |chunks| ==> 0 < |chunks[k]| <= ibs
    ensures fresh(dd) && fresh(dd.inDb) && fresh(dd.outDb)
    ensures dd.obs == obs && dd.cbsz == cbsz && dd.tab == tab && dd.Ready()
    ensures dd.Abs() == Run(cbsz, tab, State([], [], false), Flatten(chunks))
    ensures dd.truncs == Tally(cbsz, Flatten(chunks)) + Splits(cbsz, chunks)
  {
    hide Run, Tally, Tail, Anew;
    dd := new Dd(ibs, obs, cbsz, tab);
    ghost var start := State([], [], false);
    RunNothing(cbsz, tab, start);
    TallyNothing(cbsz);
    for k := 0 to |chunks|
      invariant dd.Ready() && fresh(dd) && fresh(dd.inDb) && fresh(dd.outDb)
      invariant dd.Abs() == Run(cbsz, tab, start, Flatten(chunks[..k]))
      invariant dd.truncs == Tally(cbsz, Flatten(chunks[..k])) + Splits(cbsz, chunks[..k])
    {
      assert chunks[..k + 1][..k] == chunks[..k];
      RunConcat(cbsz, tab, start, Flatten(chunks[..k]), chunks[k]);
      TallyConcat(cbsz, tab, Flatten(chunks[..k]), chunks[k]);
      AnewState(dd.Abs(), chunks[k]);
      SplitsNext(cbsz, chunks[..k], chunks[k]);
      assert chunks[..k + 1] == chunks[..k] + [chunks[k]];
      dd.Read(chunks[k]);
      dd.Block(chunks[k]);
    }
    assert chunks[..|chunks|] == chunks;
  }

  lemma {:induction false} SplitsNext(n: nat, chunks: seq<seq<Byte>>, c: seq<Byte>)
    requires 0 < n && c != []
    ensures Splits(n, chunks + [c]) ==
      Splits(n, chunks) + if |Tail(Flatten(chunks))| == n && c[0] == NL then 1 else 0
  {
    hide Tail;
    assert (chunks + [c])[..|chunks|] == chunks;
    if chunks == [] {
      assert Tail([]) == [] by {
        TailNothing();
      }
    }
  }

  lemma {:induction false} TailNothing()
    ensures Tail([]) == []
  {
  }

  /** dd with `conv=block`: however the input is cut into reads and the output into writes, the bytes
      written are the blocked form of the whole input. The records reported as truncated are those longer than the
      record size, the unterminated last one if it is not empty, and those that just fill a record if a read ended right
      before their newline: as many as are longer, exactly if there are none of the others. */
  method BlockStream(ibs: nat, obs: nat, cbsz: nat, tab: Table, chunks: seq<seq<Byte>>)
    returns (written: seq<Byte>, truncated: nat)
    requires 0 < ibs && 0 < obs && 0 < cbsz && forall k :: 0 <= k < |chunks| ==> 0 < |chunks[k]| <= ibs
    ensures written == Blocked(cbsz, tab, Flatten(chunks))
    ensures var s := Flatten(chunks); var unfinished := 0 < |Tail(s)| <= cbsz;
      && truncated == Longer(cbsz, s) + Splits(cbsz, chunks) + (if unfinished then 1 else 0)
      && (truncated == Longer(cbsz, s) <==> Splits(cbsz, chunks) == 0 && !unfinished)
  {
    hide Run, Tally, Tail, Longer, Splits, Flatten;
    var dd := BlockReads(ibs, obs, cbsz, tab, chunks);
    RunIsBlocked(cbsz, tab, [], Flatten(chunks));
    RunTail(cbsz, tab, [], Flatten(chunks));
    TallyIsLonger(cbsz, Flatten(chunks));
    dd.BlockClose();
    truncated := dd.truncs;
    dd.Flush();
    assert [] + Blocked(cbsz, tab, Flatten(chunks)) == Blocked(cbsz, tab, Flatten(chunks));
    written := dd.written;
  }

  /** The bytes of a stream after its last whole block. */
  ghost function Held(out: seq<Byte>, obs: nat): (b: nat)
    requires 0 < obs
    ensures b <= |out|
  {
    |out| % obs
  }

  lemma {:induction false} HeldIs(out: seq<Byte>, w: nat, obs: nat)
    requires 0 < obs && w <= |out| < w + obs && Multiple(w, obs)
    ensures Held(out, obs) == |out| - w
  {
    ModAdd(w, |out| - w, obs);
    ModSmall(|out| - w, obs);
  }

  /** The block before the one a stream ends in; a first block has only what the buffer held to begin with. */
  ghost function Before(out: seq<Byte>, obs: nat, first: seq<Byte>): seq<Byte>
    requires 0 < obs
  {
    var w := |out| - Held(out, obs);
    if w < obs then first else out[w - obs..w]
  }

  /** dd with `conv=block,osync`, under any reads and writes: the blocked form of the input, padded with spaces to
      whole blocks, exactly when the last line is terminated or cut, its record ends a block, or the bytes the
      misplaced padding overwrites and those it misses are spaces. `first` is what the buffer held to begin with. */
  method BlockStreamOsync(ibs: nat, obs: nat, cbsz: nat, tab: Table, chunks: seq<seq<Byte>>)
    returns (written: seq<Byte>, ghost first: seq<Byte>)
    requires 0 < ibs && 0 < obs && 0 < cbsz && forall k :: 0 <= k < |chunks| ==> 0 < |chunks[k]| <= ibs
    ensures |first| == obs + cbsz
    ensures var end := Run(cbsz, tab, State([], [], false), Flatten(chunks));
      var full, before, b := Blocked(cbsz, tab, Flatten(chunks)), Before(end.out, obs, first), Held(end.out, obs);
      && |end.pending| < cbsz && obs <= |before| && Closed(cbsz, tab, end) == full
      && Osynced(obs, cbsz, tab, end, b, before, written)
      && (written == full + Fill(SP, Short(|full|, obs)) <==> OsyncWorks(obs, cbsz, tab, b, end.pending, before))
  {
    hide Run, Short, OsyncWorks, Osynced, TailRecord, Multiple, Fill, Held, Before, Dd.Remembers, Blocked, Flatten;
    var dd := BlockReads(ibs, obs, cbsz, tab, chunks);
    dd.BeforeIsShadow();
    ghost var end := dd.Abs();
    first := dd.first;
    RunIsBlocked(cbsz, tab, [], Flatten(chunks));
    assert [] + Blocked(cbsz, tab, Flatten(chunks)) == Blocked(cbsz, tab, Flatten(chunks));
    dd.CloseBlockOsync();
    written := dd.written;
  }

  /** dd with `conv=unblock`: however the input is cut into reads, the bytes written are the unblocked form
      of the whole translated input. */
  method UnblockStream(ibs: nat, obs: nat, cbsz: nat, tab: Table, chunks: seq<seq<Byte>>) returns (written: seq<Byte>)
    requires 0 < ibs && 0 < obs && 0 < cbsz && forall k :: 0 <= k < |chunks| ==> 0 < |chunks[k]| <= ibs
    ensures written == Unblocked(cbsz, Mapped(tab, Flatten(chunks)))
  {
    hide Lines, Leftover, Strip, Unblocked;
    var dd := new Dd(ibs, obs, cbsz, tab);
    LinesFirst(cbsz, []);
    for k := 0 to |chunks|
      invariant dd.Waiting() && fresh(dd) && fresh(dd.inDb) && fresh(dd.outDb)
      invariant var s := Mapped(tab, Flatten(chunks[..k]));
        dd.Emitted() == Lines(cbsz, s) && dd.inDb[..dd.inDbcnt] == Leftover(cbsz, s)
    {
      assert chunks[..k + 1][..k] == chunks[..k];
      ghost var a, b := Mapped(tab, Flatten(chunks[..k])), Mapped(tab, chunks[k]);
      MappedConcat(tab, Flatten(chunks[..k]), chunks[k]);
      LinesConcat(cbsz, a, b);
      dd.Read(chunks[k]);
      dd.Unblock(chunks[k]);
    }
    assert chunks[..|chunks|] == chunks;
    UnblockedIsLines(cbsz, Mapped(tab, Flatten(chunks)));
    dd.UnblockClose();
    dd.Flush();
    written := dd.written;
  }

  /** Some way of cutting a stream into reads of at most `ibs` bytes: every way is possible. */
  method Chop(s: seq<Byte>, ibs: nat) returns (chunks: seq<seq<Byte>>)
    requires 0 < ibs
    ensures Flatten(chunks) == s && forall k :: 0 <= k < |chunks| ==> 0 < |chunks[k]| <= ibs
  {
    chunks := [];
    var p := 0;
    while p < |s|
      invariant p <= |s| && Flatten(chunks) == s[..p] && forall k :: 0 <= k < |chunks| ==> 0 < |chunks[k]| <= ibs
    {
      var n :| 1 <= n <= ibs && p + n <= |s|;
      ghost var was := chunks;
      chunks := chunks + [s[p..p + n]];
      assert chunks[..|chunks| - 1] == was;
      p := p + n;
    }
  }

  /** Blocking and then unblocking with the same record size, both passes under any reads and writes, returns
      every line cut to the record size and stripped of trailing spaces; the stream comes back unchanged
      exactly when its lines are terminated, fit in a record and do not end in a space. */
  method BlockThenUnblock(ibs: nat, obs: nat, cbsz: nat, chunks: seq<seq<Byte>>) returns (back: seq<Byte>)
    requires 0 < ibs && 0 < obs && 0 < cbsz
    requires forall k :: 0 <= k < |chunks| ==> 0 < |chunks[k]| <= ibs
    ensures back == CutLines(cbsz, Flatten(chunks))
    ensures back == Flatten(chunks) <==> Fits(cbsz, Flatten(chunks))
  {
    var blocked, truncated := BlockStream(ibs, obs, cbsz, NoTable, chunks);
    var again := Chop(blocked, ibs);
    back := UnblockStream(ibs, obs, cbsz, NoTable, again);
    assert Mapped(NoTable, blocked) == blocked;
    RoundTrip(cbsz, Flatten(chunks));
    CutLinesIdentity(cbsz, Flatten(chunks));
  }

  /** One unterminated byte that is not a space, two-byte records and eight-byte output blocks: `osync` writes over
      it. */
  method OsyncLosesTail(x: Byte) returns (written: seq<Byte>)
    requires x != NL && x != SP
    ensures |written| == 8 && written[..2] != Blocked(2, NoTable, [x])
  {
    hide Run, Blocked, TailRecord, Fill, LineEnd;
    var dd := new Dd(1, 8, 2, NoTable);
    dd.Read([x]);
    OneByte(x);
    dd.Block([x]);
    dd.CloseBlockOsync();
    written := dd.written;
  }

  /** Four lines and an unterminated space, two-byte records and eight-byte output blocks: the last record is spaces
      already, so nothing is lost, but `osync` leaves the end of the block before in the last two bytes. */
  method OsyncRepeatsBytes(a: Byte, b: Byte, c: Byte, d: Byte, chunks: seq<seq<Byte>>) returns (written: seq<Byte>)
    requires NL !in [a, b, c, d] && d != SP
    requires Flatten(chunks) == [a, a, NL, b, b, NL, c, c, NL, d, d, NL, SP]
    requires forall k :: 0 <= k < |chunks| ==> 0 < |chunks[k]| <= 16
    ensures var full := Blocked(2, NoTable, Flatten(chunks));
      && full == [a, a, b, b, c, c, d, d, SP, SP]
      && written == [a, a, b, b, c, c, d, d] + Fill(SP, 6) + [d, d] != full + Fill(SP, 6)
  {
    hide Run, Blocked, OsyncWorks, Flatten, Overwritten, TailRecord, Before, Held, Short, Fill, Min;
    ghost var first;
    written, first := BlockStreamOsync(16, 8, 2, NoTable, chunks);
    ghost var out := [a, a, b, b, c, c, d, d];
    FourLines(a, b, c, d);
    RunIsBlocked(2, NoTable, [], Flatten(chunks));
    OneBlock(out, d, first);
    assert out + [SP, SP] == [a, a, b, b, c, c, d, d, SP, SP];
  }

  lemma {:induction false} OneBlock(out: seq<Byte>, d: Byte, first: seq<Byte>)
    requires |out| == 8 && out[6..] == [d, d] && d != SP
    ensures Held(out, 8) == 0 && Before(out, 8, first) == out && TailRecord(2, NoTable, [SP]) == [SP, SP]
    ensures Overwritten(out, [SP, SP] + out[2..8], 6) == out + Fill(SP, 6) + [d, d] != out + [SP, SP] + Fill(SP, 6)
  {
    assert ([SP, SP] + out[2..8])[6..] == out[6..];
    assert (out + Fill(SP, 6) + [d, d])[15] == d;
    assert (out + [SP, SP] + Fill(SP, 6))[15] == SP;
  }

  lemma {:induction false} FourLines(a: Byte, b: Byte, c: Byte, d: Byte)
    requires NL !in [a, b, c, d]
    ensures Run(2, NoTable, State([], [], false), [a, a, NL, b, b, NL, c, c, NL, d, d, NL, SP]) ==
            State([a, a, b, b, c, c, d, d], [SP], false)
  {
    hide Run;
    assert [a, a, NL] + [b, b, NL, c, c, NL, d, d, NL, SP] == [a, a, NL, b, b, NL, c, c, NL, d, d, NL, SP];
    assert [b, b, NL] + [c, c, NL, d, d, NL, SP] == [b, b, NL, c, c, NL, d, d, NL, SP];
    assert [c, c, NL] + [d, d, NL, SP] == [c, c, NL, d, d, NL, SP];
    assert [d, d, NL] + [SP] == [d, d, NL, SP];
    assert [] + [a, a] == [a, a] && [a, a] + [b, b] == [a, a, b, b];
    assert [a, a, b, b] + [c, c] == [a, a, b, b, c, c] && [a, a, b, b, c, c] + [d, d] == [a, a, b, b, c, c, d, d];
    DoubledLine([], a, [b, b, NL, c, c, NL, d, d, NL, SP]);
    DoubledLine([a, a], b, [c, c, NL, d, d, NL, SP]);
    DoubledLine([a, a, b, b], c, [d, d, NL, SP]);
    DoubledLine([a, a, b, b, c, c], d, [SP]);
    RunShort(2, NoTable, [a, a, b, b, c, c, d, d], [], [SP]);
    assert [] + [SP] == [SP];
  }

  lemma {:induction false} DoubledLine(out: seq<Byte>, x: Byte, s: seq<Byte>)
    requires x != NL
    ensures Run(2, NoTable, State(out, [], false), [x, x, NL] + s) == Run(2, NoTable, State(out + [x, x], [], false), s)
  {
    hide Run;
    var all := [x, x, NL] + s;
    LineEndIs(all, 2);
    RunOneLine(2, NoTable, out, all);
    assert all[..2] == [x, x] && all[3..] == s;
    assert Record(2, NoTable, [x, x]) == [x, x];
  }

  /** A line that just fills a record, read in two pieces, is reported as truncated. */
  method Miscounted(a: Byte, b: Byte) returns (truncated: nat)
    requires a != NL && b != NL
    ensures truncated == 1 && Longer(2, [a, b, NL]) == 0
  {
    hide Blocked;
    var written;
    written, truncated := BlockStream(2, 2, 2, NoTable, [[a, b], [NL]]);
    FilledLine(a, b);
  }

  lemma {:induction false} FilledLine(a: Byte, b: Byte)
    requires a != NL && b != NL
    ensures Longer(2, [a, b, NL]) == 0 && Tail([a, b, NL]) == []
    ensures Flatten([[a, b], [NL]]) == [a, b, NL] && Splits(2, [[a, b], [NL]]) == 1
  {
    hide LineEnd;
    var s, cs := [a, b, NL], [[a, b], [NL]];
    LineEndIs(s, 2);
    LineEndIs([], 0);
    LineEndIs([a, b], 2);
    assert s[3..] == [] && cs[..1] == [[a, b]] && [[a, b]][..0] == [];
    assert Flatten([[a, b]]) == Flatten([]) + [a, b] == [a, b];
    assert Flatten(cs) == Flatten([[a, b]]) + [NL];
    assert Splits(2, [[a, b]]) == 0;
  }

  lemma {:induction false} OneByte(x: Byte)
    requires x != NL && x != SP
    ensures Run(2, NoTable, State([], [], false), [x]) == State([], [x], false)
    ensures Blocked(2, NoTable, [x]) == [] + TailRecord(2, NoTable, [x])
    ensures TailRecord(2, NoTable, [x])[..2] != Fill(SP, 2)
  {
    RunShort(2, NoTable, [], [], [x]);
    assert [] + [x] == [x];
    assert LineEnd([x]) == 1;
    assert TailRecord(2, NoTable, [x])[..2][0] == x;
  }

  /** The front and the back of a slice of a buffer. */
  lemma {:induction false} Slices(a: array<Byte>, lo: nat, hi: nat, k: nat)
    requires lo + k <= hi <= a.Length
    ensures a[lo..hi][..k] == a[lo..lo + k] && a[lo..hi][k..] == a[lo + k..hi]
  {
  }

  /** The parts of a whole buffer around a record at `b`. */
  lemma {:induction false} Views(a: array<Byte>, b: nat, n: nat, m: nat)
    requires b + n <= a.Length && m <= a.Length
    ensures var s := a[..];
      && s[..b] == a[..b] && s[b..b + n] == a[b..b + n] && s[..b + n] == a[..b + n]
      && (b + n < m ==> s[b + n..m] == a[b + n..][..m - (b + n)])
  {
  }

  lemma {:induction false} SubPrefix(s: seq<Byte>, k: nat, j: nat)
    requires j <= k <= |s|
    ensures s[..k][..j] == s[..j]
  {
  }

  lemma {:induction false} PaddedRecord(n: nat, tab: Table, line: seq<Byte>)
    requires |line| <= n
    ensures Record(n, tab, line) == Mapped(tab, line) + Fill(tab.Of(SP), n - |line|)
  {
    assert line[..|line|] == line;
  }

  lemma {:induction false} RecordOfPrefix(n: nat, tab: Table, line: seq<Byte>, cnt: nat)
    requires cnt == if n <= |line| then n else |line|
    ensures Record(n, tab, line) == Record(n, tab, line[..cnt])
  {
  }

  lemma {:induction false} EndsAtOnce(s: seq<Byte>)
    ensures s != [] ==> (LineEnd(s) == 0 <==> s[0] == NL)
  {
  }

  lemma {:induction false} LineEndDrop(s: seq<Byte>, n: nat)
    requires n <= LineEnd(s)
    ensures LineEnd(s[n..]) == LineEnd(s) - n
  {
  }

  /** One whole line, short or cut, through the automaton. */
  lemma {:induction false} RunOneLine(n: nat, tab: Table, out: seq<Byte>, s: seq<Byte>)
    requires 0 < n && (LineEnd(s) < |s| || n <= LineEnd(s))
    ensures var k := LineEnd(s);
      var r := out + Record(n, tab, s[..k]);
      Run(n, tab, State(out, [], false), s) ==
      if k < |s| then Run(n, tab, State(r, [], false), s[k + 1..]) else Run(n, tab, State(r, [], true), [])
  {
    if LineEnd(s) < n {
      RunLine(n, tab, out, s);
    } else {
      RunCut(n, tab, out, s);
    }
  }
}
