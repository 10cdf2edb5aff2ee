/** The job table: processes in rings of friends, job indices, and the current and previous job. */
module Jobs {
  import opened DirStack
  import opened Words

  /** The bits of `p_flags`. */
  datatype Flag =
    | Running | Stopped | NExited | AExited | Signaled | Notify | Time | AWaited
    | Foregnd | Dumped | Err | Pou | Reported | Interrupted | PTime | NeedNote

  ghost function Bit(b: bool): int { if b then 1 else 0 }

  /** Exactly one of the six states of `PALLSTATES`. */
  ghost predicate OneState(f: set<Flag>)
  {
    1 == Bit(Running in f) + Bit(Stopped in f) + Bit(NExited in f) + Bit(AExited in f)
         + Bit(Signaled in f) + Bit(Interrupted in f)
  }

  /** `struct process`; `ring` is the circle its `friends` links trace, from the job's first process. */
  class Process {
    var pid: int
    var jobid: int
    var index: int
    var flags: set<Flag>
    var friends: Process
    var cwd: Directory?
    ghost var ring: seq<Process>

    constructor (pid: int, flags: set<Flag>)
      ensures this.pid == pid && this.flags == flags && friends == this && cwd == null
    {
      this.pid, this.flags := pid, flags;
      jobid, index, friends, cwd := 0, 0, this, null;
      ring := [];
    }
  }

  /** The `friends` links run through `c` in order and back to its start. */
  ghost predicate Cycle(c: seq<Process>)
    reads c`friends
  {
    && c != []
    && (forall i, j :: 0 <= i < j < |c| ==> c[i] != c[j])
    && (forall i {:trigger c[i].friends} :: 0 <= i < |c| ==> c[i].friends == c[if i + 1 < |c| then i + 1 else 0])
  }

  /** `p` lies on its ring, which is a cycle of listed processes that all know it. */
  ghost predicate RingOk(all: set<Process>, p: Process)
    reads all`ring, all`friends, p`ring, p`friends
  {
    && p in p.ring && (forall q :: q in p.ring ==> q in all) && Cycle(p.ring)
    && (forall q :: q in p.ring ==> q.ring == p.ring)
  }

  ghost predicate Follows(p: Process, l: Process)
    reads {p, l}`pid, {p, l}`jobid, {p, l}`index
  {
    if p.pid == 0 then l.pid == 0 && p.index == 0
    else p.pid > 0 && l.pid == l.jobid == p.jobid && l.index == p.index >= 1 && (p.pid == p.jobid ==> p == l)
  }

  /** A flushed process has neither pid nor index; a live one agrees with its leader, who alone has pid equal to job
      id. */
  ghost predicate JobOk(p: Process)
    reads p`ring, p`cwd, p`pid, p`jobid, p`index, p.ring`pid, p.ring`jobid, p.ring`index
  {
    && p.ring != [] && p.jobid > 0
    && Follows(p, p.ring[0])
    && (p.cwd != null <==> p == p.ring[0])
  }

  ghost predicate States(all: set<Process>)
    reads all`flags
  {
    forall p :: p in all ==> OneState(p.flags)
  }

  ghost predicate Rings(all: set<Process>)
    reads all`ring, all`friends, all`cwd, all`pid, all`jobid, all`index
  {
    && (forall p :: p in all ==> RingOk(all, p))
    && (forall p :: p in all ==> JobOk(p))
  }

  /** Live processes have distinct pids, live jobs distinct indices, and `max` is the largest. */
  ghost predicate Indexed(all: set<Process>, max: int)
    reads all`pid, all`index, all`ring
  {
    && (forall p, q :: p in all && q in all && p != q && p.pid == q.pid ==> p.pid == 0)
    && (forall p, q :: p in all && q in all && p.index == q.index && p.index != 0 ==> p.ring == q.ring)
    && 0 <= max && (forall p :: p in all ==> p.index <= max)
    && (max == 0 || exists p :: p in all && p.index == max)
  }

  /** Null, or the leader of a job that has not been flushed. */
  ghost predicate LeaderOrNull(all: set<Process>, p: Process?)
    reads all`pid, all`jobid
  {
    p == null || (p in all && p.pid != 0 && p.pid == p.jobid)
  }

  ghost predicate Marks(all: set<Process>, current: Process?, previous: Process?)
    reads all`pid, all`jobid
  {
    && LeaderOrNull(all, current) && LeaderOrNull(all, previous)
    && (current == null ==> previous == null) && (current != null ==> current != previous)
  }

  /** One reference for every job head still in the list, flushed or not. */
  ghost function References(procs: seq<Process>): multiset<Directory>
    reads procs`cwd
  {
    if procs == [] then multiset{}
    else References(procs[1..]) + (if procs[0].cwd != null then multiset{procs[0].cwd} else multiset{})
  }

  /** Rings are equal or disjoint: they partition the list. */
  lemma {:induction false} RingsPartition(all: set<Process>, p: Process, q: Process)
    requires Rings(all) && p in all && q in all
    ensures p.ring == q.ring || forall x :: x in p.ring ==> x !in q.ring
    ensures q in p.ring <==> p.ring == q.ring
  {
  }

  /** The leader is the only process of a live ring whose pid is the job id. */
  lemma {:induction false} LeaderIsFirst(all: set<Process>, p: Process)
    requires Rings(all) && p in all && p.pid != 0
    ensures p.pid == p.jobid <==> p == p.ring[0]
    ensures p.ring[0] in all && LeaderOrNull(all, p.ring[0]) && p.ring[0].ring == p.ring
  {
  }

  /** The ring as a walk along `friends` from position `k` meets it. */
  ghost function From(r: seq<Process>, k: nat): seq<Process>
    requires k <= |r|
  {
    r[k..] + r[..k]
  }

  lemma {:induction false} FromCycle(r: seq<Process>, k: nat)
    requires Cycle(r) && k < |r|
    ensures Cycle(From(r, k)) && From(r, k)[0] == r[k] && forall q :: q in From(r, k) <==> q in r
  {
  }

  /** The loops that follow `friends` until the job leader. */
  method FindLeader(p: Process, ghost all: set<Process>) returns (l: Process)
    requires Rings(all) && p in all && p.pid != 0
    ensures l == p.ring[0]
  {
    l := p;
    ghost var i :| 0 <= i < |p.ring| && p.ring[i] == p;
    while l.pid != l.jobid
      invariant 0 <= i < |p.ring| && p.ring[i] == l
      decreases if i == 0 then 0 else |p.ring| - i
    {
      LeaderIsFirst(all, l);
      l := l.friends;
      i := if i + 1 < |p.ring| then i + 1 else 0;
    }
    LeaderIsFirst(all, l);
  }

  /** The flushing loop of `pflush`. */
  method FlushRing(pp: Process, ghost r: seq<Process>)
    requires Cycle(r) && r[0] == pp
    modifies r`pid, r`index, r`flags
    ensures forall q :: q in r ==> q.pid == 0 && q.index == 0 && q.flags == old(q.flags) - {NeedNote}
  {
    var np := pp;
    ghost var i := 0;
    while true
      invariant 0 <= i < |r| && np == r[i]
      invariant forall j :: 0 <= j < i ==>
        r[j].pid == 0 && r[j].index == 0 && r[j].flags == old(r[j].flags) - {NeedNote}
      invariant forall j :: i <= j < |r| ==> r[j].flags == old(r[j].flags)
      decreases |r| - i
    {
      np.index, np.pid := 0, 0;
      np.flags := np.flags - {NeedNote};
      np := np.friends;
      if np == pp {
        break;
      }
      i := i + 1;
    }
  }

  /** A leader other than the two given ones. */
  ghost predicate Candidate(np: Process, current: Process?, pp: Process?)
    reads np
  {
    np != current && np != pp && np.pid != 0 && np.pid == np.jobid
  }

  /** Position `i` holds the choice of `pgetcurr`: the first stopped candidate, or the first one when none is
      stopped. */
  ghost predicate Chosen(procs: seq<Process>, i: nat, current: Process?, pp: Process?)
    reads procs
    requires i < |procs|
  {
    && Candidate(procs[i], current, pp)
    && (forall j :: 0 <= j < i && Candidate(procs[j], current, pp) ==>
         Stopped in procs[i].flags && Stopped !in procs[j].flags)
    && (Stopped !in procs[i].flags ==> forall j :: i < j < |procs| && Candidate(procs[j], current, pp) ==>
         Stopped !in procs[j].flags)
  }

  /** `xp` is the choice of `pgetcurr`, or null when there is no candidate. */
  ghost predicate NextJob(procs: seq<Process>, current: Process?, pp: Process?, xp: Process?)
    reads procs
  {
    if xp == null then forall p :: p in procs ==> !Candidate(p, current, pp)
    else exists i :: 0 <= i < |procs| && procs[i] == xp && Chosen(procs, i, current, pp)
  }

  /** `pgetcurr`: the most recent other job that is stopped, failing that the most recent other job. */
  method Pgetcurr(procs: seq<Process>, current: Process?, pp: Process?) returns (xp: Process?)
    ensures NextJob(procs, current, pp, xp)
  {
    xp := null;
    ghost var x := 0;
    for i := 0 to |procs|
      invariant xp == null ==> forall j :: 0 <= j < i ==> !Candidate(procs[j], current, pp)
      invariant xp != null ==> 0 <= x < i && procs[x] == xp && Candidate(xp, current, pp) && Stopped !in xp.flags
      invariant xp != null ==> forall j :: 0 <= j < x ==> !Candidate(procs[j], current, pp)
      invariant forall j :: 0 <= j < i && Candidate(procs[j], current, pp) ==> Stopped !in procs[j].flags
    {
      var np := procs[i];
      if np != current && np != pp && np.pid != 0 && np.pid == np.jobid {
        if Stopped in np.flags {
          assert Chosen(procs, i, current, pp);
          return np;
        }
        if xp == null {
          xp, x := np, i;
        }
      }
    }
    assert xp != null ==> Chosen(procs, x, current, pp);
  }

  /** The flags of a process after `pchild` has looked at its running time. */
  ghost function Timed(f: set<Flag>, over: bool): set<Flag>
  {
    if over && {PTime, Running, Stopped} !! f then f + {Time} else f
  }

  lemma {:induction false} TimedMeans()
    ensures forall f, over :: SameState(f, Timed(f, over)) && Timed(f, over) - {Time} == f - {Time}
    ensures forall f, over, x :: x != Time ==> (x in f <==> x in Timed(f, over))
    ensures forall f, over ::
      Time in Timed(f, over) <==> Time in f || (over && PTime !in f && Running !in f && Stopped !in f)
  {
  }

  /** `jobflags`, and the `PTIME` marking on the way: one walk round the ring from any member. */
  method GatherFlags(pp: Process, overtime: set<Process>, ghost c: seq<Process>) returns (jobflags: set<Flag>)
    requires Cycle(c) && c[0] == pp
    modifies c`flags
    ensures forall q :: q in c ==> q.flags == Timed(old(q.flags), q in overtime)
    ensures forall f :: f in jobflags <==> exists q :: q in c && f in q.flags
  {
    jobflags := {};
    var fp := pp;
    ghost var i := 0;
    while true
      invariant 0 <= i < |c| && fp == c[i]
      invariant forall j :: i <= j < |c| ==> c[j].flags == old(c[j].flags)
      invariant forall j :: 0 <= j < i ==> c[j].flags == Timed(old(c[j].flags), c[j] in overtime)
      invariant forall f :: f in jobflags <==> exists j :: 0 <= j < i && f in c[j].flags
      decreases |c| - i
    {
      if {PTime, Running, Stopped} !! fp.flags && fp in overtime {
        fp.flags := fp.flags + {Time};
      }
      jobflags := jobflags + fp.flags;
      fp := fp.friends;
      if fp == pp {
        break;
      }
      i := i + 1;
    }
  }

  /** The walk that marks the stopped processes of a job as reported. */
  method ReportStopped(pp: Process, ghost c: seq<Process>)
    requires Cycle(c) && c[0] == pp
    modifies c`flags
    ensures forall q :: q in c ==> q.flags == old(q.flags) + if Stopped in old(q.flags) then {Reported} else {}
  {
    var fp := pp;
    ghost var i := 0;
    while true
      invariant 0 <= i < |c| && fp == c[i]
      invariant forall j :: i <= j < |c| ==> c[j].flags == old(c[j].flags)
      invariant forall j :: 0 <= j < i ==>
        c[j].flags == old(c[j].flags) + if Stopped in old(c[j].flags) then {Reported} else {}
      decreases |c| - i
    {
      if Stopped in fp.flags {
        fp.flags := fp.flags + {Reported};
      }
      fp := fp.friends;
      if fp == pp {
        break;
      }
      i := i + 1;
    }
  }

  /** The flags of a process after `pstart`. */
  ghost function Started(f: set<Flag>, foregnd: bool): set<Flag>
  {
    if {Running, Stopped} !! f then f
    else if foregnd then (f + {Running} - {Stopped}) + {Foregnd} else f + {Running} - {Stopped} - {Foregnd}
  }

  /** What was running or stopped runs, in the foreground or not as asked; what was neither stays as it is. Only its
      timing may be changed besides. */
  ghost predicate Restarted(f: set<Flag>, g: set<Flag>, foregnd: bool)
  {
    && (Running in f || Stopped in f ==> Running in g && Stopped !in g && (Foregnd in g <==> foregnd))
    && (Running !in f && Stopped !in f ==>
          Running !in g && Stopped !in g && (Foregnd in g <==> Foregnd in f))
    && (forall x :: x !in {Running, Stopped, Foregnd, PTime, Time} ==> (x in g <==> x in f))
    && (PTime in g || Time in g <==> PTime in f || Time in f)
  }

  lemma {:induction false} StartedMeans(foregnd: bool)
    ensures forall f, alone :: Restarted(f, Printed(Started(f, foregnd), alone), foregnd)
  {
  }

  /** The loop of `pstart`. */
  method StartRing(pp: Process, foregnd: bool, ghost c: seq<Process>)
    requires Cycle(c) && c[0] == pp
    modifies c`flags
    ensures forall q :: q in c ==> q.flags == Started(old(q.flags), foregnd)
  {
    var np := pp;
    ghost var i := 0;
    while true
      invariant 0 <= i < |c| && np == c[i]
      invariant forall j :: i <= j < |c| ==> c[j].flags == old(c[j].flags)
      invariant forall j :: 0 <= j < i ==> c[j].flags == Started(old(c[j].flags), foregnd)
      decreases |c| - i
    {
      if !({Running, Stopped} !! np.flags) {
        np.flags := np.flags + {Running};
        np.flags := np.flags - {Stopped};
        if foregnd {
          np.flags := np.flags + {Foregnd};
        } else {
          np.flags := np.flags - {Foregnd};
        }
      }
      np := np.friends;
      if np == pp {
        break;
      }
      i := i + 1;
    }
  }

  /** Splice a new process into the ring of the current job, behind its last member. */
  method JoinRing(pp: Process, job: Process, ghost r: seq<Process>)
    requires Cycle(r) && r[0] == job && pp !in r
    modifies r`friends, r`ring, pp`friends, pp`ring
    ensures Cycle(r + [pp]) && forall q :: q in r + [pp] ==> q.ring == r + [pp]
  {
    pp.friends := job;
    var fp := job;
    ghost var i := 0;
    while fp.friends != job
      invariant 0 <= i < |r| && fp == r[i]
      decreases |r| - i
    {
      fp := fp.friends;
      i := i + 1;
    }
    assert i == |r| - 1;
    fp.friends := pp;
    ghost var c := r + [pp];
    forall q | q in c { q.ring := c; }
  }

  ghost predicate InUse(procs: seq<Process>, i: int)
    reads procs`index
  {
    exists p :: p in procs && p.index == i
  }

  /** The search of `palloc` for the smallest index no process uses. */
  method FreeIndex(procs: seq<Process>, ghost max: int) returns (i: int)
    requires forall p :: p in procs ==> p.index <= max
    requires 0 <= max
    ensures 1 <= i <= max + 1 && !InUse(procs, i) && forall j :: 1 <= j < i ==> InUse(procs, j)
  {
    i := 1;
    while true
      invariant 1 <= i <= max + 1
      invariant forall j :: 1 <= j < i ==> InUse(procs, j)
      decreases max + 1 - i
    {
      var k := 0;
      while k < |procs| && procs[k].index != i
        invariant 0 <= k <= |procs| && forall j :: 0 <= j < k ==> procs[j].index != i
      {
        k := k + 1;
      }
      if k == |procs| {
        return;
      }
      assert procs[k] in procs;
      i := i + 1;
    }
  }

  const BIGINDEX := 9

  /** The index `palloc` gives a new job: the next one while indices are small, then the smallest unused one. */
  ghost predicate NextIndex(procs: seq<Process>, max: int, i: int)
    reads procs`index
  {
    if max < BIGINDEX then i == max + 1 else i >= 1 && !InUse(procs, i) && forall j :: 1 <= j < i ==> InUse(procs, j)
  }

  method ChooseIndex(procs: seq<Process>, max: int, ghost all: set<Process>) returns (index: int)
    requires Listed(procs, all) && Indexed(all, max)
    ensures NextIndex(procs, max, index) && index >= 1 && forall p :: p in all ==> p.index != index
  {
    if max < BIGINDEX {
      index := max + 1;
    } else {
      index := FreeIndex(procs, max);
    }
  }

  /** The scan of `pflush` for the largest index in use. */
  method MaxIndex(procs: seq<Process>) returns (max: int)
    ensures 0 <= max && (forall p :: p in procs ==> p.index <= max)
    ensures max == 0 || exists p :: p in procs && p.index == max
  {
    max := 0;
    for k := 0 to |procs|
      invariant 0 <= max && forall j :: 0 <= j < k ==> procs[j].index <= max
      invariant max == 0 || exists j :: 0 <= j < k && procs[j].index == max
    {
      if procs[k].index > max {
        max := procs[k].index;
      }
    }
  }

  /** Members of a ring other than `r` have kept their links. */
  twostate lemma {:induction false} OtherRing(new all: set<Process>, new r: seq<Process>, new p: Process)
    requires old(allocated(all)) && old(allocated(r)) && old(allocated(p))
    requires old(Rings(all)) && p in all && p !in r && r != [] && r[0] in all && old(r[0].ring) == r
    requires forall q :: q in all && q !in r ==> q.friends == old(q.friends) && q.ring == old(q.ring)
    ensures RingOk(all, p) && p.ring == old(p.ring) && forall q :: q in p.ring ==> q !in r
  {
    forall q | q in old(p.ring) ensures q !in r {
    }
    var c := p.ring;
    forall i | 0 <= i < |c| ensures c[i].friends == c[if i + 1 < |c| then i + 1 else 0] {
      assert c[i] in c;
    }
  }

  /** What `JoinRing` has done to the list `all`, a new process `pp` and the ring `r` it joins. */
  twostate predicate Joined(new all: set<Process>, new pp: Process, new r: seq<Process>)
    reads all, pp, r
    requires old(allocated(all)) && old(allocated(r))
  {
    && pp !in all && r != [] && r[0] in all && old(r[0].ring) == r && old(r[0].pid) != 0
    && (forall q :: q in all ==>
         q.pid == old(q.pid) && q.jobid == old(q.jobid) && q.index == old(q.index) && q.cwd == old(q.cwd))
    && (forall q :: q in all && q !in r ==> q.friends == old(q.friends) && q.ring == old(q.ring))
    && Cycle(r + [pp]) && (forall q :: q in r + [pp] ==> q.ring == r + [pp])
    && pp.pid > 0 && pp.jobid == r[0].pid && pp.pid != pp.jobid && pp.index == r[0].index && pp.cwd == null
  }

  twostate lemma {:induction false} JoinedOld(new all: set<Process>, new pp: Process, new r: seq<Process>,
                                              new p: Process)
    requires old(allocated(all)) && old(allocated(r)) && old(allocated(p))
    requires old(Rings(all)) && Joined(all, pp, r) && p in all
    ensures RingOk(all + {pp}, p) && JobOk(p)
  {
    var c := r + [pp];
    assert forall q :: q in c ==> q in r || q == pp;
    assert c[0] == r[0] && pp in c;
    if p !in r {
      OtherRing(all, r, p);
      assert p.ring[0] in p.ring;
    }
  }

  /** A process joining the ring `r` of a live job keeps every ring, job and index as it should be. */
  twostate lemma {:induction false} JoinedRings(new all: set<Process>, new pp: Process, new r: seq<Process>)
    requires old(allocated(all)) && old(allocated(r))
    requires old(Rings(all)) && Joined(all, pp, r)
    ensures Rings(all + {pp})
  {
    var c := r + [pp];
    assert forall q :: q in c ==> q in r || q == pp;
    assert c[0] == r[0] && pp in c;
    forall p | p in all ensures RingOk(all + {pp}, p) {
      JoinedOld(all, pp, r, p);
    }
    forall p | p in all ensures JobOk(p) {
      JoinedOld(all, pp, r, p);
    }
  }

  twostate lemma {:induction false} JoinedIndexed(new all: set<Process>, new pp: Process, new r: seq<Process>,
                                                  new max: int)
    requires old(allocated(all)) && old(allocated(r))
    requires old(Rings(all)) && old(Indexed(all, max)) && Joined(all, pp, r) && forall p :: p in all ==> p.pid != pp.pid
    ensures Indexed(all + {pp}, max)
  {
    forall p | p in all && p.index == pp.index ensures p.ring == pp.ring {
      assert p in r;
      assert p in r + [pp];
    }
  }

  lemma {:induction false} OwnRing(all: set<Process>, job: Process)
    requires Rings(all) && job in all && job.pid != 0 && job.pid == job.jobid
    ensures job.ring != [] && job.ring[0] == job && Cycle(job.ring) && forall q :: q in job.ring ==> q in all
  {
    LeaderIsFirst(all, job);
  }

  /** Allocate a process and splice it into the ring of `job`. */
  method NewFriend(job: Process, pid: int, flags: set<Flag>, ghost all: set<Process>, ghost max: int)
    returns (pp: Process)
    requires Rings(all) && Indexed(all, max) && job in all && job.pid != 0 && job.pid == job.jobid
    requires pid > 0 && (forall p :: p in all ==> p.pid != pid)
    modifies all`friends, all`ring
    ensures fresh(pp) && Rings(all + {pp}) && Indexed(all + {pp}, max)
    ensures pp.pid == pid && pp.flags == flags && pp.index == job.index && pp.jobid == job.pid && pp.cwd == null
    ensures job.ring == old(job.ring) + [pp] == pp.ring
  {
    hide Rings, Indexed, OneState, Cycle;
    OwnRing(all, job);
    ghost var r := job.ring;
    assert allocated(all) && allocated(r);
    pp := new Process(pid, flags);
    pp.index, pp.jobid := job.index, job.pid;
    JoinRing(pp, job, r);
    assert job in r + [pp] && pp in r + [pp];
    JoinedRings(all, pp, r);
    JoinedIndexed(all, pp, r, max);
  }

  /** Allocate the leader of a new job with an index nobody uses. */
  method NewJob(pid: int, flags: set<Flag>, index: int, dir: Directory, ghost all: set<Process>, ghost max: int)
    returns (pp: Process)
    requires Rings(all) && Indexed(all, max) && pid > 0 && (forall p :: p in all ==> p.pid != pid)
    requires index >= 1 && forall p :: p in all ==> p.index != index
    ensures fresh(pp) && Rings(all + {pp}) && Indexed(all + {pp}, if index > max then index else max)
    ensures pp.pid == pp.jobid == pid && pp.flags == flags && pp.index == index && pp.cwd == dir && pp.ring == [pp]
  {
    hide Rings, Indexed;
    pp := new Process(pid, flags);
    pp.jobid, pp.index, pp.cwd := pid, index, dir;
    pp.friends := pp;
    pp.ring := [pp];
    SoloRings(all, pp);
    SoloIndexed(all, pp, max);
  }

  /** A process alone on its ring. */
  lemma {:induction false} SoloRings(all: set<Process>, pp: Process)
    requires Rings(all) && pp !in all && pp.ring == [pp] && pp.friends == pp
    requires pp.pid == pp.jobid > 0 && pp.index >= 1 && pp.cwd != null
    ensures Rings(all + {pp})
  {
  }

  lemma {:induction false} SoloIndexed(all: set<Process>, pp: Process, max: int)
    requires Indexed(all, max) && pp !in all && pp.index >= 1
    requires forall p :: p in all ==> p.index != pp.index && p.pid != pp.pid
    ensures Indexed(all + {pp}, if pp.index > max then pp.index else max)
  {
  }

  /** What `FlushRing` has done to the ring `r` of the list `all`. */
  twostate predicate Flushed(new all: set<Process>, new r: seq<Process>)
    reads all, r
    requires old(allocated(all)) && old(allocated(r))
  {
    && r != [] && r[0] in all && old(r[0].ring) == r && old(r[0].pid) != 0
    && (forall q :: q in all ==>
         q.jobid == old(q.jobid) && q.friends == old(q.friends) && q.ring == old(q.ring) && q.cwd == old(q.cwd))
    && (forall q :: q in r ==> q.pid == 0 && q.index == 0)
    && (forall q :: q in all && q !in r ==> q.pid == old(q.pid) && q.index == old(q.index))
  }

  twostate lemma {:induction false} FlushedOne(new all: set<Process>, new r: seq<Process>, new p: Process)
    requires old(allocated(all)) && old(allocated(r)) && old(allocated(p))
    requires old(Rings(all)) && Flushed(all, r) && p in all
    ensures RingOk(all, p) && JobOk(p)
  {
    assert forall q :: q in p.ring ==> q in all;
    assert Cycle(p.ring);
    assert p.ring[0] in p.ring;
    if p !in r {
      OtherRing(all, r, p);
    }
  }

  /** A flushed ring keeps every ring and job well formed, and no live leader other than its own is touched. */
  twostate lemma {:induction false} FlushedRings(new all: set<Process>, new r: seq<Process>)
    requires old(allocated(all)) && old(allocated(r))
    requires old(Rings(all)) && Flushed(all, r)
    ensures Rings(all)
    ensures forall p :: p in all && old(p.pid) != 0 && old(p.pid) == p.jobid && p != r[0] ==> p !in r
  {
    forall p | p in all ensures RingOk(all, p) {
      FlushedOne(all, r, p);
    }
    forall p | p in all ensures JobOk(p) {
      FlushedOne(all, r, p);
    }
    forall p | p in all && old(p.pid) != 0 && old(p.pid) == p.jobid && p in r ensures p == r[0] {
      assert old(JobOk(p));
    }
  }

  /** A new job takes the first mark that is free. */
  lemma {:induction false} MarkNew(all: set<Process>, current: Process?, previous: Process?, pp: Process)
    requires Marks(all, current, previous) && pp in all && pp.pid != 0 && pp.pid == pp.jobid
    requires pp != current && pp != previous
    ensures LeaderOrNull(all, pp) &&
      Marks(all, if current == null then pp else current, if current != null && previous == null then pp else previous)
  {
  }

  /** `procs` lists exactly the processes of `all`, each once. */
  ghost predicate Listed(procs: seq<Process>, all: set<Process>)
  {
    && (forall p :: p in procs ==> p in all) && (forall p :: p in all ==> p in procs)
    && (forall i, j :: 0 <= i < j < |procs| ==> procs[i] != procs[j])
  }

  ghost predicate TableOk(procs: seq<Process>, all: set<Process>, max: int, current: Process?, previous: Process?,
                          job: Process?)
    reads all
  {
    && Listed(procs, all) && Rings(all) && States(all) && Indexed(all, max)
    && Marks(all, current, previous) && LeaderOrNull(all, job)
  }

  /** A process put at the front of the list leaves what holds of the others as it was. */
  lemma {:induction false} Prepended(procs: seq<Process>, all: set<Process>, pp: Process, current: Process?,
                                     previous: Process?, job: Process?)
    requires Listed(procs, all) && States(all) && Marks(all, current, previous) && LeaderOrNull(all, job)
    requires pp !in all && OneState(pp.flags)
    ensures Listed([pp] + procs, all + {pp}) && States(all + {pp})
    ensures Marks(all + {pp}, current, previous) && LeaderOrNull(all + {pp}, job)
    ensures References([pp] + procs) == References(procs) + (if pp.cwd != null then multiset{pp.cwd} else multiset{})
  {
    assert ([pp] + procs)[1..] == procs;
  }

  /** A process for the job being built, ready to be put at the front of the list. */
  method EnrolFriend(job: Process, pid: int, flags: set<Flag>, ghost procs: seq<Process>, ghost all: set<Process>,
                     ghost max: int, ghost current: Process?, ghost previous: Process?) returns (pp: Process)
    requires TableOk(procs, all, max, current, previous, job) && OneState(flags)
    requires pid > 0 && forall p :: p in all ==> p.pid != pid
    modifies all`friends, all`ring
    ensures fresh(pp) && TableOk([pp] + procs, all + {pp}, max, current, previous, job)
    ensures References([pp] + procs) == old(References(procs))
    ensures pp.pid == pid && pp.flags == flags && pp.index == job.index && pp.jobid == job.pid && pp.cwd == null
    ensures job.ring == old(job.ring) + [pp] == pp.ring
  {
    hide Listed, Rings, States, Indexed, Marks, References;
    pp := NewFriend(job, pid, flags, all, max);
    Prepended(procs, all, pp, current, previous, job);
  }

  /** The leader of a new job in directory `dir`, ready to be put at the front of the list. */
  method EnrolJob(pid: int, flags: set<Flag>, dir: Directory, procs: seq<Process>, ghost all: set<Process>, max: int,
                  ghost current: Process?, ghost previous: Process?) returns (pp: Process)
    requires TableOk(procs, all, max, current, previous, null) && OneState(flags)
    requires pid > 0 && forall p :: p in all ==> p.pid != pid
    ensures fresh(pp) && TableOk([pp] + procs, all + {pp}, if pp.index > max then pp.index else max,
                                 if current == null then pp else current,
                                 if current != null && previous == null then pp else previous, pp)
    ensures References([pp] + procs) == References(procs) + multiset{dir} && NextIndex(procs, max, pp.index)
    ensures pp.pid == pp.jobid == pid && pp.flags == flags && pp.cwd == dir && pp.ring == [pp]
  {
    hide Listed, Rings, States, Indexed, Marks, LeaderOrNull, References, NextIndex;
    var index := ChooseIndex(procs, max, all);
    pp := NewJob(pid, flags, index, dir, all, max);
    Prepended(procs, all, pp, current, previous, null);
    MarkNew(all + {pp}, current, previous, pp);
  }

  /** The marks after the leader `pp` has lost its own: `c` and `p` instead of `current` and `previous`. The previous
      job moves up, and what is missing then is chosen by `pgetcurr`. */
  ghost predicate Cleared(procs: seq<Process>, all: set<Process>, pp: Process, current: Process?, previous: Process?,
                          c: Process?, p: Process?)
    reads all, procs
  {
    && Marks(all, c, p) && c != pp && p != pp
    && (pp != current && pp != previous ==> c == current && p == previous)
    && (pp == previous && pp != current ==> c == current)
    && (pp == current && previous != null ==> c == previous)
    && (pp == current && previous == null ==> NextJob(procs, pp, pp, c))
    && (pp == current || pp == previous ==> NextJob(procs, c, pp, p))
    && (pp == current && c == null ==> forall q :: q in all ==> !Candidate(q, null, pp))
    && (p == null && (pp == current || pp == previous) ==> forall q :: q in all ==> !Candidate(q, c, pp))
  }

  method Reassign(pp: Process, procs: seq<Process>, current: Process?, previous: Process?, ghost all: set<Process>)
    returns (c: Process?, p: Process?)
    requires Listed(procs, all) && Marks(all, current, previous) && LeaderOrNull(all, pp)
    ensures Cleared(procs, all, pp, current, previous, c, p)
  {
    c, p := current, previous;
    if pp == current {
      if previous != null {
        c := previous;
        p := Pgetcurr(procs, c, pp);
      } else {
        c := Pgetcurr(procs, c, pp);
        p := Pgetcurr(procs, c, pp);
      }
    } else if pp == previous {
      p := Pgetcurr(procs, c, pp);
    }
  }

  /** Nothing that the choice of `pgetcurr` depends on has changed. */
  twostate predicate SameChoices(new all: set<Process>, new pp: Process)
    requires old(allocated(all))
    reads all
  {
    && (forall q :: q in all ==> q.pid == old(q.pid) && q.jobid == old(q.jobid))
    && (forall q :: q in all && q != pp && q.pid == q.jobid ==> SameState(old(q.flags), q.flags))
  }

  /** The choices do not depend on the leader `pp`, on followers, or on flags other than the state. */
  twostate lemma {:induction false} ClearedSame(new procs: seq<Process>, new all: set<Process>, new pp: Process,
                                                new current: Process?, new previous: Process?,
                                                new c: Process?, new p: Process?)
    requires old(allocated(procs)) && old(allocated(all)) && old(allocated(pp)) && old(allocated(current))
    requires old(allocated(previous)) && old(allocated(c)) && old(allocated(p)) && forall q :: q in procs ==> q in all
    requires SameChoices(all, pp)
    ensures Cleared(procs, all, pp, current, previous, c, p) <==> old(Cleared(procs, all, pp, current, previous, c, p))
  {
    hide Chosen, SameState;
    NextSame(procs, all, pp, pp, c);
    NextSame(procs, all, c, pp, p);
  }

  twostate lemma {:induction false} NextSame(new procs: seq<Process>, new all: set<Process>, new current: Process?,
                                             new pp: Process, new xp: Process?)
    requires old(allocated(procs)) && old(allocated(all)) && old(allocated(current)) && old(allocated(pp))
    requires old(allocated(xp)) && (forall q :: q in procs ==> q in all) && SameChoices(all, pp)
    ensures NextJob(procs, current, pp, xp) <==> old(NextJob(procs, current, pp, xp))
  {
    assert forall j :: 0 <= j < |procs| ==> procs[j] in all;
    forall i | 0 <= i < |procs| ensures Chosen(procs, i, current, pp) <==> old(Chosen(procs, i, current, pp)) {
    }
  }

  /** Indices after a flush: recomputed when the flushed job had the largest one. */
  twostate lemma {:induction false} FlushedIndexed(new all: set<Process>, new r: seq<Process>, new max: int,
                                                   new max': int)
    requires old(allocated(all)) && old(allocated(r))
    requires old(Rings(all)) && old(Indexed(all, max)) && Flushed(all, r)
    requires old(r[0].index) == max ==> 0 <= max' && (forall p :: p in all ==> p.index <= max')
    requires old(r[0].index) == max ==> max' == 0 || exists p :: p in all && p.index == max'
    requires old(r[0].index) != max ==> max' == max
    ensures Indexed(all, max')
  {
    if old(r[0].index) != max {
      assert max != 0 ==> exists p :: p in all && p.index == max by {
        if max != 0 {
          var p :| p in all && old(p.index) == max;
          assert old(JobOk(p));
          assert p !in r;
        }
      }
    }
  }

  twostate lemma {:induction false} FlushedMarks(new all: set<Process>, new r: seq<Process>, new p: Process?)
    requires old(allocated(all)) && old(allocated(r)) && old(Rings(all)) && Flushed(all, r)
    requires old(allocated(p)) && old(LeaderOrNull(all, p)) && p != r[0]
    ensures LeaderOrNull(all, p)
  {
    if p != null {
      assert old(JobOk(p)) && old(RingOk(all, p));
    }
  }

  /** The six state bits of `f` and `g` agree. */
  ghost predicate SameState(f: set<Flag>, g: set<Flag>)
  {
    && (Running in f <==> Running in g) && (Stopped in f <==> Stopped in g) && (NExited in f <==> NExited in g)
    && (AExited in f <==> AExited in g) && (Signaled in f <==> Signaled in g)
    && (Interrupted in f <==> Interrupted in g)
  }

  twostate lemma {:induction false} KeptStates(new all: set<Process>)
    requires old(allocated(all)) && old(States(all)) && forall q :: q in all ==> SameState(old(q.flags), q.flags)
    ensures States(all)
  {
  }

  /** Flush the whole ring of the leader `l`: everything but the largest index is as it should be again. */
  method FlushOut(l: Process, ghost all: set<Process>, ghost current: Process?, ghost previous: Process?,
                  ghost job: Process?)
    requires Rings(all) && States(all) && Marks(all, current, previous) && LeaderOrNull(all, job)
    requires LeaderOrNull(all, l) && l != current && l != previous && l != job
    modifies all`pid, all`index, all`flags
    ensures Rings(all) && States(all) && Marks(all, current, previous) && LeaderOrNull(all, job)
    ensures forall q :: q in all && q in l.ring ==> q.pid == 0 && q.index == 0 && q.flags == old(q.flags) - {NeedNote}
    ensures forall q :: q in all && q !in l.ring ==>
      q.pid == old(q.pid) && q.index == old(q.index) && q.flags == old(q.flags)
  {
    hide Rings, States, LeaderOrNull, Marks, SameState;
    ghost var r := l.ring;
    RingOfLeader(all, l);
    FlushRing(l, r);
    FlushedRings(all, r);
    FlushedStates(all, r);
    FlushedAllMarks(all, r, current, previous, job);
  }

  twostate lemma {:induction false} FlushedStates(new all: set<Process>, new r: seq<Process>)
    requires old(allocated(all)) && old(allocated(r)) && old(States(all))
    requires forall q :: q in all ==> q.flags == old(q.flags) - if q in r then {NeedNote} else {}
    ensures States(all)
  {
    KeptStates(all);
  }

  twostate lemma {:induction false} FlushedAllMarks(new all: set<Process>, new r: seq<Process>, new current: Process?,
                                                    new previous: Process?, new job: Process?)
    requires old(allocated(all)) && old(allocated(r)) && old(Rings(all)) && Flushed(all, r)
    requires old(allocated(current)) && old(allocated(previous)) && old(allocated(job))
    requires old(Marks(all, current, previous)) && old(LeaderOrNull(all, job))
    requires r[0] != current && r[0] != previous && r[0] != job
    ensures Marks(all, current, previous) && LeaderOrNull(all, job)
  {
    hide Rings;
    FlushedMarks(all, r, current);
    FlushedMarks(all, r, previous);
    FlushedMarks(all, r, job);
  }

  /** Flush the whole ring of the leader `l`, and find the largest index left if that was its own. */
  method EmptyRing(l: Process, procs: seq<Process>, max: int, ghost all: set<Process>,
                   ghost current: Process?, ghost previous: Process?, ghost job: Process?) returns (newMax: int)
    requires TableOk(procs, all, max, current, previous, job) && LeaderOrNull(all, l)
    requires l != current && l != previous && l != job
    modifies all`pid, all`index, all`flags
    ensures TableOk(procs, all, newMax, current, previous, job)
    ensures forall q :: q in all && q in l.ring ==> q.pid == 0 && q.index == 0 && q.flags == old(q.flags) - {NeedNote}
    ensures forall q :: q in all && q !in l.ring ==>
      q.pid == old(q.pid) && q.index == old(q.index) && q.flags == old(q.flags)
  {
    hide Listed, Indexed, Rings, States, Marks;
    var idx := l.index;
    RingOfLeader(all, l);
    FlushOut(l, all, current, previous, job);
    newMax := max;
    if idx == max {
      newMax := MaxIndexOf(procs, all);
    }
    FlushedIndexed(all, l.ring, max, newMax);
  }

  lemma {:induction false} StartedState(f: set<Flag>, foregnd: bool)
    requires OneState(f)
    ensures OneState(Started(f, foregnd)) && (Running in f || Stopped in f ==> Running in Started(f, foregnd))
  {
  }

  /** What `wait3` reports about a child. */
  datatype Status = Halted | Killed(sigint: bool, core: bool) | Exited(code: int)

  /** The state a status stands for. */
  ghost function StateOf(st: Status): Flag
  {
    match st
    case Halted => Stopped
    case Killed(sigint, _) => if sigint then Interrupted else Signaled
    case Exited(code) => if code != 0 then AExited else NExited
  }

  ghost function After(f: set<Flag>, st: Status): set<Flag>
  {
    f - {Running, Stopped, Reported} + {StateOf(st)} + (if st.Killed? && st.core then {Dumped} else {})
  }

  /** The flags `f` show the status, and no other state. */
  ghost predicate StateIs(st: Status, f: set<Flag>)
  {
    && Running !in f && (Stopped in f <==> st.Halted?)
    && (Interrupted in f <==> st.Killed? && st.sigint) && (Signaled in f <==> st.Killed? && !st.sigint)
    && (NExited in f <==> st.Exited? && st.code == 0) && (AExited in f <==> st.Exited? && st.code != 0)
    && (st.Killed? && st.core ==> Dumped in f)
  }

  lemma {:induction false} SameAgain()
    ensures forall f, g, h :: SameState(f, g) && SameState(g, h) ==> SameState(f, h)
    ensures forall f, g :: SameState(f, g) ==> (Running in f <==> Running in g) && (Stopped in f <==> Stopped in g)
  {
  }

  lemma {:induction false} StateIsSame(st: Status, f: set<Flag>, g: set<Flag>)
    requires StateIs(st, f) && SameState(f, g) && (Dumped in f ==> Dumped in g)
    ensures StateIs(st, g)
  {
  }

  lemma {:induction false} AfterMeans(f: set<Flag>, st: Status)
    requires OneState(f) && (Running in f || Stopped in f)
    ensures StateIs(st, After(f, st)) && Reported !in After(f, st)
    ensures forall x :: x in {Foregnd, Notify} ==> (x in After(f, st) <==> x in f)
  {
  }

  /** No other process of the job is running or has been reported as stopped. */
  ghost predicate Resting(r: seq<Process>, pp: Process)
    reads r
  {
    forall x :: x in r && x != pp ==> {Running, Reported} !! x.flags
  }

  ghost predicate OtherHas(r: seq<Process>, pp: Process, f: Flag)
    reads r
  {
    exists x :: x in r && x != pp && f in x.flags
  }

  ghost predicate SomeHas(r: seq<Process>, f: Flag)
    reads r
  {
    exists x :: x in r && f in x.flags
  }

  lemma {:induction false} OtherOrOwn(r: seq<Process>, pp: Process)
    requires pp in r
    ensures forall f :: SomeHas(r, f) <==> f in pp.flags || OtherHas(r, pp, f)
    ensures Resting(r, pp) <==> !OtherHas(r, pp, Running) && !OtherHas(r, pp, Reported)
    ensures forall x, f :: x in r && x != pp && !OtherHas(r, pp, f) ==> f !in x.flags
  {
  }

  twostate lemma {:induction false} OtherSame(new r: seq<Process>, new pp: Process)
    requires old(allocated(r)) && old(allocated(pp)) && forall x :: x in r && x != pp ==> x.flags == old(x.flags)
    ensures forall f :: OtherHas(r, pp, f) <==> old(OtherHas(r, pp, f))
  {
  }

  lemma {:induction false} AfterState(f: set<Flag>, st: Status)
    requires OneState(f) && (Running in f || Stopped in f)
    ensures OneState(After(f, st))
  {
  }

  /** The ring of `pp` in the order in which a walk from `pp` meets it. */
  lemma {:induction false} WalkFrom(all: set<Process>, pp: Process) returns (c: seq<Process>)
    requires Rings(all) && pp in all
    ensures Cycle(c) && c[0] == pp && (forall q :: q in c ==> q in all)
    ensures forall q :: q in c <==> q in pp.ring
  {
    assert RingOk(all, pp);
    var k :| 0 <= k < |pp.ring| && pp.ring[k] == pp;
    FromCycle(pp.ring, k);
    c := From(pp.ring, k);
  }

  lemma {:induction false} InTable(procs: seq<Process>, all: set<Process>, max: int, current: Process?,
                                   previous: Process?, job: Process?, p: Process)
    requires TableOk(procs, all, max, current, previous, job) && p in all && p.pid != 0
    ensures Rings(all) && p.ring != [] && p.ring[0] in all && LeaderOrNull(all, p.ring[0])
  {
    LeaderRing(all, p);
  }

  lemma {:induction false} NoJob(procs: seq<Process>, all: set<Process>, max: int, current: Process?,
                                 previous: Process?, job: Process?)
    requires TableOk(procs, all, max, current, previous, job)
    ensures TableOk(procs, all, max, current, previous, null)
  {
  }

  lemma {:induction false} LeaderRing(all: set<Process>, p: Process)
    requires Rings(all) && p in all && p.pid != 0
    ensures p.ring != [] && p.ring[0] in all && LeaderOrNull(all, p.ring[0]) && p.ring[0].ring == p.ring
  {
    LeaderIsFirst(all, p);
  }

  lemma {:induction false} RingOfLeader(all: set<Process>, l: Process)
    requires Rings(all) && LeaderOrNull(all, l)
    ensures l in all && l.pid != 0 && Cycle(l.ring) && l.ring[0] == l && forall q :: q in l.ring ==> q in all
  {
    LeaderIsFirst(all, l);
  }

  method MaxIndexOf(procs: seq<Process>, ghost all: set<Process>) returns (max: int)
    requires Listed(procs, all)
    ensures 0 <= max && (forall p :: p in all ==> p.index <= max) &&
      (max == 0 || exists p :: p in all && p.index == max)
  {
    max := MaxIndex(procs);
  }

  /** The processes that have not been flushed. */
  ghost function LiveOf(all: set<Process>): set<Process>
    reads all`pid
  {
    set p | p in all && p.pid != 0
  }

  lemma {:induction false} LiveRings(all: set<Process>)
    requires Rings(all)
    ensures Rings(LiveOf(all))
  {
  }

  lemma {:induction false} LiveRest(all: set<Process>, max: int, current: Process?, previous: Process?, job: Process?)
    requires Rings(all) && States(all) && Indexed(all, max) && Marks(all, current, previous) && LeaderOrNull(all, job)
    ensures States(LiveOf(all)) && Indexed(LiveOf(all), max) && Marks(LiveOf(all), current, previous)
    ensures LeaderOrNull(LiveOf(all), job)
  {
  }

  /** The list while it is being reaped: no duplicates, nothing foreign, nobody live missing. */
  ghost predicate Thinning(procs: seq<Process>, all: set<Process>)
    reads all`pid
  {
    && (forall p :: p in procs ==> p in all) && (forall p :: p in all && p.pid != 0 ==> p in procs)
    && (forall i, j :: 0 <= i < j < |procs| ==> procs[i] != procs[j])
  }

  ghost function Skip(procs: seq<Process>, i: nat): seq<Process>
    requires i < |procs|
  {
    procs[..i] + procs[i + 1..]
  }

  lemma {:induction false} ThinningSkip(procs: seq<Process>, all: set<Process>, i: nat)
    requires Thinning(procs, all) && i < |procs| && procs[i].pid == 0
    ensures Thinning(Skip(procs, i), all)
  {
  }

  lemma {:induction false} ReferencesSkip(procs: seq<Process>, i: nat)
    requires i < |procs|
    ensures References(procs) ==
      References(Skip(procs, i)) + (if procs[i].cwd != null then multiset{procs[i].cwd} else multiset{})
  {
    if i == 0 {
      assert Skip(procs, 0) == procs[1..];
    } else {
      assert Skip(procs, i)[1..] == Skip(procs[1..], i - 1) && Skip(procs, i)[0] == procs[0];
      ReferencesSkip(procs[1..], i - 1);
    }
  }

  /** The list without its flushed processes, in the same order. */
  ghost function Kept(procs: seq<Process>): seq<Process>
    reads procs`pid
  {
    if procs == [] then [] else (if procs[0].pid != 0 then [procs[0]] else []) + Kept(procs[1..])
  }

  ghost predicate AllLive(procs: seq<Process>)
    reads procs`pid
  {
    forall p :: p in procs ==> p.pid != 0
  }

  lemma {:induction false} LiveStep(procs: seq<Process>, i: nat)
    requires i <= |procs|
    ensures AllLive(procs[..0])
    ensures i < |procs| && AllLive(procs[..i]) && procs[i].pid != 0 ==> AllLive(procs[..i + 1])
    ensures i < |procs| ==> i <= |Skip(procs, i)| == |procs| - 1 && Skip(procs, i)[..i] == procs[..i]
    ensures i == |procs| ==> procs[..i] == procs
  {
  }

  /** What is kept of two lists put together, and of one process. */
  lemma {:induction false} KeptParts(a: seq<Process>, b: seq<Process>, p: Process)
    ensures Kept(a + b) == Kept(a) + Kept(b)
    ensures Kept([p]) == if p.pid != 0 then [p] else []
    decreases |a|
  {
    if a == [] {
      assert a + b == b;
    } else {
      assert (a + b)[1..] == a[1..] + b;
      KeptParts(a[1..], b, p);
    }
  }

  lemma {:induction false} KeptStep(procs: seq<Process>, i: nat)
    requires i <= |procs|
    ensures i == |procs| ==> procs[..i] + Kept(procs[i..]) == procs
    ensures i < |procs| && procs[i].pid != 0 ==> procs[..i + 1] + Kept(procs[i + 1..]) == procs[..i] + Kept(procs[i..])
    ensures i < |procs| && procs[i].pid == 0 ==>
      var s := Skip(procs, i); s[..i] + Kept(s[i..]) == procs[..i] + Kept(procs[i..])
    ensures procs[..0] + Kept(procs[0..]) == Kept(procs)
  {
  }

  lemma {:induction false} ListedLive(procs: seq<Process>, all: set<Process>)
    requires Thinning(procs, all) && AllLive(procs)
    ensures Listed(procs, LiveOf(all))
  {
  }

  lemma {:induction false} AllFlushed(procs: seq<Process>, all: set<Process>, max: int)
    requires Listed(procs, all) && Rings(all) && Indexed(all, max) && forall j :: 0 <= j < |procs| ==> procs[j].pid == 0
    ensures max == 0 && forall p :: p in all ==> p.pid == 0 && p.index == 0
  {
  }

  datatype Event =
    | Fork(pid: int, ampersand: bool, timed: bool, pipeOut: bool, stderr: bool)
    | Child(pid: int, st: Status, late: set<int>, notify: bool)
    | EndJob | Flush(k: nat) | Start(k: nat, foregnd: bool) | Watch(k: nat) | ReapAll | FlushEverything
    | Cd(name: Word) | CdPlus(n: nat, chdir: bool) | Swap(chdir: bool) | PushPlus(n: nat, chdir: bool)
    | Push(name: Word) | Pop(chdir: bool) | PopPlus(n: nat)

  /** The flags a process starts with. */
  ghost function Fresh(ampersand: bool, timed: bool, pipeOut: bool, stderr: bool): set<Flag>
  {
    {Running} + (if ampersand then {} else {Foregnd}) + (if timed then {PTime} else {}) +
    (if pipeOut then {Pou} else {}) + if pipeOut && stderr then {Err} else {}
  }

  /** A new process runs, in the foreground unless it was followed by `&`; timing and pipes are as asked. */
  ghost predicate Newborn(flags: set<Flag>, ampersand: bool, timed: bool, pipeOut: bool, stderr: bool)
  {
    forall f :: f in flags <==>
      || f == Running || (f == Foregnd && !ampersand) || (f == PTime && timed) || (f == Pou && pipeOut)
      || (f == Err && pipeOut && stderr)
  }

  lemma {:induction false} FreshMeans(ampersand: bool, timed: bool, pipeOut: bool, stderr: bool)
    ensures var flags := Fresh(ampersand, timed, pipeOut, stderr);
      OneState(flags) && Newborn(flags, ampersand, timed, pipeOut, stderr)
  {
  }

  method NewFlags(ampersand: bool, timed: bool, pipeOut: bool, stderr: bool) returns (flags: set<Flag>)
    ensures flags == Fresh(ampersand, timed, pipeOut, stderr) && OneState(flags)
    ensures Newborn(flags, ampersand, timed, pipeOut, stderr)
  {
    hide OneState, Newborn;
    FreshMeans(ampersand, timed, pipeOut, stderr);
    flags := if ampersand then {Running} else {Running, Foregnd};
    if timed {
      flags := flags + {PTime};
    }
    if pipeOut {
      flags := flags + {Pou};
      if stderr {
        flags := flags + {Err};
      }
    }
  }

  /** The flags of a process after `pprint`. */
  ghost function Printed(f: set<Flag>, alone: bool): (r: set<Flag>)
    ensures SameState(f, r) && forall x :: x !in {PTime, Time} ==> (x in f <==> x in r)
  {
    if alone && PTime in f then f - {PTime} + {Time} else f
  }

  /** The flags of a process after its job's stop has been reported. */
  ghost function Noted(f: set<Flag>, inJob: bool): (r: set<Flag>)
    ensures SameState(f, r) && (inJob && Stopped in f ==> Reported in r)
    ensures (Dumped in f <==> Dumped in r) && (Foregnd in f <==> Foregnd in r)
  {
    if inJob && Stopped in f then f + {Reported} else f
  }

  /** Whether a job with these flags is flushed by `pchild`. */
  ghost predicate Over(jobflags: set<Flag>, notify: bool)
  {
    Foregnd !in jobflags && (Notify in jobflags || notify) && Stopped !in jobflags
  }

  /** The flags of a process after its job, which runs no more, has been announced or marked to be. */
  ghost function ToldFlags(g: set<Flag>, jobflags: set<Flag>, notify: bool, inJob: bool, leads: bool, alone: bool)
    : set<Flag>
  {
    if Foregnd in jobflags then g
    else if !(Notify in jobflags || notify) then if leads then g + {NeedNote} else g
    else Printed(g, alone) - if Stopped !in jobflags && inJob then {NeedNote} else {}
  }

  lemma {:induction false} ToldMeans(jobflags: set<Flag>, notify: bool)
    ensures forall g, inJob, leads, alone :: var r := ToldFlags(g, jobflags, notify, inJob, leads, alone);
      && SameState(g, r) && (forall x :: x in {Dumped, Reported, Foregnd} ==> (x in g <==> x in r))
      && (leads && Foregnd !in jobflags && !(Notify in jobflags || notify) ==> NeedNote in r)
  {
  }

  /** The flags of a process after `pchild` is done with a job none of whose processes runs any more. */
  ghost function SettledFlags(f: set<Flag>, jobflags: set<Flag>, notify: bool, inJob: bool, leads: bool, alone: bool)
    : set<Flag>
  {
    ToldFlags(Noted(f, inJob), jobflags, notify, inJob, leads, alone)
  }

  /** A leader is its own friend exactly when it is alone. */
  lemma {:induction false} Alone(all: set<Process>, p: Process)
    requires Rings(all) && p in all && p.pid != 0
    ensures p.ring != [] && var l := p.ring[0];
      forall q :: q in all ==> (p.ring == [q] <==> q == l && l == l.friends)
  {
    assert RingOk(all, p);
    var l := p.ring[0];
    assert l.friends == p.ring[if 1 < |p.ring| then 1 else 0];
    if l == l.friends {
      assert p.ring == [l];
    }
  }

  class Table {
    const dirs: Dirs
    /** `proclist`, the most recent process first. */
    var procs: seq<Process>
    ghost var all: set<Process>
    var currjob: Process?
    var current: Process?
    var previous: Process?
    var maxindex: int

    ghost predicate Valid()
      reads this, all, dirs, dirs.head, dirs.ring, dirs.live
    {
      && TableOk(procs, all, maxindex, current, previous, currjob)
      && dirs.Valid() && dirs.holders == References(procs)
    }

    constructor (dirs: Dirs)
      requires dirs.Valid() && dirs.holders == multiset{}
      ensures Valid() && this.dirs == dirs && procs == [] && all == {} && currjob == null
    {
      this.dirs := dirs;
      procs, all, currjob, current, previous, maxindex := [], {}, null, null, null, 0;
    }

    /** `palloc` while a job is being built: the process joins its ring. */
    method AddFriend(pid: int, flags: set<Flag>) returns (pp: Process)
      requires Valid() && currjob != null && pid > 0 && (forall p :: p in all ==> p.pid != pid) && OneState(flags)
      modifies this`procs, this`all, all`friends, all`ring
      ensures Valid() && fresh(pp) && procs == [pp] + old(procs) && all == old(all) + {pp}
      ensures pp.pid == pid && pp.flags == flags && pp.index == currjob.index && pp.jobid == currjob.pid
      ensures currjob.ring == old(currjob.ring) + [pp] == pp.ring
      ensures forall p :: p in old(all) ==> p.pid == old(p.pid) && p.index == old(p.index) && p.flags == old(p.flags)
    {
      hide TableOk, References, Dirs.Valid;
      pp := EnrolFriend(currjob, pid, flags, procs, all, maxindex, current, previous);
      procs, all := [pp] + procs, all + {pp};
    }

    /** `palloc` for the first process of a job. */
    method AddJob(pid: int, flags: set<Flag>) returns (pp: Process)
      requires Valid() && currjob == null && pid > 0 && (forall p :: p in all ==> p.pid != pid) && OneState(flags)
      modifies this, dirs`holders, dirs.cwd`count
      ensures Valid() && fresh(pp) && procs == [pp] + old(procs) && all == old(all) + {pp} && currjob == pp
      ensures pp.pid == pp.jobid == pid && pp.flags == flags && pp.cwd == dirs.cwd == old(dirs.cwd) && pp.ring == [pp]
      ensures var i := pp.index; old(NextIndex(procs, maxindex, i))
      ensures current == (if old(current) == null then pp else old(current))
      ensures previous == (if old(current) != null && old(previous) == null then pp else old(previous))
    {
      hide TableOk, References, Dirs.Valid, NextIndex;
      dirs.Hold();
      pp := EnrolJob(pid, flags, dirs.cwd, procs, all, maxindex, current, previous);
      Install(pp);
    }

    /** Put a new job at the front of the list and give it the first mark that is free. */
    method Install(pp: Process)
      requires TableOk([pp] + procs, all + {pp}, if pp.index > maxindex then pp.index else maxindex,
                       if current == null then pp else current,
                       if current != null && previous == null then pp else previous, pp)
      requires dirs.Valid() && dirs.holders == References([pp] + procs)
      modifies this
      ensures Valid() && procs == [pp] + old(procs) && all == old(all) + {pp} && currjob == pp
      ensures current == (if old(current) == null then pp else old(current))
      ensures previous == (if old(current) != null && old(previous) == null then pp else old(previous))
    {
      hide TableOk, References, Dirs.Valid;
      if pp.index > maxindex {
        maxindex := pp.index;
      }
      if current == null {
        current := pp;
      } else if previous == null {
        previous := pp;
      }
      currjob, procs, all := pp, [pp] + procs, all + {pp};
    }

    /** `pclrcurr`: the leader `pp` loses its mark, and another job, if there is one, gets it. */
    method Pclrcurr(pp: Process)
      requires Valid() && LeaderOrNull(all, pp)
      modifies this`current, this`previous
      ensures Valid() && Cleared(procs, all, pp, old(current), old(previous), current, previous)
      ensures current != pp && previous != pp
    {
      hide Rings, Indexed, References, Dirs.Valid, NextJob;
      var c, p := Reassign(pp, procs, current, previous, all);
      current, previous := c, p;
    }

    /** Before a job is flushed it loses its marks and stops being the job under construction. */
    method Unmark(l: Process)
      requires Valid() && LeaderOrNull(all, l)
      modifies this`current, this`previous, this`currjob
      ensures Valid() && currjob == (if old(currjob) == l then null else old(currjob))
      ensures Cleared(procs, all, l, old(current), old(previous), current, previous)
    {
      hide TableOk, References, Dirs.Valid, Marks, LeaderOrNull;
      Pclrcurr(l);
      NoJob(procs, all, maxindex, current, previous, currjob);
      if l == currjob {
        currjob := null;
      }
    }

    /** The rest of `pflush` for a leader without marks. */
    method FlushJob(l: Process)
      requires Valid() && LeaderOrNull(all, l) && l != current && l != previous && l != currjob
      modifies this`maxindex, all`pid, all`index, all`flags
      ensures Valid()
      ensures forall q :: q in all && q in l.ring ==> q.pid == 0 && q.index == 0 && q.flags == old(q.flags) - {NeedNote}
      ensures forall q :: q in all && q !in l.ring ==>
        q.pid == old(q.pid) && q.index == old(q.index) && q.flags == old(q.flags)
    {
      hide TableOk, References, Dirs.Valid, LeaderOrNull;
      maxindex := EmptyRing(l, procs, maxindex, all, current, previous, currjob);
    }

    /** `pflush`: the whole job of `pp` is flagged for deletion, and loses its marks and its index. */
    method Pflush(pp: Process)
      requires Valid() && pp in all
      modifies this`current, this`previous, this`currjob, this`maxindex, all`pid, all`index, all`flags
      ensures Valid()
      ensures old(pp.pid) == 0 ==> unchanged(this) && unchanged(all)
      ensures old(pp.pid) != 0 ==>
        pp.ring != [] && currjob == (if old(currjob) == pp.ring[0] then null else old(currjob))
      ensures old(pp.pid) != 0 ==> var c, p := current, previous;
        old(Cleared(procs, all, pp.ring[0], current, previous, c, p))
      ensures old(pp.pid) != 0 ==> forall q :: q in all && q in pp.ring ==>
        q.pid == 0 && q.index == 0 && q.flags == old(q.flags) - {NeedNote}
      ensures old(pp.pid) != 0 ==> forall q :: q in all && q !in pp.ring ==>
        q.pid == old(q.pid) && q.index == old(q.index) && q.flags == old(q.flags)
    {
      hide Rings, References, Dirs.Valid, Marks, Indexed, States, Listed;
      if pp.pid == 0 {
        return;
      }
      LeaderRing(all, pp);
      var l := FindLeader(pp, all);
      Unmark(l);
      FlushJob(l);
    }

    /** Flag changes that keep everyone in exactly one state keep the table valid. */
    method StartJob(pp: Process, foregnd: bool)
      requires Valid() && LeaderOrNull(all, pp)
      modifies all`flags
      ensures Valid()
      ensures forall q :: q in all && q in pp.ring ==> q.flags == Started(old(q.flags), foregnd)
      ensures forall q :: q in all && q !in pp.ring ==> q.flags == old(q.flags)
    {
      hide Listed, Rings, Indexed, Marks, References, Dirs.Valid, Started;
      RingOfLeader(all, pp);
      StartRing(pp, foregnd, pp.ring);
      forall q | q in all ensures OneState(q.flags) {
        StartedState(old(q.flags), foregnd);
      }
    }

    /** `pstart`: the living members of the job run again; put in the background, the job loses its marks. The name is
        printed, so a process alone in its job has its timing made the job's. */
    method Pstart(pp: Process, foregnd: bool)
      requires Valid() && LeaderOrNull(all, pp)
      modifies this`current, this`previous, all`flags
      ensures Valid() && (foregnd ==> current == old(current) && previous == old(previous))
      ensures !foregnd ==> Cleared(procs, all, pp, old(current), old(previous), current, previous)
      ensures forall q :: q in all && q in pp.ring ==>
        q.flags == Printed(Started(old(q.flags), foregnd), pp.ring == [q])
      ensures forall q :: q in all && q in pp.ring ==> Restarted(old(q.flags), q.flags, foregnd)
      ensures forall q :: q in all && q !in pp.ring ==> q.flags == old(q.flags)
    {
      hide TableOk, References, Dirs.Valid, Started, Restarted;
      StartedMeans(foregnd);
      StartJob(pp, foregnd);
      if !foregnd {
        Pclrcurr(pp);
      }
      label L:
      Pprint(pp);
      if !foregnd {
        AllListed();
        ClearedSame@L(procs, all, pp, old(current), old(previous), current, previous);
      }
    }

    /** `donotify`: the job that `pfind` has found is to be reported at once when it ends. */
    method Donotify(pp: Process)
      requires Valid() && LeaderOrNull(all, pp)
      modifies pp`flags
      ensures Valid() && pp.flags == old(pp.flags) + {Notify}
    {
      hide TableOk, References, Dirs.Valid;
      Flagged(pp, pp.flags + {Notify});
    }

    /** The search of `pchild` for the process a status is about. */
    method Lookup(pid: int) returns (pp: Process?)
      requires Valid()
      ensures pp == null ==> forall p :: p in all ==> p.pid != pid
      ensures pp != null ==> pp in all && pp.pid == pid
    {
      for i := 0 to |procs|
        invariant forall j :: 0 <= j < i ==> procs[j].pid != pid
      {
        if procs[i].pid == pid {
          return procs[i];
        }
      }
      pp := null;
    }

    /** Record the status of one process. */
    method SetStatus(pp: Process, st: Status)
      requires Valid() && pp in all && (Running in pp.flags || Stopped in pp.flags)
      modifies pp`flags
      ensures Valid() && pp.flags == After(old(pp.flags), st)
    {
      hide Listed, Rings, Indexed, Marks, References, Dirs.Valid, OneState;
      AfterState(pp.flags, st);
      pp.flags := pp.flags - {Running, Stopped, Reported};
      match st {
        case Halted =>
          pp.flags := pp.flags + {Stopped};
        case Killed(sigint, core) =>
          pp.flags := pp.flags + if sigint then {Interrupted} else {Signaled};
          if core {
            pp.flags := pp.flags + {Dumped};
          }
        case Exited(code) =>
          pp.flags := pp.flags + if code != 0 then {AExited} else {NExited};
      }
      assert pp.flags == After(old(pp.flags), st);
    }

    /** The walk of `pchild` that collects the job's flags and marks long-running processes. */
    method Survey(pp: Process, overtime: set<Process>) returns (jobflags: set<Flag>)
      requires Valid() && pp in all
      modifies all`flags
      ensures Valid() && forall q :: q in all ==> q.flags == Timed(old(q.flags), q in overtime && q in pp.ring)
      ensures forall f :: f != Time ==> (f in jobflags <==> old(SomeHas(pp.ring, f)))
    {
      hide Listed, Rings, States, Indexed, Marks, References, Dirs.Valid;
      ghost var c := WalkFrom(all, pp);
      jobflags := GatherFlags(pp, overtime, c);
      TimedMeans();
      KeptStates(all);
    }

    /** The job of `pp` has stopped: report it, and make it the current job. */
    method NoteStop(fp: Process)
      requires Valid() && LeaderOrNull(all, fp)
      modifies this`current, this`previous
      ensures Valid() && current == fp
      ensures previous == if old(current) != null && old(current) != fp then old(current) else old(previous)
    {
      hide Listed, Rings, States, Indexed, References, Dirs.Valid;
      if current != null && current != fp {
        previous := current;
      }
      current := fp;
    }

    /** Mark the stopped processes of a job as reported. */
    method Report(pp: Process)
      requires Valid() && pp in all
      modifies all`flags
      ensures Valid() && forall q :: q in all ==> q.flags == Noted(old(q.flags), q in pp.ring)
    {
      hide Listed, Rings, States, Indexed, Marks, References, Dirs.Valid;
      ghost var c := WalkFrom(all, pp);
      ReportStopped(pp, c);
      KeptStates(all);
    }

    method ReportJob(pp: Process) returns (fp: Process)
      requires Valid() && pp in all && pp.pid != 0
      modifies all`flags
      ensures Valid() && pp.ring != [] && fp == pp.ring[0] && fp in all && LeaderOrNull(all, fp)
      ensures forall q :: q in all ==> q.flags == Noted(old(q.flags), q in pp.ring)
      ensures SameChoices(all, fp)
    {
      hide TableOk, References, Dirs.Valid, Noted, SameState;
      Report(pp);
      InTable(procs, all, maxindex, current, previous, currjob, pp);
      fp := FindLeader(pp, all);
    }

    /** A flag outside the six states set or cleared on one process. */
    method Flagged(pp: Process, f: set<Flag>)
      requires Valid() && pp in all && SameState(pp.flags, f)
      modifies pp`flags
      ensures Valid() && pp.flags == f
    {
      hide Listed, Rings, Indexed, Marks, References, Dirs.Valid;
      pp.flags := f;
    }

    /** `pprint`, as far as it changes the table: a job of one timed process becomes a timed job. */
    method Pprint(pp: Process)
      requires Valid() && pp in all && pp.pid != 0
      modifies all`flags
      ensures Valid() && forall q :: q in all ==> q.flags == Printed(old(q.flags), pp.ring == [q])
      ensures forall q :: q in all && (pp.ring != [q] || old(PTime !in q.flags)) ==> q.flags == old(q.flags)
      ensures forall q :: q in all && pp.ring == [q] && old(PTime in q.flags) ==>
        PTime !in q.flags && Time in q.flags && q.flags - {Time} == old(q.flags) - {Time, PTime}
    {
      hide TableOk, References, Dirs.Valid;
      InTable(procs, all, maxindex, current, previous, currjob, pp);
      var l := FindLeader(pp, all);
      Alone(all, pp);
      if l == l.friends && PTime in l.flags {
        Flagged(l, l.flags - {PTime} + {Time});
      }
    }

    /** The marks of a job none of whose processes runs any more. */
    method Remark(pp: Process, jobflags: set<Flag>) returns (fp: Process)
      requires Valid() && pp in all && pp.pid != 0
      modifies this`current, this`previous, all`flags
      ensures Valid() && pp.ring != [] && fp == pp.ring[0] && fp in all
      ensures LeaderOrNull(all, fp) && forall q :: q in all ==> q.flags == Noted(old(q.flags), q in pp.ring)
      ensures if Stopped in jobflags
              then current == fp
                && previous == (if old(current) != null && old(current) != fp then old(current) else old(previous))
              else var c, p := current, previous; old(Cleared(procs, all, pp.ring[0], current, previous, c, p))
      ensures Stopped !in jobflags ==> current != fp && previous != fp
    {
      hide TableOk, References, Dirs.Valid, Cleared, NextJob, Noted, SameState;
      fp := ReportJob(pp);
      if Stopped in jobflags {
        NoteStop(fp);
      } else {
        Pclrcurr(fp);
        AllListed();
        Marked();
        ClearedSame(procs, all, fp, old(current), old(previous), current, previous);
      }
    }

    /** The end of `pchild` for a job none of whose processes runs any more: a background job that is over is
        flushed at once when notification is wanted, otherwise it is left to be reported. */
    method SettleJob(pp: Process, jobflags: set<Flag>, notify: bool)
      requires Valid() && pp in all && pp.pid != 0
      modifies this`current, this`previous, this`currjob, this`maxindex, all`pid, all`index, all`flags
      ensures Valid() && pp.ring != []
      ensures forall q :: q in all ==>
        SameState(old(q.flags), q.flags) && (old(Dumped in q.flags) ==> Dumped in q.flags)
      ensures forall q :: q in all && old(Foregnd !in q.flags) ==> Foregnd !in q.flags
      ensures forall q :: q in all ==>
        q.flags == SettledFlags(old(q.flags), jobflags, notify, q in pp.ring, q == pp.ring[0], pp.ring == [q])
      ensures if Stopped in jobflags then HasStopped(pp)
              else HasEnded(pp, Foregnd in jobflags, notify || Notify in jobflags)
    {
      hide TableOk, References, Dirs.Valid, Cleared, NextJob, ToldFlags, Noted;
      OnRing(pp);
      var fp := Remark(pp, jobflags);
      Marked();
      Announce(pp, fp, jobflags, notify);
      ToldMeans(jobflags, notify);
    }

    lemma Marked()
      requires Valid()
      ensures (current == null || current in all) && (previous == null || previous in all)
    {
    }

    /** What is said about a job that runs no more, or left to be said. */
    method Announce(pp: Process, fp: Process, jobflags: set<Flag>, notify: bool)
      requires Valid() && pp in all && pp.pid != 0 && pp.ring != [] && fp == pp.ring[0] && fp in all
      requires Stopped !in jobflags ==> current != fp && previous != fp
      modifies this`current, this`previous, this`currjob, this`maxindex, all`pid, all`index, all`flags
      ensures Valid() && current == old(current) && previous == old(previous)
      ensures forall q :: q in all ==>
        q.flags == ToldFlags(old(q.flags), jobflags, notify, q in pp.ring, q == fp, pp.ring == [q])
      ensures if Over(jobflags, notify) then
          && (forall q :: q in all && q in pp.ring ==> q.pid == 0 && q.index == 0)
          && (forall q :: q in all && q !in pp.ring ==> q.pid == old(q.pid) && q.index == old(q.index))
          && currjob == if old(currjob) == fp then null else old(currjob)
        else
          && (forall q :: q in all ==> q.pid == old(q.pid) && q.index == old(q.index))
          && currjob == old(currjob) && maxindex == old(maxindex)
    {
      hide TableOk, References, Dirs.Valid, Printed;
      if Foregnd !in jobflags {
        if Notify in jobflags || notify {
          Pprint(pp);
          if Stopped !in jobflags {
            Discard(pp);
          }
        } else {
          Flagged(fp, fp.flags + {NeedNote});
        }
      }
    }

    /** `pflush` of a job that has no mark. */
    method Discard(pp: Process)
      requires Valid() && pp in all && pp.pid != 0
      requires pp.ring != [] && current != pp.ring[0] && previous != pp.ring[0]
      modifies this`current, this`previous, this`currjob, this`maxindex, all`pid, all`index, all`flags
      ensures Valid() && current == old(current) && previous == old(previous)
      ensures currjob == (if old(currjob) == pp.ring[0] then null else old(currjob))
      ensures forall q :: q in all && q in pp.ring ==>
        q.pid == 0 && q.index == 0 && q.flags == old(q.flags) - {NeedNote}
      ensures forall q :: q in all && q !in pp.ring ==>
        q.pid == old(q.pid) && q.index == old(q.index) && q.flags == old(q.flags)
    {
      hide TableOk, References, Dirs.Valid, NextJob, Marks;
      Pflush(pp);
    }

    /** The first half of `pchild`: the status of one process, and the flags of its job. */
    method Record(pp: Process, st: Status, overtime: set<Process>) returns (jobflags: set<Flag>)
      requires Valid() && pp in all && (Running in pp.flags || Stopped in pp.flags)
      modifies all`flags
      ensures Valid() && pp.ring != []
      ensures forall q :: q in all && q != pp ==> q.flags == Timed(old(q.flags), q in overtime && q in pp.ring)
      ensures pp.flags == Printed(Timed(After(old(pp.flags), st), pp in overtime) - {Foregnd}, pp.ring == [pp])
      ensures StateIs(st, pp.flags) && Foregnd !in pp.flags
      ensures forall q :: q in all && q != pp ==> SameState(old(q.flags), q.flags)
      ensures Running in jobflags || Reported in jobflags <==> !old(Resting(pp.ring, pp))
      ensures Stopped in jobflags <==> st.Halted? || old(OtherHas(pp.ring, pp, Stopped))
      ensures forall f :: f in {Foregnd, Notify} ==> (f in jobflags <==> old(SomeHas(pp.ring, f)))
    {
      hide TableOk, References, Dirs.Valid, OneState, After, Timed, Printed, SomeHas, OtherHas, Resting;
      OnRing(pp);
      InState(pp);
      AfterMeans(pp.flags, st);
      OtherOrOwn(pp.ring, pp);
      SetStatus(pp, st);
      OtherSame(pp.ring, pp);
      OtherOrOwn(pp.ring, pp);
      TimedMeans();
      jobflags := Judge(pp, overtime);
      StateIsSame(st, After(old(pp.flags), st), pp.flags);
    }

    /** The flags of a job after the status of one of its processes has been recorded. */
    method Judge(pp: Process, overtime: set<Process>) returns (jobflags: set<Flag>)
      requires Valid() && pp in all
      modifies all`flags
      ensures Valid() && SameState(old(pp.flags), pp.flags) && (Dumped in old(pp.flags) ==> Dumped in pp.flags)
      ensures Foregnd !in pp.flags
      ensures forall q :: q in all && q != pp ==> q.flags == Timed(old(q.flags), q in overtime && q in pp.ring)
      ensures pp.flags == Printed(Timed(old(pp.flags), pp in overtime) - {Foregnd}, pp.ring == [pp])
      ensures forall f :: f != Time ==> (f in jobflags <==> old(SomeHas(pp.ring, f)))
    {
      hide TableOk, References, Dirs.Valid, OneState, Timed, Printed, SomeHas;
      OnRing(pp);
      TimedMeans();
      jobflags := Survey(pp, overtime);
      Retime(pp);
    }

    /** The process is not in the foreground any more, and alone it takes over its job's timing. */
    method Retime(pp: Process)
      requires Valid() && pp in all
      modifies pp`flags
      ensures Valid() && pp.flags == Printed(old(pp.flags) - {Foregnd}, pp.ring == [pp])
    {
      hide TableOk, References, Dirs.Valid, OneState;
      OnRing(pp);
      Flagged(pp, pp.flags - {Foregnd});
      if pp == pp.friends && PTime in pp.flags {
        Flagged(pp, pp.flags - {PTime} + {Time});
      }
    }

    lemma Follower(pp: Process)
      requires Valid() && pp in all
      ensures pp.ring != [] && (pp.pid != 0 && pp.pid == pp.jobid ==> pp == pp.ring[0])
    {
      assert JobOk(pp);
    }

    lemma InState(pp: Process)
      requires Valid() && pp in all
      ensures OneState(pp.flags)
    {
    }

    lemma OnRing(pp: Process)
      requires Valid() && pp in all
      ensures pp in pp.ring && forall x :: x in pp.ring ==> x in all
      ensures pp == pp.friends <==> pp.ring == [pp]
    {
      assert RingOk(all, pp);
      var k :| 0 <= k < |pp.ring| && pp.ring[k] == pp;
      assert pp.ring[k].friends == pp.ring[if k + 1 < |pp.ring| then k + 1 else 0];
    }

    /** `pchild` for one status that `wait3` returns. */
    method Pchild(pid: int, st: Status, overtime: set<Process>, notify: bool) returns (pp: Process?)
      requires Valid() && pid > 0
      requires forall p :: p in all && p.pid == pid ==> Running in p.flags || Stopped in p.flags
      modifies this`current, this`previous, this`currjob, this`maxindex, all`pid, all`index, all`flags
      ensures Valid()
      ensures pp == null ==> unchanged(this) && unchanged(all) && forall p :: p in all ==> p.pid != pid
      ensures pp != null ==>
        pp in all && old(pp.pid) == pid && pp.ring != [] && StateIs(st, pp.flags) && Foregnd !in pp.flags
      ensures pp != null ==> forall q :: q in all && q != pp ==> SameState(old(q.flags), q.flags)
      ensures pp != null && !old(Resting(pp.ring, pp)) ==> StillBusy(pp)
      ensures pp != null && old(Resting(pp.ring, pp)) ==>
        if st.Halted? || old(OtherHas(pp.ring, pp, Stopped)) then HasStopped(pp)
        else
          && HasEnded(pp, old(SomeHas(pp.ring, Foregnd)), notify || old(SomeHas(pp.ring, Notify)))
          && forall q :: q in pp.ring ==> Running !in q.flags && Stopped !in q.flags
    {
      hide TableOk, References, Dirs.Valid, OneState, StateIs, Cleared, SameState;
      pp := Lookup(pid);
      if pp != null {
        Take(pp, st, overtime, notify);
      }
    }

    /** `pchild` leaves a job alone of which another process is running, or has been reported as stopped: no mark, index
        or pid changes, and but for the running time no flag of another process. */
    twostate predicate StillBusy(pp: Process)
      reads this, all
    {
      && all == old(all) && current == old(current) && previous == old(previous)
      && currjob == old(currjob) && maxindex == old(maxindex)
      && (forall q :: q in all ==> q.pid == old(q.pid) && q.index == old(q.index))
      && (forall q :: q in all && q != pp ==> q.flags - {Time} == old(q.flags) - {Time})
    }

    /** A job that has stopped becomes the current one, the one that was is the previous one now, and its stopped
        processes have been reported. */
    twostate predicate HasStopped(pp: Process)
      reads this, all, pp
    {
      && all == old(all) && pp.ring != []
      && current == pp.ring[0] && currjob == old(currjob) && maxindex == old(maxindex)
      && previous == (if old(current) != null && old(current) != pp.ring[0] then old(current) else old(previous))
      && (forall q :: q in all ==> q.pid == old(q.pid) && q.index == old(q.index))
      && (forall q :: q in all && q in pp.ring && Stopped in q.flags ==> Reported in q.flags)
    }

    /** A job that is over loses its marks. In the background it is flushed at once when notification is wanted, and
        otherwise left to be reported; in the foreground it stays. */
    twostate predicate HasEnded(pp: Process, foregnd: bool, notify: bool)
      reads this, all, pp, pp.ring
    {
      && all == old(all) && pp.ring == old(pp.ring) && pp.ring != []
      && (current == null || current in all) && (previous == null || previous in all)
      && (var c, p := current, previous; old(Cleared(procs, all, pp.ring[0], current, previous, c, p)))
      && (forall q :: q in all && q !in pp.ring ==> q.pid == old(q.pid) && q.index == old(q.index))
      && if !foregnd && notify then
           && (forall q :: q in all && q in pp.ring ==> q.pid == 0 && q.index == 0)
           && currjob == if old(currjob) == pp.ring[0] then null else old(currjob)
         else
           && (forall q :: q in all && q in pp.ring ==> q.pid == old(q.pid) && q.index == old(q.index))
           && currjob == old(currjob) && maxindex == old(maxindex)
           && (!foregnd ==> NeedNote in pp.ring[0].flags)
    }

    /** `pchild` for a process of the list. */
    method Take(pp: Process, st: Status, overtime: set<Process>, notify: bool)
      requires Valid() && pp in all && pp.pid != 0 && (Running in pp.flags || Stopped in pp.flags)
      modifies this`current, this`previous, this`currjob, this`maxindex, all`pid, all`index, all`flags
      ensures Valid() && pp.ring != [] && StateIs(st, pp.flags) && Foregnd !in pp.flags
      ensures forall q :: q in all && q != pp ==> SameState(old(q.flags), q.flags)
      ensures !old(Resting(pp.ring, pp)) ==> StillBusy(pp)
      ensures old(Resting(pp.ring, pp)) ==>
        if st.Halted? || old(OtherHas(pp.ring, pp, Stopped)) then HasStopped(pp)
        else
          && HasEnded(pp, old(SomeHas(pp.ring, Foregnd)), notify || old(SomeHas(pp.ring, Notify)))
          && forall q :: q in pp.ring ==> Running !in q.flags && Stopped !in q.flags
    {
      hide TableOk, References, Dirs.Valid, OneState, After, Timed, Printed, SettledFlags, Cleared;
      hide Resting, OtherHas, SomeHas, SameState;
      OnRing(pp);
      OtherOrOwn(pp.ring, pp);
      var jobflags := Note(pp, st, overtime);
      ghost var f := pp.flags;
      if {Running, Reported} !! jobflags {
        SettleJob(pp, jobflags, notify);
        StateIsSame(st, f, pp.flags);
        SameAgain();
      }
    }

    /** The first half again, with what it leaves of the choice of the marks. */
    method Note(pp: Process, st: Status, overtime: set<Process>) returns (jobflags: set<Flag>)
      requires Valid() && pp in all && pp.pid != 0 && (Running in pp.flags || Stopped in pp.flags)
      modifies all`flags
      ensures Valid() && pp.ring != [] && StateIs(st, pp.flags) && Foregnd !in pp.flags
      ensures forall q :: q in all && q != pp ==>
        SameState(old(q.flags), q.flags) && q.flags - {Time} == old(q.flags) - {Time}
      ensures Running in jobflags || Reported in jobflags <==> !old(Resting(pp.ring, pp))
      ensures Stopped in jobflags <==> st.Halted? || old(OtherHas(pp.ring, pp, Stopped))
      ensures forall f :: f in {Foregnd, Notify} ==> (f in jobflags <==> old(SomeHas(pp.ring, f)))
      ensures forall c: Process?, p: Process? :: (c == null || c in all) && (p == null || p in all) ==>
        Cleared(procs, all, pp.ring[0], current, previous, c, p) ==>
        old(Cleared(procs, all, pp.ring[0], current, previous, c, p))
    {
      hide TableOk, References, Dirs.Valid, OneState, After, Timed, Printed, Cleared, Resting, OtherHas, SomeHas;
      hide StateIs, SameState;
      OnRing(pp);
      AllListed();
      Follower(pp);
      TimedMeans();
      jobflags := Record(pp, st, overtime);
      forall c: Process?, p: Process? | (c == null || c in all) && (p == null || p in all)
        ensures Cleared(procs, all, pp.ring[0], current, previous, c, p) ==>
                old(Cleared(procs, all, pp.ring[0], current, previous, c, p))
      {
        ClearedSame(procs, all, pp.ring[0], current, previous, c, p);
      }
    }

    /** `pendjob`: the job under construction is complete. */
    method Pendjob()
      requires Valid()
      modifies this`currjob
      ensures Valid() && currjob == null
    {
      hide TableOk, References, Dirs.Valid;
      NoJob(procs, all, maxindex, current, previous, currjob);
      currjob := null;
    }

    /** The reaping loop of `pwait` over the list. */
    method Sweep()
      requires Thinning(procs, all) && dirs.Valid() && dirs.holders == References(procs)
      modifies this`procs, dirs`holders, dirs`live, dirs.live`count
      ensures Thinning(procs, all) && dirs.Valid() && dirs.holders == References(procs)
      ensures procs == old(Kept(procs)) && dirs.live <= old(dirs.live)
      ensures AllLive(procs)
    {
      hide References, Dirs.Valid, Kept, Thinning, Skip, AllLive;
      KeptStep(procs, 0);
      LiveStep(procs, 0);
      var i := 0;
      while i < |procs|
        invariant 0 <= i <= |procs| && Thinning(procs, all) && AllLive(procs[..i])
        invariant dirs.Valid() && dirs.holders == References(procs) && dirs.live <= old(dirs.live)
        invariant procs[..i] + Kept(procs[i..]) == old(Kept(procs))
        decreases |procs| - i
      {
        i := SweepAt(i);
      }
      KeptStep(procs, i);
      LiveStep(procs, i);
    }

    /** One turn of the loop: the process at `i` goes or is passed. */
    method SweepAt(i: nat) returns (j: nat)
      requires i < |procs| && Thinning(procs, all) && AllLive(procs[..i])
      requires dirs.Valid() && dirs.holders == References(procs)
      modifies this`procs, dirs`holders, dirs`live, dirs.live`count
      ensures j <= |procs| && |procs| - j < old(|procs|) - i && Thinning(procs, all) && AllLive(procs[..j])
      ensures dirs.Valid() && dirs.holders == References(procs) && dirs.live <= old(dirs.live)
      ensures procs[..j] + Kept(procs[j..]) == old(procs[..i] + Kept(procs[i..]))
    {
      hide References, Dirs.Valid, Kept, Thinning, Skip, AllLive;
      KeptStep(procs, i);
      LiveStep(procs, i);
      j := i + 1;
      if procs[i].pid == 0 {
        ThinningSkip(procs, all, i);
        Drop(i);
        j := i;
      }
    }

    /** The reaping of `pwait`: every flushed process leaves the list, and job heads give back their directory. */
    method Reap()
      requires Valid()
      modifies this`procs, this`all, dirs`holders, dirs`live, dirs.live`count
      ensures Valid() && all == old(LiveOf(all)) && procs == old(Kept(procs)) && dirs.live <= old(dirs.live)
    {
      hide Rings, States, Indexed, Marks, LeaderOrNull, References, Dirs.Valid, Kept, LiveOf;
      LiveRings(all);
      LiveRest(all, maxindex, current, previous, currjob);
      ghost var live := LiveOf(all);
      Sweep();
      ListedLive(procs, all);
      all := live;
    }

    /** Take a flushed process off the list; a job head gives back its directory. */
    method Drop(i: nat)
      requires i < |procs| && dirs.Valid() && dirs.holders == References(procs)
      modifies this`procs, dirs`holders, dirs`live, dirs.live`count
      ensures procs == Skip(old(procs), i)
      ensures dirs.Valid() && dirs.holders == References(procs) && dirs.live <= old(dirs.live)
    {
      hide References;
      var pp := procs[i];
      ReferencesSkip(procs, i);
      procs := procs[..i] + procs[i + 1..];
      if pp.cwd != null {
        dirs.Release(pp.cwd);
      }
    }

    /** `palloc`: a forked process joins the job under construction or starts a new one. */
    method Palloc(pid: int, ampersand: bool, timed: bool, pipeOut: bool, stderr: bool) returns (pp: Process)
      requires Valid() && pid > 0 && forall p :: p in all ==> p.pid != pid
      modifies this, all`friends, all`ring, dirs`holders, dirs.cwd`count
      ensures Valid() && fresh(pp) && procs == [pp] + old(procs) && all == old(all) + {pp}
      ensures pp.pid == pid && currjob == (if old(currjob) == null then pp else old(currjob))
      ensures pp.flags == Fresh(ampersand, timed, pipeOut, stderr)
      ensures Newborn(pp.flags, ampersand, timed, pipeOut, stderr)
      ensures pp.jobid == currjob.pid && pp.index == currjob.index && pp.ring == currjob.ring
      ensures old(currjob) != null ==>
        currjob.ring == old(currjob.ring) + [pp] && current == old(current) && previous == old(previous)
      ensures old(currjob) == null ==>
        var i := pp.index; pp.ring == [pp] && old(NextIndex(procs, maxindex, i)) && pp.cwd == dirs.cwd
      ensures old(currjob) == null ==> current == (if old(current) == null then pp else old(current))
      ensures old(currjob) == null ==>
        previous == (if old(current) != null && old(previous) == null then pp else old(previous))
      ensures dirs.live == old(dirs.live) && dirs.ring == old(dirs.ring) && dirs.cwd == old(dirs.cwd)
    {
      hide TableOk, References, Dirs.Valid, NextIndex, OneState, Fresh, Newborn;
      var flags := NewFlags(ampersand, timed, pipeOut, stderr);
      if currjob != null {
        pp := AddFriend(pid, flags);
      } else {
        pp := AddJob(pid, flags);
      }
    }

    /** `pflushall`, in a freshly forked child: no job is left, no mark, no index. */
    method Pflushall()
      requires Valid()
      modifies this`current, this`previous, this`currjob, this`maxindex, all`pid, all`index, all`flags
      ensures Valid() && (forall p :: p in all ==> p.pid == 0 && p.index == 0)
      ensures current == null && previous == null && currjob == null && maxindex == 0
    {
      hide References, Dirs.Valid, TableOk;
      for i := 0 to |procs|
        invariant Valid() && forall j :: 0 <= j < i ==> procs[j].pid == 0
      {
        forall j | 0 <= j <= i
          ensures procs[j] in all
        {
          Member(j);
        }
        FlushIfLive(procs[i]);
      }
      NothingLeft();
    }

    lemma NothingLeft()
      requires Valid() && forall j :: 0 <= j < |procs| ==> procs[j].pid == 0
      ensures forall p :: p in all ==> p.pid == 0 && p.index == 0
      ensures current == null && previous == null && currjob == null && maxindex == 0
    {
      AllFlushed(procs, all, maxindex);
    }

    method FlushIfLive(pp: Process)
      requires Valid() && pp in all
      modifies this`current, this`previous, this`currjob, this`maxindex, all`pid, all`index, all`flags
      ensures Valid() && pp.pid == 0 && forall q :: q in all && old(q.pid) == 0 ==> q.pid == 0
    {
      hide TableOk, References, Dirs.Valid, Cleared;
      if pp.pid != 0 {
        OnRing(pp);
        Pflush(pp);
      }
    }

    /** What a valid table guarantees, spelled out. */
    lemma Promises()
      requires Valid()
      ensures forall p, q :: p in all && q in all ==> p.ring == q.ring || forall x :: x in p.ring ==> x !in q.ring
      ensures forall p, q :: p in all && q in p.ring ==> (p.pid == 0 <==> q.pid == 0)
      ensures forall p, q :: p in all && q in p.ring && p.pid != 0 ==> (q.pid == q.jobid <==> q == p.ring[0])
      ensures forall p, q :: p in all && q in all && p.pid == p.jobid && q.pid == q.jobid ==>
        p.index == q.index ==> p == q
      ensures forall d :: d in dirs.live ==>
        d.count == References(procs)[d] && (d in dirs.ring || d in References(procs))
    {
    }

    /** Where every object of the table and of its directory stack comes from. */
    twostate predicate Grown()
      reads this, all, dirs, dirs.live
    {
      && (forall p :: p in all ==> p in old(all) || fresh(p))
      && (forall d :: d in dirs.live ==> d in old(dirs.live) || fresh(d))
    }

    /** An event of the job table, if it is possible in the present state: a new pid must be unused, and
        statuses come only from children that are alive; `late` are the pids whose running time has passed the limit. */
    method JobStep(e: Event)
      requires Valid()
      modifies this, all, dirs, dirs.head, dirs.live
      ensures Valid() && Grown()
    {
      hide TableOk, References, Dirs.Valid;
      match e {
        case Fork(pid, ampersand, timed, pipeOut, stderr) =>
          ForkStep(pid, ampersand, timed, pipeOut, stderr);
        case Child(pid, st, late, notify) =>
          var p := Lookup(pid);
          if pid > 0 && p != null && (Running in p.flags || Stopped in p.flags) {
            SamePid(p);
            var overtime := set q | q in procs && q.pid in late;
            p := Pchild(pid, st, overtime, notify);
          }
        case EndJob => Pendjob();
        case Flush(k) =>
          if k < |procs| {
            Member(k);
            Pflush(procs[k]);
          }
        case Start(k, foregnd) =>
          if k < |procs| && procs[k].pid != 0 && procs[k].pid == procs[k].jobid {
            Member(k);
            Pstart(procs[k], foregnd);
          }
        case Watch(k) =>
          if k < |procs| && procs[k].pid != 0 && procs[k].pid == procs[k].jobid {
            Member(k);
            Donotify(procs[k]);
          }
        case ReapAll =>
          LiveSubset();
          Reap();
        case FlushEverything => Pflushall();
        case _ =>
      }
    }

    lemma AllListed()
      requires Valid()
      ensures forall q :: q in procs ==> q in all
    {
    }

    lemma Member(k: nat)
      requires Valid() && k < |procs|
      ensures procs[k] in all
    {
    }

    lemma SamePid(p: Process)
      requires Valid() && p in all && p.pid != 0
      ensures forall q :: q in all && q.pid == p.pid ==> q == p
    {
    }

    lemma LiveSubset()
      requires Valid()
      ensures LiveOf(all) <= all
    {
    }

    method ForkStep(pid: int, ampersand: bool, timed: bool, pipeOut: bool, stderr: bool)
      requires Valid()
      modifies this, all, dirs, dirs.head, dirs.live
      ensures Valid() && Grown()
    {
      hide TableOk, References, NextIndex;
      var p := Lookup(pid);
      if pid > 0 && p == null {
        var pp := Palloc(pid, ampersand, timed, pipeOut, stderr);
      }
    }

    /** A change of directory, if it is possible in the present state. */
    method DirStep(e: Event)
      requires Valid()
      modifies this, all, dirs, dirs.head, dirs.live
      ensures Valid() && Grown()
    {
      hide TableOk, References, Dirs.Valid, Dirs.Stack;
      RingLive();
      if e.Cd? || e.CdPlus? {
        CdStep(e);
      } else if e.Pop? || e.PopPlus? {
        PopStep(e);
      } else {
        PushStep(e);
      }
    }

    lemma RingLive()
      requires Valid()
      ensures forall d :: d in dirs.ring ==> d in dirs.live
    {
    }

    method CdStep(e: Event)
      requires Valid()
      modifies dirs, dirs.head, dirs.ring
      ensures Valid() && Grown()
    {
      hide TableOk, References, Dirs.Valid, Dirs.Stack;
      match e {
        case Cd(name) => dirs.CdNew(name);
        case CdPlus(n, chdir) => if n > 0 { var ok := dirs.CdTurn(n, chdir); }
        case _ =>
      }
    }

    method PopStep(e: Event)
      requires Valid()
      modifies dirs, dirs.head, dirs.ring
      ensures Valid() && Grown()
    {
      hide TableOk, References, Dirs.Valid, Dirs.Stack;
      match e {
        case Pop(chdir) => var ok := dirs.Popd(chdir);
        case PopPlus(n) => if n > 0 { var ok := dirs.PopdAt(n); }
        case _ =>
      }
    }

    method PushStep(e: Event)
      requires Valid()
      modifies dirs, dirs.head, dirs.ring
      ensures Valid() && Grown()
    {
      hide TableOk, References, Dirs.Valid, Dirs.Stack;
      match e {
        case Swap(chdir) => var ok := dirs.PushdSwap(chdir);
        case PushPlus(n, chdir) => if n > 0 { var ok := dirs.PushdTurn(n, chdir); }
        case Push(name) => dirs.PushdNew(name);
        case _ =>
      }
    }
  }

  /** Any run of the shell's jobs and directory stack, from an empty table. */
  method Drive(start: Word, events: seq<Event>) returns (t: Table)
    ensures t.Valid()
  {
    var dirs := new Dirs(start);
    t := new Table(dirs);
    for i := 0 to |events|
      invariant t.Valid() && fresh(t) && fresh(t.dirs) && fresh(t.dirs.head)
      invariant (forall p :: p in t.all ==> fresh(p)) && (forall d :: d in t.dirs.live ==> fresh(d))
    {
      hide TableOk, References, Dirs.Valid;
      if events[i].Cd? || events[i].CdPlus? || events[i].Swap? || events[i].PushPlus? || events[i].Push? ||
          events[i].Pop? || events[i].PopPlus? {
        t.DirStep(events[i]);
      } else {
        t.JobStep(events[i]);
      }
    }
  }
}
