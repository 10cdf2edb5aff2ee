/** The directory stack: a ring of entries through a head cell, with reference counts held by jobs. */
module DirStack {
  import opened Words

  /** `struct directory`. */
  class Directory {
    var next: Directory?
    var prev: Directory?
    var count: nat
    var name: Word

    constructor (name: Word)
      ensures this.name == name && count == 0 && next == null && prev == null
    {
      this.name, count, next, prev := name, 0, null, null;
    }
  }

  /** The ring as it is met following `next` from the head round to the head again. */
  ghost function Circle(head: Directory, ring: seq<Directory>): seq<Directory>
  {
    [head] + ring + [head]
  }

  ghost predicate Distinct(head: Directory, ring: seq<Directory>)
  {
    head !in ring && forall i, j :: 0 <= i < j < |ring| ==> ring[i] != ring[j]
  }

  /** The two link fields are mutually inverse around the ring. */
  ghost predicate RingLinked(head: Directory, ring: seq<Directory>)
    reads head`next, head`prev, ring`next, ring`prev
  {
    var c := Circle(head, ring);
    && Distinct(head, ring)
    && (forall i {:trigger c[i].next} :: 0 <= i < |c| - 1 ==> c[i].next == c[i + 1])
    && (forall i {:trigger c[i].prev} :: 1 <= i < |c| ==> c[i].prev == c[i - 1])
  }

  ghost function Without(ring: seq<Directory>, k: nat): seq<Directory>
    requires k < |ring|
  {
    ring[..k] + ring[k + 1..]
  }

  ghost function With(ring: seq<Directory>, k: nat, d: Directory): seq<Directory>
    requires k <= |ring|
  {
    ring[..k] + [d] + ring[k..]
  }

  lemma {:induction false} WithAt(ring: seq<Directory>, k: nat, d: Directory)
    requires k <= |ring|
    ensures |With(ring, k, d)| == |ring| + 1 && With(ring, k, d)[k] == d
  {
  }

  lemma {:induction false} WithoutAt(ring: seq<Directory>, k: nat, j: nat)
    requires k < |ring| && j < |ring| && j != k
    ensures |Without(ring, k)| == |ring| - 1 && Without(ring, k)[if j < k then j else j - 1] == ring[j]
  {
  }

  lemma {:induction false} CircleShape(head: Directory, ring: seq<Directory>)
    ensures var c := Circle(head, ring);
      && |c| == |ring| + 2 && c[0] == head && c[|ring| + 1] == head
      && (forall i :: 0 < i <= |ring| ==> c[i] == ring[i - 1])
  {
  }

  lemma {:induction false} CircleWithout(head: Directory, ring: seq<Directory>, k: nat)
    requires k < |ring|
    ensures var c, c' := Circle(head, ring), Circle(head, Without(ring, k));
      && |c'| == |c| - 1 == |ring| + 1
      && (forall i :: 0 <= i <= k ==> c'[i] == c[i]) && (forall i :: k < i < |c'| ==> c'[i] == c[i + 1])
  {
  }

  lemma {:induction false} CircleWith(head: Directory, ring: seq<Directory>, k: nat, d: Directory)
    requires k <= |ring|
    ensures var c, c' := Circle(head, ring), Circle(head, With(ring, k, d));
      && |c'| == |c| + 1 == |ring| + 3 && c'[k + 1] == d
      && (forall i :: 0 <= i <= k ==> c'[i] == c[i]) && (forall i :: k + 1 < i < |c'| ==> c'[i] == c[i - 1])
  {
  }

  lemma {:induction false} DistinctWith(head: Directory, ring: seq<Directory>, k: nat, d: Directory)
    requires Distinct(head, ring) && k <= |ring| && d != head && d !in ring
    ensures Distinct(head, With(ring, k, d))
  {
  }

  lemma {:induction false} DistinctWithout(head: Directory, ring: seq<Directory>, k: nat)
    requires Distinct(head, ring) && k < |ring|
    ensures Distinct(head, Without(ring, k)) && ring[k] !in Without(ring, k)
    ensures forall x :: x in Without(ring, k) ==> x in ring && x != ring[k]
    ensures forall x :: x in ring ==> x in Without(ring, k) || x == ring[k]
  {
  }

  /** Take the entry at position `k` out of the ring. */
  method Unlink(d: Directory, ghost head: Directory, ghost ring: seq<Directory>, ghost k: nat)
    requires RingLinked(head, ring) && k < |ring| && ring[k] == d
    modifies head`next, head`prev, ring`next, ring`prev
    ensures RingLinked(head, Without(ring, k)) && d.next == old(d.next) && d.prev == old(d.prev)
  {
    hide Circle, Without;
    CircleShape(head, ring);
    CircleWithout(head, ring, k);
    DistinctWithout(head, ring, k);
    ghost var c, c' := Circle(head, ring), Circle(head, Without(ring, k));
    assert c[k + 1].next == c[k + 2] && c[k + 1].prev == c[k];
    d.prev.next := d.next;
    d.next.prev := d.prev;
    forall i | 0 <= i < |c'| - 1 ensures c'[i].next == c'[i + 1] {
      var j := if i <= k then i else i + 1;
      assert c'[i] == c[j] && old(c[j].next) == c[j + 1];
    }
    forall i | 1 <= i < |c'| ensures c'[i].prev == c'[i - 1] {
      var j := if i <= k then i else i + 1;
      assert c'[i] == c[j] && old(c[j].prev) == c[j - 1];
    }
  }

  /** Link `d` in behind the cell `at`, the one before position `k`. */
  method LinkAfter(at: Directory, d: Directory, ghost head: Directory, ghost ring: seq<Directory>, ghost k: nat)
    requires RingLinked(head, ring) && k <= |ring| && at == Circle(head, ring)[k] && d != head && d !in ring
    modifies head`next, head`prev, ring`next, ring`prev, d`next, d`prev
    ensures RingLinked(head, With(ring, k, d))
  {
    hide Circle, With;
    CircleShape(head, ring);
    CircleWith(head, ring, k, d);
    DistinctWith(head, ring, k, d);
    ghost var c, c' := Circle(head, ring), Circle(head, With(ring, k, d));
    assert c[k].next == c[k + 1];
    d.next := at.next;
    d.prev := at;
    at.next.prev := d;
    at.next := d;
    forall i | 0 <= i < |c'| - 1 ensures c'[i].next == c'[i + 1] {
      var j := if i <= k then i else i - 1;
      assert i != k + 1 ==> c'[i] == c[j] && old(c[j].next) == c[j + 1];
    }
    forall i | 1 <= i < |c'| ensures c'[i].prev == c'[i - 1] {
      var j := if i <= k then i else i - 1;
      assert i != k + 1 ==> c'[i] == c[j] && old(c[j].prev) == c[j - 1];
    }
  }

  lemma {:induction false} Replaced(head: Directory, ring: seq<Directory>, k: nat, d: Directory)
    requires Distinct(head, ring) && k < |ring| && d !in ring
    ensures forall x :: x in ring[k := d] ==> (x in ring || x == d) && x != ring[k]
    ensures d in ring[k := d] && forall x :: x in ring ==> x in ring[k := d] || x == ring[k]
  {
    assert ring[k := d][k] == d;
    forall x | x in ring ensures x in ring[k := d] || x == ring[k] {
      var i :| 0 <= i < |ring| && ring[i] == x;
      assert i != k ==> ring[k := d][i] == x;
    }
  }

  /** Put `d` in the place of the entry at position `k`. */
  method SwapIn(was: Directory, d: Directory, ghost head: Directory, ghost ring: seq<Directory>, ghost k: nat)
    requires RingLinked(head, ring) && k < |ring| && ring[k] == was && d != head && d !in ring
    modifies head`next, head`prev, ring`next, ring`prev, d`next, d`prev
    ensures RingLinked(head, ring[k := d])
  {
    hide Circle;
    CircleShape(head, ring);
    CircleShape(head, ring[k := d]);
    ghost var c, c' := Circle(head, ring), Circle(head, ring[k := d]);
    assert c[k + 1].next == c[k + 2] && c[k + 1].prev == c[k];
    d.next := was.next;
    d.prev := was.prev;
    d.prev.next := d;
    d.next.prev := d;
    forall i | 0 <= i < |c'| - 1 ensures c'[i].next == c'[i + 1] {
      assert i != k + 1 ==> c'[i] == c[i] && old(c[i].next) == c[i + 1];
    }
    forall i | 1 <= i < |c'| ensures c'[i].prev == c'[i - 1] {
      assert i != k + 1 ==> c'[i] == c[i] && old(c[i].prev) == c[i - 1];
    }
  }

  /** The index reached by going `k` steps back from `pos`, skipping the head. */
  ghost function Back(n: nat, pos: nat, k: nat): nat
    requires pos < n && k < n
  {
    if k <= pos then pos - k else pos + n - k
  }

  /** The ring read backwards from the current directory. */
  ghost function Backwards(ring: seq<Directory>, pos: nat): (l: seq<Directory>)
    requires pos < |ring|
    ensures |l| == |ring|
  {
    seq(|ring|, k requires 0 <= k < |ring| => ring[Back(|ring|, pos, k)])
  }

  lemma {:induction false} BackwardsAt(ring: seq<Directory>, pos: nat, k: nat)
    requires pos < |ring| && k < |ring|
    ensures Backwards(ring, pos)[k] == ring[Back(|ring|, pos, k)]
  {
  }

  lemma {:induction false} BackwardsSwap(ring: seq<Directory>, pos: nat)
    requires pos < |ring| && 2 <= |ring|
    ensures var j := Back(|ring|, pos, 1);
      var k := if pos == 0 then 1 else pos;
      var l := Backwards(ring, pos);
      Backwards(With(Without(ring, j), k, ring[j]), k) == [l[1], l[0]] + l[2..]
  {
  }

  lemma {:induction false} BackwardsTurn(ring: seq<Directory>, pos: nat, n: nat)
    requires pos < |ring| && n < |ring|
    ensures var l := Backwards(ring, pos);
      Backwards(ring, Back(|ring|, pos, n)) == l[n..] + l[..n]
  {
  }

  lemma {:induction false} BackwardsPush(ring: seq<Directory>, pos: nat, d: Directory)
    requires pos < |ring|
    ensures Backwards(With(ring, pos + 1, d), pos + 1) == [d] + Backwards(ring, pos)
  {
  }

  lemma {:induction false} BackwardsReplace(ring: seq<Directory>, pos: nat, d: Directory)
    requires pos < |ring|
    ensures Backwards(ring[pos := d], pos) == [d] + Backwards(ring, pos)[1..]
  {
  }

  /** Dropping an entry other than the current one. */
  lemma {:induction false} BackwardsDrop(ring: seq<Directory>, pos: nat, n: nat)
    requires pos < |ring| && 0 < n < |ring|
    ensures var j, l := Back(|ring|, pos, n), Backwards(ring, pos);
      Backwards(Without(ring, j), if j < pos then pos - 1 else pos) == l[..n] + l[n + 1..]
  {
    hide Backwards;
    var j, l := Back(|ring|, pos, n), Backwards(ring, pos);
    var r, p := Without(ring, j), if j < pos then pos - 1 else pos;
    forall k | 0 <= k < |r|
      ensures Backwards(r, p)[k] == (l[..n] + l[n + 1..])[k]
    {
      BackwardsAt(r, p, k);
      BackwardsAt(ring, pos, if k < n then k else k + 1);
    }
  }

  /** Dropping the current entry and continuing `n` steps back. */
  lemma {:induction false} BackwardsLeave(ring: seq<Directory>, pos: nat, n: nat)
    requires pos < |ring| && 0 < n < |ring|
    ensures var j, l := Back(|ring|, pos, n), Backwards(ring, pos);
      Backwards(Without(ring, pos), if j < pos then j else j - 1) == l[n..] + l[1..n]
  {
    hide Backwards;
    var j, l := Back(|ring|, pos, n), Backwards(ring, pos);
    var r, p := Without(ring, pos), if j < pos then j else j - 1;
    forall k | 0 <= k < |r|
      ensures Backwards(r, p)[k] == (l[n..] + l[1..n])[k]
    {
      BackwardsAt(r, p, k);
      BackwardsAt(ring, pos, if k < |ring| - n then n + k else k - (|ring| - n) + 1);
    }
  }

  /** The neighbours of a ring position, as the links give them. */
  lemma {:induction false} Neighbours(head: Directory, ring: seq<Directory>, i: nat)
    requires RingLinked(head, ring) && i < |ring|
    ensures ring[i].prev == (if i == 0 then head else ring[i - 1]) && head.prev == ring[|ring| - 1]
    ensures ring[i].next == (if i == |ring| - 1 then head else ring[i + 1]) && head.next == ring[0]
  {
    CircleShape(head, ring);
    var c := Circle(head, ring);
    assert c[i + 1].prev == c[i] && c[i + 1].next == c[i + 2];
    assert c[|c| - 1].prev == c[|c| - 2] && c[0].next == c[1];
  }

  lemma {:induction false} DistinctOf(head: Directory, ring: seq<Directory>)
    requires RingLinked(head, ring)
    ensures Distinct(head, ring)
  {
  }

  /** An entry is alive exactly while it is on the ring or referred to. */
  ghost predicate Alive(ring: seq<Directory>, live: set<Directory>, holders: multiset<Directory>)
  {
    && (forall d :: d in live ==> d in ring || d in holders)
    && (forall d :: d in ring ==> d in live) && (forall d :: d in holders ==> d in live)
  }

  /** The counts are the numbers of references. */
  ghost predicate Counted(live: set<Directory>, holders: multiset<Directory>)
    reads live`count
  {
    forall d :: d in live ==> d.count == holders[d]
  }

  ghost predicate OffRing(ring: seq<Directory>, live: set<Directory>)
    reads live`next, live`prev
  {
    forall d :: d in live && d !in ring ==> d.next == null && d.prev == null
  }

  ghost predicate Accounted(ring: seq<Directory>, live: set<Directory>, holders: multiset<Directory>)
    reads live
  {
    Alive(ring, live, holders) && Counted(live, holders) && OffRing(ring, live)
  }

  /** One reference less. */
  lemma {:induction false} AliveLess(ring: seq<Directory>, live: set<Directory>, holders: multiset<Directory>,
                                     d: Directory)
    requires Alive(ring, live, holders) && d in holders
    ensures d in live
    ensures var h := holders - multiset{d};
      && h[d] == holders[d] - 1 && (forall x :: x != d ==> h[x] == holders[x])
      && Alive(ring, if d in ring || d in h then live else live - {d}, h)
  {
  }

  /** An entry taken off the ring. */
  lemma {:induction false} AliveWithout(head: Directory, ring: seq<Directory>, live: set<Directory>,
                                        holders: multiset<Directory>, j: nat)
    requires Alive(ring, live, holders) && j < |ring| && Distinct(head, ring)
    ensures ring[j] in live && Alive(Without(ring, j), if ring[j] in holders then live else live - {ring[j]}, holders)
  {
  }

  /** A new entry in the place of another. */
  lemma {:induction false} AliveReplaced(head: Directory, ring: seq<Directory>, live: set<Directory>,
                                         holders: multiset<Directory>, k: nat, d: Directory)
    requires Alive(ring, live, holders) && k < |ring| && Distinct(head, ring) && d !in live
    ensures ring[k] in live && d !in ring && d !in holders
    ensures Alive(ring[k := d], (if ring[k] in holders then live else live - {ring[k]}) + {d}, holders)
  {
    Replaced(head, ring, k, d);
  }

  class Dirs {
    const head: Directory
    var cwd: Directory
    ghost var ring: seq<Directory>
    ghost var pos: nat
    /** Entries allocated and not freed. */
    ghost var live: set<Directory>
    /** One occurrence for every unreaped job head that refers to an entry. */
    ghost var holders: multiset<Directory>

    ghost predicate Valid()
      reads this, head, ring, live
    {
      && RingLinked(head, ring) && pos < |ring| && ring[pos] == cwd && head !in live
      && Accounted(ring, live, holders)
    }

    /** The stack as `dirs` prints it, current directory first. */
    ghost function Stack(): seq<Directory>
      reads this, head, ring, live
      requires Valid()
    {
      Backwards(ring, pos)
    }

    /** `dinit`, given the starting directory's name. */
    constructor (name: Word)
      ensures Valid() && fresh(head) && fresh(live) && Stack() == [cwd] && cwd.name == name && holders == multiset{}
    {
      var h := new Directory([]);
      var d := new Directory(name);
      head, cwd := h, d;
      ring, pos, live, holders := [d], 0, {d}, multiset{};
      new;
      head.next, head.prev := cwd, cwd;
      cwd.next, cwd.prev := head, head;
    }

    /** `dfind` on `+n`: the entry `n` places down, or an error when the stack is not that deep. */
    method Dfind(n: nat) returns (d: Directory?)
      requires Valid()
      ensures d == if n < |ring| then Stack()[n] else null
    {
      var dp := cwd;
      ghost var k := 0;
      var i: nat := n;
      while i != 0
        invariant Valid() && k + i == n && k < |ring| && dp == Stack()[k]
        decreases i
      {
        Neighbours(head, ring, Back(|ring|, pos, k));
        dp := dp.prev;
        if dp == head {
          dp := dp.prev;
        }
        assert dp == if k + 1 < |ring| then ring[Back(|ring|, pos, k + 1)] else cwd;
        if dp == cwd {
          return null;
        }
        i, k := i - 1, k + 1;
      }
      d := dp;
    }

    /** The entry below the top, or the top itself when it is alone. */
    method Second() returns (dp: Directory)
      requires Valid()
      ensures dp == ring[if pos == 0 then |ring| - 1 else pos - 1] && (dp == cwd <==> |ring| == 1)
    {
      Neighbours(head, ring, pos);
      dp := cwd.prev;
      if dp == head {
        dp := head.prev;
      }
    }

    /** `pushd` without an argument: the top two change places. */
    method PushdSwap(chdir: bool) returns (ok: bool)
      requires Valid()
      modifies this, head`next, head`prev, ring`next, ring`prev
      ensures Valid() && holders == old(holders) && live == old(live) && ok == (2 <= old(|ring|) && chdir)
      ensures var l := old(Stack());
        Stack() == if ok then [l[1], l[0]] + l[2..] else l
    {
      hide RingLinked, Backwards, Accounted;
      var dp := Second();
      ghost var j := if pos == 0 then |ring| - 1 else pos - 1;
      if dp == cwd || !chdir {
        return false;
      }
      ok := true;
      ghost var k := if pos == 0 then 1 else pos;
      BackwardsSwap(ring, pos);
      Raise(dp, j, k);
      ring, pos := With(Without(ring, j), k, dp), k;
      cwd := dp;
    }

    /** Relink the entry at `j` behind the current one. */
    method Raise(dp: Directory, ghost j: nat, ghost k: nat)
      requires Valid() && j < |ring| && ring[j] == dp != cwd
      requires k == if j < pos then pos else pos + 1
      modifies head`next, head`prev, ring`next, ring`prev
      ensures var r := With(Without(ring, j), k, dp);
        RingLinked(head, r) && Accounted(r, live, holders)
    {
      ghost var rest := Without(ring, j);
      DistinctWithout(head, ring, j);
      Unlink(dp, head, ring, j);
      CircleShape(head, rest);
      LinkAfter(cwd, dp, head, rest, k);
      assert forall x :: x in With(rest, k, dp) <==> x in rest || x == dp;
    }

    /** `pushd +n`: the stack turns until the entry `n` places down is on top. */
    method PushdTurn(n: nat, chdir: bool) returns (ok: bool)
      requires Valid() && 0 < n
      modifies this
      ensures Valid() && holders == old(holders) && live == old(live) && ok == (n < old(|ring|) && chdir)
      ensures var l := old(Stack());
        Stack() == if ok then l[n..] + l[..n] else l
    {
      hide RingLinked, Backwards, Accounted;
      var dp := Dfind(n);
      if dp == null || !chdir {
        return false;
      }
      ok := true;
      BackwardsAt(ring, pos, n);
      BackwardsTurn(ring, pos, n);
      pos := Back(|ring|, pos, n);
      cwd := dp;
    }

    /** `pushd dir`, once `dfollow` has changed to the directory and canonicalised its name. */
    method PushdNew(name: Word)
      requires Valid()
      modifies this, head`next, head`prev, ring`next, ring`prev
      ensures Valid() && holders == old(holders) && fresh(cwd) && live == old(live) + {cwd}
      ensures cwd.name == name && Stack() == [cwd] + old(Stack())
    {
      hide RingLinked, Backwards, Accounted, With;
      var dp := new Directory(name);
      WithAt(ring, pos + 1, dp);
      BackwardsPush(ring, pos, dp);
      Insert(dp);
      live := live + {dp};
      ring, pos := With(ring, pos + 1, dp), pos + 1;
      cwd := dp;
    }

    /** Link a new entry in behind the current one. */
    method Insert(dp: Directory)
      requires Valid() && dp != head && dp !in live && dp.count == 0
      modifies head`next, head`prev, ring`next, ring`prev, dp`next, dp`prev
      ensures var r := With(ring, pos + 1, dp);
        RingLinked(head, r) && Accounted(r, live + {dp}, holders)
    {
      hide RingLinked;
      CircleShape(head, ring);
      LinkAfter(cwd, dp, head, ring, pos + 1);
      assert forall x :: x in With(ring, pos + 1, dp) <==> x in ring || x == dp;
    }

    /** Take an entry off the ring and let go of it, as `popd` and `cd` do. */
    method Discard(d: Directory, ghost j: nat)
      requires Valid() && j < |ring| && ring[j] == d
      modifies this`live, head`next, head`prev, ring`next, ring`prev
      ensures var r := Without(ring, j);
        && RingLinked(head, r) && Accounted(r, live, holders)
        && live == (if old(holders)[d] > 0 then old(live) else old(live) - {d})
    {
      hide Without, RingLinked, Alive;
      DistinctOf(head, ring);
      DistinctWithout(head, ring, j);
      AliveWithout(head, ring, live, holders, j);
      assert d.count == holders[d];
      Unlink(d, head, ring, j);
      if d.count != 0 {
        d.next, d.prev := null, null;
      } else {
        live := live - {d};
      }
    }

    /** `popd`: the top entry goes; `empty` when it is the only one. */
    method Popd(chdir: bool) returns (ok: bool)
      requires Valid()
      modifies this, head`next, head`prev, ring`next, ring`prev
      ensures Valid() && holders == old(holders) && ok == (2 <= old(|ring|) && chdir)
      ensures var l := old(Stack());
        if ok then Stack() == l[1..] && live == (if l[0] in holders then old(live) else old(live) - {l[0]})
        else Stack() == l && live == old(live)
    {
      hide RingLinked, Backwards, Accounted;
      var dp := cwd;
      Neighbours(head, ring, pos);
      DistinctOf(head, ring);
      if dp.prev == head && dp.next == head {
        return false;
      }
      var p := Second();
      if !chdir {
        return false;
      }
      ok := true;
      ghost var l := Stack();
      hide Dirs.Valid, Dirs.Stack;
      Leave(p, 1);
      assert l[1..] + l[1..1] == l[1..];
    }

    /** Let go of the current entry and make `dp`, which is `n` places down, the current one. */
    method Leave(dp: Directory, ghost n: nat)
      requires Valid() && 0 < n < |ring| && dp == ring[Back(|ring|, pos, n)]
      modifies this, head`next, head`prev, ring`next, ring`prev
      ensures Valid() && holders == old(holders)
      ensures var l := old(Stack());
        Stack() == l[n..] + l[1..n] && live == (if l[0] in holders then old(live) else old(live) - {l[0]})
    {
      hide RingLinked, Backwards, Accounted, Without;
      BackwardsAt(ring, pos, 0);
      BackwardsLeave(ring, pos, n);
      ghost var j := Back(|ring|, pos, n);
      WithoutAt(ring, pos, j);
      Discard(cwd, pos);
      ring, pos := Without(ring, pos), if j < pos then j else j - 1;
      cwd := dp;
    }

    /** `popd +n`: the entry `n` places down goes. */
    method PopdAt(n: nat) returns (ok: bool)
      requires Valid() && 0 < n
      modifies this, head`next, head`prev, ring`next, ring`prev
      ensures Valid() && holders == old(holders) && cwd == old(cwd) && ok == (n < old(|ring|))
      ensures var l := old(Stack());
        if ok then Stack() == l[..n] + l[n + 1..] && live == (if l[n] in holders then old(live) else old(live) - {l[n]})
        else Stack() == l && live == old(live)
    {
      hide RingLinked, Backwards, Accounted, Without;
      var dp := Dfind(n);
      if dp == null {
        return false;
      }
      ok := true;
      BackwardsAt(ring, pos, n);
      BackwardsDrop(ring, pos, n);
      ghost var j := Back(|ring|, pos, n);
      WithoutAt(ring, j, pos);
      Discard(dp, j);
      ring, pos := Without(ring, j), if j < pos then pos - 1 else pos;
    }

    /** `cd +n`: the top entry goes and the stack turns to the entry `n` places down. */
    method CdTurn(n: nat, chdir: bool) returns (ok: bool)
      requires Valid() && 0 < n
      modifies this, head`next, head`prev, ring`next, ring`prev
      ensures Valid() && holders == old(holders) && ok == (n < old(|ring|) && chdir)
      ensures var l := old(Stack());
        if ok then Stack() == l[n..] + l[1..n] && live == (if l[0] in holders then old(live) else old(live) - {l[0]})
        else Stack() == l && live == old(live)
    {
      hide RingLinked, Backwards, Accounted;
      var dp := Dfind(n);
      if dp == null || !chdir {
        return false;
      }
      ok := true;
      BackwardsAt(ring, pos, n);
      Leave(dp, n);
    }

    /** `cd dir`, once `dfollow` has changed to the directory: the new entry takes the top one's place. */
    method CdNew(name: Word)
      requires Valid()
      modifies this, head`next, head`prev, ring`next, ring`prev
      ensures Valid() && holders == old(holders) && fresh(cwd) && cwd.name == name
      ensures var l := old(Stack());
        && Stack() == [cwd] + l[1..]
        && live == (if l[0] in holders then old(live) else old(live) - {l[0]}) + {cwd}
    {
      hide RingLinked, Backwards, Accounted;
      var dp := new Directory(name);
      BackwardsAt(ring, pos, 0);
      BackwardsReplace(ring, pos, dp);
      Supplant(dp);
      live := live + {dp};
      ring := ring[pos := dp];
      cwd := dp;
    }

    /** The new entry takes over the current one's links, and the old one is let go of. */
    method Supplant(dp: Directory)
      requires Valid() && dp != head && dp !in live && dp.count == 0
      modifies this`live, head`next, head`prev, ring`next, ring`prev, dp`next, dp`prev
      ensures var r := ring[pos := dp];
        && RingLinked(head, r) && Accounted(r, live + {dp}, holders)
        && live == (if cwd in holders then old(live) else old(live) - {cwd})
    {
      hide RingLinked, Alive;
      DistinctOf(head, ring);
      AliveReplaced(head, ring, live, holders, pos, dp);
      Replaced(head, ring, pos, dp);
      assert cwd.count == holders[cwd] && dp.count == holders[dp];
      SwapIn(cwd, dp, head, ring, pos);
      assert forall x :: x in live && x !in ring ==> x.next == old(x.next) && x.prev == old(x.prev);
      if cwd.count != 0 {
        cwd.next, cwd.prev := null, null;
      } else {
        live := live - {cwd};
      }
    }

    /** `palloc` on a new job: the job head refers to the current directory. */
    method Hold()
      requires Valid()
      modifies this`holders, cwd`count
      ensures Valid() && holders == old(holders) + multiset{cwd}
    {
      DistinctOf(head, ring);
      cwd.count := cwd.count + 1;
      holders := holders + multiset{cwd};
    }

    /** Reaping a job head: its reference goes, and with the last one an entry that is off the ring. */
    method Release(d: Directory)
      requires Valid() && d in holders
      modifies this`holders, this`live, d`count
      ensures Valid() && holders == old(holders) - multiset{d}
      ensures live == if d in ring || d in holders then old(live) else old(live) - {d}
    {
      hide RingLinked, Alive;
      AliveLess(ring, live, holders, d);
      OnRingIff(d);
      d.count := d.count - 1;
      holders := holders - multiset{d};
      if d.count == 0 {
        if d.next == null {
          live := live - {d};
        }
      }
    }

    /** The test `di_next == 0` recognises the entries that are off the ring. */
    lemma OnRingIff(d: Directory)
      requires Valid() && d in live
      ensures d.next != null <==> d in ring
    {
      if d in ring {
        var i :| 0 <= i < |ring| && ring[i] == d;
        Neighbours(head, ring, i);
      }
    }
  }
}
