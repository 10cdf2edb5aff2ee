/** The command hash: a bit table built from the directories of the search path, and the search that consults it. */
module ExecHash {
  import opened Words

  const HSHSIZ := 8192

  const HSHMUL := 243

  const SLASH: Char := 47

  const DOT: Char := 46

  /** The macro `hash`. */
  function Hash(a: int, b: int): (h: nat)
    ensures h < HSHSIZ
  {
    (a * HSHMUL + b) % HSHSIZ
  }

  function HashFrom(h: int, w: Word): int
    decreases |w|
  {
    if w == [] then h else HashFrom(Hash(h, w[0]), w[1..])
  }

  /** `hashname`. */
  method Hashname(w: Word) returns (h: int)
    ensures h == HashFrom(0, w)
  {
    h := 0;
    var k := 0;
    while k < |w|
      invariant k <= |w| && HashFrom(h, w[k..]) == HashFrom(0, w)
    {
      assert w[k..][1..] == w[k + 1..];
      h := Hash(h, w[k]);
      k := k + 1;
    }
  }

  /** The name as a number in base `HSHMUL`. */
  function Numeral(w: Word): int
  {
    if w == [] then 0 else Numeral(w[..|w| - 1]) * HSHMUL + w[|w| - 1]
  }

  /** The hash of a name is that number in the size of the table. */
  lemma {:induction false} HashIsNumeral(w: Word)
    ensures HashFrom(0, w) == Numeral(w) % HSHSIZ
  {
    if w != [] {
      var v, c := w[..|w| - 1], w[|w| - 1];
      HashIsNumeral(v);
      assert w == v + [c];
      HashLast(0, v, c);
      Reduced(Numeral(v), c);
    }
  }

  lemma {:induction false} HashLast(h: int, v: Word, c: Char)
    ensures HashFrom(h, v + [c]) == Hash(HashFrom(h, v), c)
    decreases |v|
  {
    hide Hash;
    if v != [] {
      assert (v + [c])[1..] == v[1..] + [c];
      HashLast(Hash(h, v[0]), v[1..], c);
    } else {
      assert v + [c] == [c];
    }
  }

  lemma {:induction false} Reduced(n: int, c: int)
    ensures Hash(n % HSHSIZ, c) == (n * HSHMUL + c) % HSHSIZ
  {
    var q := n / HSHSIZ;
    assert n == q * HSHSIZ + n % HSHSIZ;
    assert n * HSHMUL + c == (q * HSHMUL) * HSHSIZ + (n % HSHSIZ * HSHMUL + c);
  }

  /** `1 << k`. */
  function Mask(k: nat): bv8
    requires k < 8
  {
    if k == 0 then 1 else if k == 1 then 2 else if k == 2 then 4 else if k == 3 then 8
    else if k == 4 then 16 else if k == 5 then 32 else if k == 6 then 64 else 128
  }

  predicate Bit(x: bv8, k: nat)
    requires k < 8
  {
    x & Mask(k) != 0
  }

  lemma {:induction false} BitOr(x: bv8, k: nat, j: nat)
    requires k < 8 && j < 8
    ensures Bit(x | Mask(k), j) <==> j == k || Bit(x, j)
  {
  }

  /** One entry of a directory. */
  datatype Entry = Entry(ino: nat, name: Word)

  /** What `opendir` and `readdir` give for a directory; nothing if it cannot be read. */
  type Listing = Word -> Option<seq<Entry>>

  predicate Dots(w: Word)
  {
    w == [DOT] || w == [DOT, DOT]
  }

  /** The path component `i` is absolute, can be read, and has a file of this name. */
  predicate Listed(path: seq<Word>, list: Listing, i: nat, name: Word)
  {
    && i < |path| && At(path[i], 0) == SLASH && list(path[i]).Some? && !Dots(name)
    && exists e :: e in list(path[i]).value && e.ino != 0 && e.name == name
  }

  /** An entry that goes into the table: a file in an absolute directory that can be read, other than `.` and `..`. */
  ghost predicate Entered(dir: Word, list: Listing, e: Entry)
  {
    && dir != [] && dir[0] == '/' as int && list(dir).Some? && e in list(dir).value
    && e.ino != 0 && e.name != ['.' as int] && e.name != ['.' as int, '.' as int]
  }

  class Table {
    const xhash: array<bv8>
    var havhash: bool

    ghost predicate Valid()
      reads this, xhash
    {
      xhash.Length == HSHSIZ / 8
    }

    constructor ()
      ensures Valid() && !havhash
    {
      xhash := new bv8[HSHSIZ / 8];
      havhash := false;
    }

    predicate Has(h: nat)
      requires Valid() && h < HSHSIZ
      reads this, xhash
    {
      Bit(xhash[h / 8], h % 8)
    }

    /** The macro `bis`. */
    method Bis(h: nat)
      requires Valid() && h < HSHSIZ
      modifies xhash
      ensures forall k :: 0 <= k < HSHSIZ ==> (Has(k) <==> k == h || old(Has(k)))
    {
      ghost var was := xhash[h / 8];
      xhash[h / 8] := xhash[h / 8] | Mask(h % 8);
      forall k | 0 <= k < HSHSIZ
        ensures Has(k) <==> k == h || old(Has(k))
      {
        if k / 8 == h / 8 {
          BitOr(was, h % 8, k % 8);
          assert k == h <==> k % 8 == h % 8;
        }
      }
    }

    /** The bits of the names of component `i` among the first `n` entries. */
    ghost predicate Marks(i: nat, entries: seq<Entry>, n: nat, h: nat)
      requires n <= |entries|
    {
      exists e :: e in entries[..n] && e.ino != 0 && !Dots(e.name) && h == Hash(HashFrom(0, e.name), i)
    }

    /** The loop over one directory. */
    method Enter(i: nat, entries: seq<Entry>)
      requires Valid()
      modifies xhash
      ensures forall h :: 0 <= h < HSHSIZ ==> (Has(h) <==> old(Has(h)) || Marks(i, entries, |entries|, h))
    {
      var n := 0;
      while n < |entries|
        invariant n <= |entries|
        invariant forall h :: 0 <= h < HSHSIZ ==> (Has(h) <==> old(Has(h)) || Marks(i, entries, n, h))
      {
        var e := entries[n];
        assert entries[..n + 1] == entries[..n] + [e];
        label before:
        if e.ino != 0 && !Dots(e.name) {
          var h := Hashname(e.name);
          Bis(Hash(h, i));
        }
        forall h | 0 <= h < HSHSIZ
          ensures Marks(i, entries, n + 1, h) <==>
                  Marks(i, entries, n, h) || (e.ino != 0 && !Dots(e.name) && h == Hash(HashFrom(0, e.name), i))
        {
        }
        n := n + 1;
      }
    }

    /** What the table holds for the components before `k`: a bit for every name that is there, and no other. */
    ghost predicate Built(path: seq<Word>, list: Listing, k: nat)
      requires Valid()
      reads this, xhash
    {
      forall h :: 0 <= h < HSHSIZ ==> (Has(h) <==> Wanted(path, list, k, h))
    }

    method Clear()
      requires Valid()
      modifies xhash
      ensures forall h :: 0 <= h < HSHSIZ ==> !Has(h)
    {
      var cnt := 0;
      while cnt < xhash.Length
        invariant cnt <= xhash.Length && forall k :: 0 <= k < cnt ==> xhash[k] == 0
      {
        xhash[cnt] := 0;
        cnt := cnt + 1;
      }
    }

    lemma {:induction false} MarksAreListed(path: seq<Word>, list: Listing, i: nat)
      requires i < |path|
      ensures if At(path[i], 0) == SLASH && list(path[i]).Some? then
          var entries := list(path[i]).value;
          forall h :: Marks(i, entries, |entries|, h) <==> ListedHash(path, list, i, h)
        else forall h :: !ListedHash(path, list, i, h)
    {
    }

    /** `dohash`. */
    method Dohash(path: seq<Word>, list: Listing)
      requires Valid()
      modifies this`havhash, xhash
      ensures Valid() && havhash && Built(path, list, |path|)
      ensures forall i, e :: 0 <= i < |path| && Entered(path[i], list, e) ==> Has(Hash(HashFrom(0, e.name), i))
    {
      hide Hash, HashFrom, Listed, Table.Has;
      havhash := true;
      Clear();
      var i := 0;
      while i < |path|
        invariant havhash && i <= |path| && Built(path, list, i)
      {
        if At(path[i], 0) == SLASH {
          var dir := list(path[i]);
          if dir.Some? {
            Enter(i, dir.value);
          }
        }
        MarksAreListed(path, list, i);
        forall h | 0 <= h < HSHSIZ
          ensures Wanted(path, list, i + 1, h) <==> Wanted(path, list, i, h) || ListedHash(path, list, i, h)
        {
          OneMore(path, list, i, h);
        }
        i := i + 1;
      }
      NamesHaveBits(path, list);
    }

    lemma {:induction false} NamesHaveBits(path: seq<Word>, list: Listing)
      requires Valid() && Built(path, list, |path|)
      ensures forall i, e :: 0 <= i < |path| && Entered(path[i], list, e) ==> Has(Hash(HashFrom(0, e.name), i))
    {
      hide Hash, HashFrom, Table.Has;
      forall i, e | 0 <= i < |path| && Entered(path[i], list, e)
        ensures Has(Hash(HashFrom(0, e.name), i))
      {
        assert Listed(path, list, i, e.name);
        assert ListedHash(path, list, i, Hash(HashFrom(0, e.name), i));
      }
    }

    /** Whether the table makes the search pass over component `i`. */
    predicate Skipped(pv: seq<Word>, name: Word, i: nat)
      requires Valid() && i < |pv|
      reads this, xhash
    {
      SLASH !in name && At(pv[i], 0) == SLASH && havhash && !Has(Hash(HashFrom(0, name), i))
    }

    /** `iscommand`: the search through the path, which passes over a directory whose bit is clear. Whatever the table
        holds, the answer is that of the plain search exactly if the component where that one ends is not passed
        over. */
    method IsCommand(path: seq<Word>, name: Word, executable: Executable) returns (r: nat)
      requires Valid()
      ensures var pv, plain := Places(path, name), Search(path, name, executable);
        r == plain <==> plain == 0 || !Skipped(pv, name, plain - 1)
      ensures !havhash ==> r == Search(path, name, executable)
      ensures var pv := Places(path, name);
        if r == 0 then forall j :: 0 <= j < |pv| && Candidate(pv[j], name, executable) ==> Skipped(pv, name, j)
        else r <= |pv| && Candidate(pv[r - 1], name, executable) && !Skipped(pv, name, r - 1) &&
             forall j :: 0 <= j < r - 1 && Candidate(pv[j], name, executable) ==> Skipped(pv, name, j)
    {
      hide Hash, HashFrom, Table.Has, Candidate;
      var slash := SLASH in name;
      var pv := Places(path, name);
      var hashval := 0;
      if havhash {
        hashval := Hashname(name);
      }
      ghost var plain := Search(path, name, executable);
      var i := 0;
      while i < |pv|
        invariant i <= |pv|
        invariant FirstFrom(pv, name, executable, i) == plain || (0 < plain <= i && Skipped(pv, name, plain - 1))
        invariant forall j :: 0 <= j < i && Candidate(pv[j], name, executable) ==> Skipped(pv, name, j)
      {
        var skip := false;
        if !slash && At(pv[i], 0) == SLASH && havhash {
          skip := !Has(Hash(hashval, i));
        }
        if !skip && Candidate(pv[i], name, executable) {
          return i + 1;
        }
        i := i + 1;
      }
      return 0;
    }

    lemma {:induction false} NeverFalselyClear(path: seq<Word>, list: Listing, executable: Executable, i: nat,
                                               name: Word)
      requires Valid() && Built(path, list, |path|) && Unchanged(path, list, executable, name)
      requires i < |path| && At(path[i], 0) == SLASH && SLASH !in name && Candidate(path[i], name, executable)
      ensures Has(Hash(HashFrom(0, name), i))
    {
      assert Listed(path, list, i, name);
      assert ListedHash(path, list, i, Hash(HashFrom(0, name), i));
      assert Wanted(path, list, |path|, Hash(HashFrom(0, name), i));
    }

    /** With a table built from the path, and directories unchanged as far as this name goes, hashing makes no
        difference: the plain search never ends at a component that is passed over. */
    lemma {:induction false} HashingIsHarmless(path: seq<Word>, list: Listing, executable: Executable, name: Word)
      requires Valid() && Built(path, list, |path|) && Unchanged(path, list, executable, name)
      ensures var plain := Search(path, name, executable);
        plain == 0 || !Skipped(Places(path, name), name, plain - 1)
    {
      hide Hash, HashFrom, Table.Has, Candidate, Table.Built, Unchanged;
      var pv, plain := Places(path, name), Search(path, name, executable);
      FirstIs(pv, name, executable, 0);
      if plain != 0 && SLASH !in name && At(pv[plain - 1], 0) == SLASH {
        NeverFalselyClear(path, list, executable, plain - 1, name);
      }
    }

    /** Built and then searched: with the table the answer is that of the plain search. */
    method HashAndFind(path: seq<Word>, list: Listing, name: Word, executable: Executable) returns (r: nat)
      requires Valid() && Unchanged(path, list, executable, name)
      modifies this`havhash, xhash
      ensures havhash && r == Search(path, name, executable)
      ensures path == [] || SLASH in name ==> r == if executable(None, name) then 1 else 0
      ensures path != [] && SLASH !in name ==> FirstPlace(path, name, executable, r)
    {
      hide Table.Has, Table.Built, Unchanged, Candidate, Hash, FirstPlace;
      Dohash(path, list);
      HashingIsHarmless(path, list, executable, name);
      r := IsCommand(path, name, executable);
      SearchIsFirst(path, name, executable);
    }
  }

  /** Some file of component `i` has the hash `h`. */
  ghost predicate ListedHash(path: seq<Word>, list: Listing, i: nat, h: nat)
  {
    exists name :: Listed(path, list, i, name) && h == Hash(HashFrom(0, name), i)
  }

  ghost predicate Wanted(path: seq<Word>, list: Listing, k: nat, h: nat)
  {
    exists i :: 0 <= i < k && ListedHash(path, list, i, h)
  }

  lemma {:induction false} OneMore(path: seq<Word>, list: Listing, i: nat, h: nat)
    ensures Wanted(path, list, i + 1, h) <==> Wanted(path, list, i, h) || ListedHash(path, list, i, h)
  {
  }

  /** Whether a file can be executed, given the directory and the rest of its name. */
  type Executable = (Option<Word>, Word) -> bool

  /** Whether the command is found in this component; `.` and the empty one mean the name as it stands. */
  predicate Candidate(dir: Word, name: Word, executable: Executable)
  {
    if dir == [] || dir == [DOT] then executable(None, name) else executable(Some(dir), [SLASH] + name)
  }

  function FirstFrom(pv: seq<Word>, name: Word, executable: Executable, i: nat): (r: nat)
    requires i <= |pv|
    ensures r == 0 || i < r <= |pv|
    decreases |pv| - i
  {
    if i == |pv| then 0
    else if Candidate(pv[i], name, executable) then i + 1
    else FirstFrom(pv, name, executable, i + 1)
  }

  lemma {:induction false} FirstIs(pv: seq<Word>, name: Word, executable: Executable, i: nat)
    requires i <= |pv|
    ensures var r := FirstFrom(pv, name, executable, i);
      && (r != 0 ==> Candidate(pv[r - 1], name, executable))
      && forall j :: i <= j < (if r == 0 then |pv| else r - 1) ==> !Candidate(pv[j], name, executable)
    decreases |pv| - i
  {
    hide Candidate;
    if i < |pv| {
      FirstIs(pv, name, executable, i + 1);
    }
  }

  /** Where a name is looked for: the path, or the name as it stands if there is no path or a slash in the name. */
  function Places(path: seq<Word>, name: Word): seq<Word>
  {
    if path == [] || SLASH in name then [[]] else path
  }

  /** The search without a table: one more than the index of the first component that has the command, or 0. */
  function Search(path: seq<Word>, name: Word, executable: Executable): nat
  {
    FirstFrom(Places(path, name), name, executable, 0)
  }

  /** Place `r - 1` of the path has the command and no place before it has; there is none if `r` is 0. A place has it
      if the file called after the directory, a slash and the name can be executed, or, in the current directory, the
      file called by the name alone. */
  ghost predicate FirstPlace(path: seq<Word>, name: Word, executable: Executable, r: nat)
  {
    && r <= |path|
    && (0 < r && path[r - 1] !in {[], [DOT]} ==> executable(Some(path[r - 1]), [SLASH] + name))
    && (0 < r && path[r - 1] in {[], [DOT]} ==> executable(None, name))
    && forall j :: 0 <= j < (if r == 0 then |path| else r - 1) ==>
         !executable(if path[j] in {[], [DOT]} then None else Some(path[j]),
                     if path[j] in {[], [DOT]} then name else [SLASH] + name)
  }

  /** The plain search gives the first place along the path; of a name with a slash, or without a path, it tells whether
      the file can be executed. */
  lemma {:induction false} SearchIsFirst(path: seq<Word>, name: Word, executable: Executable)
    ensures var r := Search(path, name, executable);
      if path == [] || SLASH in name then r == if executable(None, name) then 1 else 0
      else FirstPlace(path, name, executable, r)
  {
    FirstIs(Places(path, name), name, executable, 0);
  }

  /** As far as `name` goes, the absolute directories are as they were listed: if it can be executed in one, it is the
      name of a file found there. A name with a slash is not looked for along the path; the name is one that has been
      trimmed. */
  ghost predicate Unchanged(path: seq<Word>, list: Listing, executable: Executable, name: Word)
  {
    SLASH !in name ==>
      forall i :: 0 <= i < |path| && At(path[i], 0) == SLASH && executable(Some(path[i]), [SLASH] + name) ==>
        exists e :: Entered(path[i], list, e) && e.name == name
  }
}
