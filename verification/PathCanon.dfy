/** `dcanon` with symbolic links ignored: the in-place rewriting of a path into its lexical normal form. */
module PathCanon {

  const SLASH := '/' as int
  const DOT := '.' as int

  type Name = seq<int>

  /** The components of a path between slashes, empty ones included. */
  function Split(s: seq<int>): (parts: seq<Name>)
    ensures parts != []
  {
    if s == [] then [[]]
    else if s[0] == SLASH then [[]] + Split(s[1..])
    else
      var r := Split(s[1..]);
      [[s[0]] + r[0]] + r[1..]
  }

  /** What one component does to the components kept so far. */
  function Apply(stack: seq<Name>, c: Name): seq<Name>
  {
    if c == [] || c == [DOT] then stack
    else if c == [DOT, DOT] then (if stack == [] then [] else stack[..|stack| - 1])
    else stack + [c]
  }

  function Fold(stack: seq<Name>, parts: seq<Name>): seq<Name>
    decreases |parts|
  {
    if parts == [] then stack else Fold(Apply(stack, parts[0]), parts[1..])
  }

  function Render(stack: seq<Name>): seq<int>
  {
    if stack == [] then [] else Render(stack[..|stack| - 1]) + [SLASH] + stack[|stack| - 1]
  }

  /** A component that a normal form may contain. */
  ghost predicate Proper(c: Name)
  {
    c != [] && c != [DOT] && c != [DOT, DOT] && SLASH !in c
  }

  ghost predicate Normal(stack: seq<Name>)
  {
    forall i :: 0 <= i < |stack| ==> Proper(stack[i])
  }

  /** Components as any path has them between single slashes. */
  ghost predicate Solid(stack: seq<Name>)
  {
    forall i :: 0 <= i < |stack| ==> stack[i] != [] && SLASH !in stack[i]
  }

  /** The path left for components `stack` in front of `rest`: the lexical normal form, except that a
      final "." at the root is left alone. */
  function Final(stack: seq<Name>, rest: seq<int>): seq<int>
  {
    var parts := Split(rest);
    var st := Fold(stack, parts);
    if st != [] then Render(st) else if parts[|parts| - 1] == [DOT] then [SLASH, DOT] else [SLASH]
  }

  lemma {:induction false} FoldConcat(stack: seq<Name>, a: seq<Name>, b: seq<Name>)
    ensures Fold(stack, a + b) == Fold(Fold(stack, a), b)
    decreases |a|
  {
    if a == [] {
      assert a + b == b;
    } else {
      assert (a + b)[1..] == a[1..] + b;
      FoldConcat(Apply(stack, a[0]), a[1..], b);
    }
  }

  lemma {:induction false} SplitConcat(x: seq<int>, y: seq<int>)
    ensures Split(x + [SLASH] + y) == Split(x) + Split(y)
    decreases |x|
  {
    var s := x + [SLASH] + y;
    if x == [] {
      assert s[1..] == y;
    } else {
      assert s[1..] == x[1..] + [SLASH] + y;
      SplitConcat(x[1..], y);
    }
  }

  lemma {:induction false} SplitOne(c: Name)
    requires SLASH !in c
    ensures Split(c) == [c]
    decreases |c|
  {
    if c != [] {
      SplitOne(c[1..]);
      assert [c[0]] + c[1..] == c;
    }
  }

  /** The first component of a path that goes on, and of one that ends with it. */
  lemma {:induction false} SplitFirst(c: Name, t: seq<int>)
    requires SLASH !in c
    ensures Split([SLASH] + c) == [[], c]
    ensures Split([SLASH] + c + [SLASH] + t) == [[], c] + Split(t)
  {
    SplitOne(c);
    assert [] + [SLASH] + c == [SLASH] + c;
    SplitConcat([], c);
    SplitConcat([SLASH] + c, t);
  }

  /** A component followed by more path. */
  lemma {:induction false} FinalStep(stack: seq<Name>, c: Name, t: seq<int>)
    requires SLASH !in c
    ensures Final(stack, [SLASH] + c + [SLASH] + t) == Final(Apply(stack, c), [SLASH] + t)
  {
    SplitFirst(c, t);
    FoldConcat(stack, [[], c], Split(t));
    assert [[], c][1..] == [c] && [c][1..] == [];
    assert Fold(stack, [[], c]) == Fold(stack, [c]) == Apply(stack, c);
    assert ([SLASH] + t)[1..] == t;
    assert ([[]] + Split(t))[1..] == Split(t);
  }

  /** The last component. */
  lemma {:induction false} FinalEnd(stack: seq<Name>, c: Name)
    requires SLASH !in c
    ensures Final(stack, [SLASH] + c) ==
            var st := Apply(stack, c);
            if st != [] then Render(st) else if c == [DOT] then [SLASH, DOT] else [SLASH]
  {
    SplitFirst(c, []);
    assert [[], c][1..] == [c] && [c][1..] == [];
    assert Fold(stack, [[], c]) == Fold(stack, [c]) == Apply(stack, c);
  }

  lemma {:induction false} FinalNothing(stack: seq<Name>)
    requires stack != []
    ensures Final(stack, []) == Render(stack)
  {
    assert Split([])[1..] == [];
  }

  lemma {:induction false} SplitNoSlash(s: seq<int>)
    ensures forall i :: 0 <= i < |Split(s)| ==> SLASH !in Split(s)[i]
    decreases |s|
  {
    if s != [] { SplitNoSlash(s[1..]); }
  }

  lemma {:induction false} FoldNormal(stack: seq<Name>, parts: seq<Name>)
    requires Normal(stack) && forall i :: 0 <= i < |parts| ==> SLASH !in parts[i]
    ensures Normal(Fold(stack, parts))
    decreases |parts|
  {
    if parts != [] { FoldNormal(Apply(stack, parts[0]), parts[1..]); }
  }

  lemma {:induction false} SplitRender(stack: seq<Name>)
    requires Normal(stack)
    ensures Split(Render(stack)) == [[]] + stack
    decreases |stack|
  {
    if stack != [] {
      var init, c := stack[..|stack| - 1], stack[|stack| - 1];
      SplitRender(init);
      SplitConcat(Render(init), c);
      SplitOne(c);
      assert stack == init + [c];
    }
  }

  lemma {:induction false} FoldProper(stack: seq<Name>, ps: seq<Name>)
    requires Normal(ps)
    ensures Fold(stack, ps) == stack + ps
    decreases |ps|
  {
    if ps == [] {
      assert stack + ps == stack;
    } else {
      FoldProper(stack + [ps[0]], ps[1..]);
      assert stack + ps == (stack + [ps[0]]) + ps[1..];
    }
  }

  lemma {:induction false} RenderFixed(st: seq<Name>)
    requires Normal(st) && st != []
    ensures Fold([], Split(Render(st))) == st && Final([], Render(st)) == Render(st)
  {
    SplitRender(st);
    assert ([[]] + st)[1..] == st;
    FoldProper([], st);
    assert [] + st == st;
  }

  lemma {:induction false} RootFixed(c: Name)
    requires c == [] || c == [DOT]
    ensures Fold([], Split([SLASH] + c)) == [] && Final([], [SLASH] + c) == [SLASH] + c
  {
    SplitFirst(c, []);
    FinalEnd([], c);
    assert [[], c][1..] == [c] && [c][1..] == [];
    assert Fold([], [[], c]) == Fold([], [c]) == Apply([], c);
  }

  /** The result is the rendering of proper components, or the root, or the root followed by a lone "."; it
      names the same place as the path did; and canonicalising it again changes nothing. */
  lemma {:induction false} FinalIsNormalForm(path: seq<int>)
    ensures var r, st := Final([], path), Fold([], Split(path));
      && Normal(st) && Fold([], Split(r)) == st
      && (if st != [] then r == Render(st) else r == [SLASH] || r == [SLASH, DOT])
      && Final([], r) == r
  {
    hide Split, Fold, Render;
    var st := Fold([], Split(path));
    SplitNoSlash(path);
    FoldNormal([], Split(path));
    if st != [] {
      RenderFixed(st);
    } else {
      RootFixed([]);
      RootFixed([DOT]);
      assert [SLASH] + [] == [SLASH] && [SLASH] + [DOT] == [SLASH, DOT];
    }
  }

  /** Where a path leads, as the names on the way. */
  function Way(path: seq<int>): seq<Name>
  {
    Fold([], Split(path))
  }

  /** A name and a ".." behind it cancel; a "." and an empty component are nothing, and so is a ".." at the root. With
      `WayOfNames` these laws leave no choice for any path. */
  lemma {:induction false} WayLaws(p: seq<int>, c: Name, q: seq<int>)
    requires Proper(c)
    ensures Way(p + [SLASH] + c + [SLASH, DOT, DOT, SLASH] + q) == Way(p + [SLASH] + q)
    ensures Way(p + [SLASH, DOT, SLASH] + q) == Way(p + [SLASH] + q)
    ensures Way(p + [SLASH, SLASH] + q) == Way(p + [SLASH] + q)
    ensures Way([SLASH, DOT, DOT, SLASH] + q) == Way([SLASH] + q)
    ensures Way(p + [SLASH]) == Way(p)
  {
    hide Split, Fold;
    var up, here, none := [DOT, DOT], [DOT], [];
    var sl := [SLASH];
    assert p + sl + c + [SLASH, DOT, DOT, SLASH] + q == p + sl + (c + sl + (up + sl + q));
    assert p + [SLASH, DOT, SLASH] + q == p + sl + (here + sl + q);
    assert p + [SLASH, SLASH] + q == p + sl + (none + sl + q);
    assert [SLASH, DOT, DOT, SLASH] + q == none + sl + (up + sl + q) && sl + q == none + sl + q;
    WayJoin(p, q);
    WayJoin(p, c + sl + (up + sl + q));
    WayJoin(p, here + sl + q);
    WayJoin(p, none + sl + q);
    WayJoin(none, up + sl + q);
    WayJoin(none, q);
    Component(Way(p), c, up + sl + q);
    Component(Way(p) + [c], up, q);
    Component(Way(p), here, q);
    Component(Way(p), none, q);
    Component([], up, q);
    Component([], none, q);
    SplitOne(none);
    FoldOne([], none);
    FoldOne(Way(p), none);
    WayJoin(p, none);
    assert p + sl + none == p + sl;
    assert (Way(p) + [c])[..|Way(p)|] == Way(p);
  }

  lemma {:induction false} WayOfNames(st: seq<Name>)
    requires Normal(st)
    ensures Way(Render(st)) == st
  {
    hide Split, Fold, Render;
    if st != [] {
      RenderFixed(st);
    } else {
      RenderNothing();
    }
  }

  lemma {:induction false} RenderNothing()
    ensures Render([]) == [] && Way([]) == []
  {
  }

  lemma {:induction false} WayJoin(p: seq<int>, q: seq<int>)
    ensures Way(p + [SLASH] + q) == Fold(Way(p), Split(q))
  {
    hide Split, Fold;
    SplitConcat(p, q);
    FoldConcat([], Split(p), Split(q));
  }

  lemma {:induction false} FoldOne(stack: seq<Name>, c: Name)
    ensures Fold(stack, [c]) == Apply(stack, c)
  {
  }

  lemma {:induction false} Component(stack: seq<Name>, c: Name, q: seq<int>)
    requires SLASH !in c
    ensures Fold(stack, Split(c + [SLASH] + q)) == Fold(Apply(stack, c), Split(q))
  {
    hide Split, Fold;
    SplitConcat(c, q);
    SplitOne(c);
    FoldConcat(stack, [c], Split(q));
    FoldOne(stack, c);
  }

  /** The exception: exactly the paths whose last component is a "." that nothing precedes. */
  lemma {:induction false} LoneDot(path: seq<int>)
    ensures Final([], path) == [SLASH, DOT] <==>
            Fold([], Split(path)) == [] && Split(path)[|Split(path)| - 1] == [DOT]
  {
    hide Fold, Split;
    var st := Fold([], Split(path));
    SplitNoSlash(path);
    FoldNormal([], Split(path));
    if st != [] {
      SplitRender(st);
      SplitFirst([DOT], []);
      assert [SLASH] + [DOT] == [SLASH, DOT];
      assert ([[]] + st)[1] == st[0];
    }
  }

  /** The buffer holds a NUL-terminated string of length `n`. */
  ghost predicate Holds(a: array<int>, n: nat, s: seq<int>)
    reads a
  {
    n == |s| < a.Length && a[..n] == s && a[n] == 0 && 0 !in s
  }

  /** The copying loops `(*p1++ = *p2++) != 0`: the string's tail from `src` moves down to `dst`. */
  method CopyDown(a: array<int>, dst: nat, src: nat, ghost n: nat)
    requires dst <= src <= n < a.Length && a[n] == 0 && 0 !in a[src..n]
    modifies a
    ensures a[..dst] == old(a[..dst]) && a[dst..dst + (n - src)] == old(a[src..n]) && a[dst + (n - src)] == 0
  {
    var p1, p2 := dst, src;
    while true
      invariant src <= p2 <= n && p1 - dst == p2 - src
      invariant a[..dst] == old(a[..dst]) && a[dst..p1] == old(a[src..p2])
      invariant a[p2..n + 1] == old(a[p2..n + 1])
      decreases n - p2
    {
      var c := a[p2];
      assert c == old(a[p2..n + 1])[0];
      assert p2 < n ==> c == old(a[src..n])[p2 - src];
      assert a[p2 + 1..n + 1] == a[p2..n + 1][1..];
      a[p1] := c;
      p1, p2 := p1 + 1, p2 + 1;
      if c == 0 {
        break;
      }
    }
  }

  /** `while (*++p == '/')` and the copy that closes the gap. */
  method FlushSlashes(a: array<int>, p: nat, ghost s: seq<int>, ghost stack: seq<Name>) returns (ghost t: seq<int>)
    requires Holds(a, |s|, s) && p < |s| && s[p] == SLASH
    modifies a
    ensures Holds(a, p + 1 + |t|, s[..p] + [SLASH] + t) && (t != [] ==> t[0] != SLASH) && |t| < |s| - p
    ensures Final(stack, [SLASH] + t) == Final(stack, s[p..])
  {
    hide Final;
    ghost var n := |s|;
    var q := p + 1;
    t := s[p + 1..];
    assert s[p..] == [SLASH] + t;
    while a[q] == SLASH
      invariant p < q <= n && t == s[q..] && Final(stack, [SLASH] + t) == Final(stack, s[p..])
      invariant Holds(a, n, s)
      decreases n - q
    {
      assert q < n && s[q] == a[..n][q];
      FinalStep(stack, [], t[1..]);
      assert [SLASH] + [] + [SLASH] + t[1..] == [SLASH] + t;
      q, t := q + 1, t[1..];
    }
    assert a[q..n] == s[q..] && a[..p + 1] == s[..p + 1];
    assert t != [] ==> a[q] == t[0];
    if q != p + 1 {
      CopyDown(a, p + 1, q, n);
    }
    ghost var m := p + 1 + |t|;
    assert a[..m] == a[..p + 1] + a[p + 1..m];
    assert s[..p + 1] == s[..p] + [SLASH];
  }

  /** The buffer cut at the end `q` of the component `c`: the slash there, if there is one, has become NUL. */
  ghost predicate Cut(a: array<int>, q: nat, slash: bool, pre: seq<int>, c: Name, u: seq<int>)
    reads a
  {
    && q == |pre| + 1 + |c| && q + (if slash then 1 + |u| else 0) < a.Length
    && a[..q] == pre + [SLASH] + c && a[q] == 0 && 0 !in pre && 0 !in c && 0 !in u && SLASH !in c
    && (if slash then a[q + 1..q + 1 + |u|] == u && a[q + 1 + |u|] == 0 else u == [])
  }

  /** The scan for the next slash or the end of the path, from the start of a component. */
  method ScanEnd(a: array<int>, sp: nat, ghost t: seq<int>) returns (q: nat, slash: bool)
    requires sp + |t| < a.Length && a[sp..sp + |t|] == t && a[sp + |t|] == 0 && 0 !in t && (t != [] ==> t[0] != SLASH)
    ensures sp <= q <= sp + |t| && SLASH !in t[..q - sp] && slash == (q < sp + |t|) && (slash ==> t[q - sp] == SLASH)
  {
    ghost var n := sp + |t|;
    q, slash := sp, false;
    while a[q] != 0
      invariant sp <= q <= n && !slash && (q < n ==> t[q - sp] != SLASH) && SLASH !in t[..q - sp]
      decreases n - q
    {
      assert a[q] == a[sp..n][q - sp];
      assert t[..q + 1 - sp] == t[..q - sp] + [t[q - sp]];
      q := q + 1;
      assert q < n ==> a[q] == a[sp..n][q - sp];
      if a[q] == SLASH {
        slash := true;
        break;
      }
    }
    assert q < n ==> a[q] == a[sp..n][q - sp];
  }

  /** `find next slash or end of path`, and cut the string there. */
  method FindEnd(a: array<int>, sp: nat, ghost pre: seq<int>, ghost t: seq<int>)
    returns (q: nat, slash: bool, ghost c: Name, ghost u: seq<int>)
    requires Holds(a, |pre| + 1 + |t|, pre + [SLASH] + t) && sp == |pre| + 1 && (t != [] ==> t[0] != SLASH)
    modifies a
    ensures Cut(a, q, slash, pre, c, u) && (c == [] ==> !slash)
    ensures [SLASH] + t == [SLASH] + c + if slash then [SLASH] + u else []
    ensures slash ==> |u| < |t|
  {
    ghost var n, s := sp + |t|, pre + [SLASH] + t;
    assert a[sp..n] == a[..n][sp..] == t;
    NoNulParts(pre, t);
    q, slash := ScanEnd(a, sp, t);
    c, u := t[..q - sp], if slash then t[q - sp + 1..] else [];
    CutAt(a, pre, t, q);
    if slash {
      a[q] := 0;
    }
  }

  lemma {:induction false} NoNulParts(pre: seq<int>, t: seq<int>)
    requires 0 !in pre + [SLASH] + t
    ensures 0 !in pre && 0 !in t
  {
  }

  /** What the buffer holds on both sides of `q`. */
  lemma {:induction false} CutAt(a: array<int>, pre: seq<int>, t: seq<int>, q: nat)
    requires |pre| + 1 <= q <= |pre| + 1 + |t| < a.Length && a[..|pre| + 1 + |t|] == pre + [SLASH] + t && 0 !in t
    ensures var k, n := q - |pre| - 1, |pre| + 1 + |t|;
      && a[..q] == pre + [SLASH] + t[..k] && 0 !in t[..k]
      && (q < n ==> a[q] == t[k] && a[q + 1..n] == t[k + 1..] && 0 !in t[k + 1..] && t == t[..k] + [t[k]] + t[k + 1..])
      && (q == n ==> t[..k] == t)
  {
  }

  /** How one turn of the component loop ends: finished, with `a[p] == 0`, or at a slash or the end with more to do. */
  ghost predicate Turned(a: array<int>, p: nat, s: seq<int>, stack: seq<Name>, done: bool, target: seq<int>)
    reads a
  {
    && Holds(a, |s|, s) && p < a.Length
    && (if done then a[p] == 0 && s == target
        else
          && p <= |s| && s[..p] == Render(stack) && Solid(stack) && (p < |s| ==> s[p] == SLASH)
          && (p == |s| ==> stack != []) && Final(stack, s[p..]) == target)
  }

  /** A trailing slash goes, unless it is the whole path. */
  method EmptyComponent(a: array<int>, q: nat, ghost stack: seq<Name>) returns (ghost s: seq<int>)
    requires Cut(a, q, false, Render(stack), [], [])
    modifies a
    ensures Turned(a, q, s, stack, true, Final(stack, [SLASH]))
  {
    hide Final, Render;
    FinalEnd(stack, []);
    RenderEmpty(stack);
    assert [SLASH] + [] == [SLASH];
    if q - 1 == 0 {
      s := [SLASH];
    } else {
      a[q - 1] := 0;
      s := Render(stack);
    }
    assert a[..|s|] == s;
  }

  /** Close the gap between the slash at `sp` and the path after the slash at `q`, and go on from there. */
  method Resume(a: array<int>, sp: nat, q: nat, ghost stack: seq<Name>, ghost u: seq<int>) returns (ghost s: seq<int>)
    requires sp < q && q + 1 + |u| < a.Length && a[..sp] == Render(stack) && a[sp] == SLASH && Solid(stack)
    requires 0 !in Render(stack)
    requires a[q + 1..q + 1 + |u|] == u && a[q + 1 + |u|] == 0 && 0 !in u
    modifies a
    ensures Turned(a, sp, s, stack, false, Final(stack, [SLASH] + u)) && |s| - sp == |u| + 1
  {
    hide Final, Render;
    assert a[..sp + 1] == Render(stack) + [SLASH];
    CopyDown(a, sp + 1, q + 1, q + 1 + |u|);
    s := Render(stack) + [SLASH] + u;
    assert a[..|s|] == a[..sp + 1] + a[sp + 1..sp + 1 + |u|];
    assert s[sp..] == [SLASH] + u;
  }

  /** A "." goes, unless it ends the path directly under the root. */
  method DotComponent(a: array<int>, q: nat, slash: bool, ghost stack: seq<Name>, ghost u: seq<int>)
    returns (p: nat, ghost s: seq<int>)
    requires Cut(a, q, slash, Render(stack), [DOT], u) && Solid(stack)
    modifies a
    ensures Turned(a, p, s, stack, !slash, Final(stack, [SLASH] + [DOT] + if slash then [SLASH] + u else []))
    ensures slash ==> |s| - p == |u| + 1
  {
    hide Final, Render;
    var sp := q - 1;
    ghost var pre := Render(stack);
    RenderEmpty(stack);
    if slash {
      FinalStep(stack, [DOT], u);
      assert [SLASH] + [DOT] + ([SLASH] + u) == [SLASH] + [DOT] + [SLASH] + u;
      assert a[..sp - 1] == a[..q][..sp - 1] == pre && a[sp - 1] == a[..q][sp - 1];
      p := sp - 1;
      s := Resume(a, p, q, stack, u);
    } else {
      FinalEnd(stack, [DOT]);
      assert [SLASH] + [DOT] + [] == [SLASH] + [DOT] == [SLASH, DOT];
      p := q;
      if sp - 1 != 0 {
        a[sp - 1] := 0;
        s := pre;
      } else {
        s := [SLASH, DOT];
      }
      assert a[..|s|] == s;
    }
  }

  lemma {:induction false} RenderEmpty(stack: seq<Name>)
    ensures Render(stack) == [] <==> stack == []
  {
  }

  ghost function Parent(stack: seq<Name>): seq<Name>
  {
    if stack == [] then [] else stack[..|stack| - 1]
  }

  lemma {:induction false} RenderLast(stack: seq<Name>)
    requires Solid(stack)
    ensures Solid(Parent(stack))
    ensures stack != [] ==>
      Render(stack) == Render(Parent(stack)) + [SLASH] + stack[|stack| - 1] && SLASH !in stack[|stack| - 1]
    ensures Render(stack) == [] <==> stack == []
  {
  }

  /** Back over a component to the slash in front of it. */
  method BackOver(a: array<int>, k: nat, ghost x: seq<int>, ghost c: Name) returns (sp: nat)
    requires k == |x| + 1 + |c| < a.Length && a[..k] == x + [SLASH] + c && SLASH !in c
    ensures sp == |x| && a[sp] == SLASH
  {
    assert forall i :: 0 <= i < |c| ==> a[|x| + 1 + i] == a[..k][|x| + 1 + i] == c[i];
    assert a[|x|] == a[..k][|x|] == SLASH;
    sp := k - 1;
    while a[sp] != SLASH
      invariant |x| <= sp < k
      decreases sp
    {
      sp := sp - 1;
    }
  }

  /** Back from the slash after the kept components to the slash before the last of them. */
  method BackUp(a: array<int>, k: nat, ghost stack: seq<Name>) returns (sp: nat)
    requires k == |Render(stack)| && k < a.Length && a[..k] == Render(stack) && a[k] == SLASH && Solid(stack)
    ensures sp == |Render(Parent(stack))| <= k && a[..sp] == Render(Parent(stack)) && a[sp] == SLASH
  {
    hide Render;
    RenderLast(stack);
    sp := k;
    if sp != 0 {
      sp := BackOver(a, k, Render(Parent(stack)), stack[|stack| - 1]);
      assert a[..sp] == a[..k][..sp];
    }
  }

  /** A ".." goes together with the component before it; at the root it just goes. */
  method DotDotComponent(a: array<int>, q: nat, slash: bool, ghost stack: seq<Name>, ghost u: seq<int>)
    returns (p: nat, ghost s: seq<int>)
    requires Cut(a, q, slash, Render(stack), [DOT, DOT], u) && Solid(stack)
    modifies a
    ensures Turned(a, p, s, Parent(stack), !slash,
      Final(stack, [SLASH] + [DOT, DOT] + if slash then [SLASH] + u else []))
    ensures slash ==> |s| - p == |u| + 1
  {
    hide Final, Render;
    var k := q - 3;
    ghost var up := Render(Parent(stack));
    assert a[..k] == a[..q][..k] == Render(stack) && a[k] == a[..q][k];
    RenderLast(stack);
    RenderLast(Parent(stack));
    RenderNoNul(stack);
    a[k] := 0;
    a[k] := SLASH;
    var sp := BackUp(a, k, stack);
    if slash {
      FinalStep(stack, [DOT, DOT], u);
      assert [SLASH] + [DOT, DOT] + ([SLASH] + u) == [SLASH] + [DOT, DOT] + [SLASH] + u;
      p := sp;
      s := Resume(a, sp, q, Parent(stack), u);
    } else {
      FinalEnd(stack, [DOT, DOT]);
      assert [SLASH] + [DOT, DOT] + [] == [SLASH] + [DOT, DOT];
      p := q;
      if sp == 0 {
        a[sp + 1] := 0;
        s := [SLASH];
      } else {
        a[sp] := 0;
        s := up;
      }
      assert a[..|s|] == s;
    }
  }

  lemma {:induction false} RenderNoNul(stack: seq<Name>)
    requires 0 !in Render(stack) && Solid(stack)
    ensures 0 !in Render(Parent(stack))
  {
  }

  /** Any other component stays; the slash after it is put back. */
  method NormalComponent(a: array<int>, q: nat, slash: bool, ghost stack: seq<Name>, ghost c: Name, ghost u: seq<int>)
    returns (ghost s: seq<int>)
    requires Cut(a, q, slash, Render(stack), c, u) && Solid(stack) && Proper(c)
    modifies a
    ensures Turned(a, q, s, stack + [c], false, Final(stack, [SLASH] + c + if slash then [SLASH] + u else []))
    ensures |s| - q == if slash then |u| + 1 else 0
  {
    hide Final, Render, Solid, Proper, Turned;
    KeptComponent(stack, c, slash, u);
    ghost var pre, tail := Render(stack + [c]), if slash then [SLASH] + u else [];
    s := pre + tail;
    if slash {
      PutSlash(a, q, u);
    }
    StillTurned(a, q, pre, tail, stack + [c], Final(stack, [SLASH] + c + tail));
  }

  method PutSlash(a: array<int>, q: nat, ghost u: seq<int>)
    requires q + 1 + |u| <= a.Length && a[q + 1..q + 1 + |u|] == u
    modifies a
    ensures a[..q] == old(a[..q]) && a[q..q + 1 + |u|] == [SLASH] + u && a[q + 1..] == old(a[q + 1..])
  {
    a[q] := SLASH;
  }

  lemma {:induction false} StillTurned(a: array<int>, q: nat, pre: seq<int>, tail: seq<int>, st: seq<Name>,
                                       target: seq<int>)
    requires |pre| == q && q + |tail| < a.Length && a[..q] == pre && a[q..q + |tail|] == tail && a[q + |tail|] == 0
    requires 0 !in pre && 0 !in tail && (tail != [] ==> tail[0] == SLASH)
    requires Render(st) == pre && Solid(st) && st != [] && Final(st, tail) == target
    ensures Turned(a, q, pre + tail, st, false, target)
  {
    hide Final, Render, Solid;
    var s := pre + tail;
    assert s[..q] == pre && s[q..] == tail;
    assert a[..|s|] == a[..q] + a[q..q + |tail|];
  }

  lemma {:induction false} KeptComponent(stack: seq<Name>, c: Name, slash: bool, u: seq<int>)
    requires Solid(stack) && Proper(c)
    ensures var st, tail := stack + [c], if slash then [SLASH] + u else [];
      && Solid(st) && Render(st) == Render(stack) + [SLASH] + c
      && Final(stack, [SLASH] + c + tail) == Final(st, tail)
      && (Render(st) + tail)[..|Render(st)|] == Render(st) && (Render(st) + tail)[|Render(st)|..] == tail
  {
    hide Final, Render;
    var st := stack + [c];
    assert st[..|st| - 1] == stack;
    RenderLast(st);
    if slash {
      FinalStep(stack, c, u);
      assert [SLASH] + c + ([SLASH] + u) == [SLASH] + c + [SLASH] + u;
    } else {
      FinalEnd(stack, c);
      FinalNothing(st);
      assert [SLASH] + c + [] == [SLASH] + c;
    }
  }

  /** What to do with a component. */
  method Dispatch(a: array<int>, sp: nat, end: nat, slash: bool, ghost stack: seq<Name>, ghost c: Name,
                  ghost u: seq<int>)
    returns (q: nat, ghost s: seq<int>, ghost stack': seq<Name>, ghost done: bool)
    requires Cut(a, end, slash, Render(stack), c, u) && sp == |Render(stack)| + 1 && Solid(stack) &&
      (c == [] ==> !slash)
    modifies a
    ensures Turned(a, q, s, stack', done, Final(stack, [SLASH] + c + if slash then [SLASH] + u else []))
    ensures !done ==> |s| - q <= if slash then |u| + 1 else 0
  {
    hide Final, Render, Turned;
    Spelling(a, end, slash, Render(stack), c, u);
    q := end;
    if a[sp] == 0 {
      assert [SLASH] + c + [] == [SLASH];
      s := EmptyComponent(a, q, stack);
      stack', done := stack, true;
    } else if a[sp] == DOT && a[sp + 1] == 0 {
      q, s := DotComponent(a, q, slash, stack, u);
      stack', done := stack, !slash;
    } else if a[sp] == DOT && a[sp + 1] == DOT && a[sp + 2] == 0 {
      q, s := DotDotComponent(a, q, slash, stack, u);
      stack', done := Parent(stack), !slash;
    } else {
      s := NormalComponent(a, q, slash, stack, c, u);
      stack', done := stack + [c], false;
    }
  }

  /** What a turn may rely on. */
  lemma {:induction false} AtSlash(a: array<int>, p: nat, s: seq<int>, stack: seq<Name>, target: seq<int>)
    requires Turned(a, p, s, stack, false, target) && p < |s|
    ensures Holds(a, |s|, s) && s[p] == SLASH && s[..p] == Render(stack) && Solid(stack)
    ensures Final(stack, s[p..]) == target
  {
  }

  /** One turn of the component loop. */
  method Turn(a: array<int>, p: nat, ghost s: seq<int>, ghost stack: seq<Name>, ghost target: seq<int>)
    returns (q: nat, ghost s': seq<int>, ghost stack': seq<Name>, ghost done: bool)
    requires Turned(a, p, s, stack, false, target) && p < |s|
    modifies a
    ensures Turned(a, q, s', stack', done, target) && (!done ==> |s'| - q < |s| - p)
  {
    hide Final, Render, Cut, Turned, Holds, Solid;
    AtSlash(a, p, s, stack, target);
    ghost var pre := Render(stack);
    ghost var t := FlushSlashes(a, p, s, stack);
    var end, slash;
    ghost var c, u;
    end, slash, c, u := FindEnd(a, p + 1, pre, t);
    q, s', stack', done := Dispatch(a, p + 1, end, slash, stack, c, u);
  }

  /** The tests on the bytes of the cut component, as facts about the component. */
  lemma {:induction false} Spelling(a: array<int>, q: nat, slash: bool, pre: seq<int>, c: Name, u: seq<int>)
    requires Cut(a, q, slash, pre, c, u)
    ensures var sp := |pre| + 1;
      && (a[sp] == 0 <==> c == []) && (c == [DOT] <==> a[sp] == DOT && a[sp + 1] == 0)
      && (c == [DOT, DOT] <==> a[sp] == DOT && a[sp + 1] == DOT && a[sp + 2] == 0)
  {
  }

  /** `dcanon` with symbolic links ignored, from a slash (or the end) at `start` behind components that are
      taken as they are: the buffer ends up with the canonical path, for every absolute path. */
  method Dcanon(a: array<int>, start: nat, ghost s: seq<int>, ghost stack: seq<Name>) returns (ghost r: seq<int>)
    requires Holds(a, |s|, s) && start <= |s| && s[..start] == Render(stack) && Solid(stack)
    requires (start < |s| ==> s[start] == SLASH) && (start == |s| ==> stack != [])
    modifies a
    ensures r == Final(stack, s[start..]) && Holds(a, |r|, r)
  {
    hide Final, Render;
    var p: nat := start;
    ghost var st, done := stack, false;
    r := s;
    while a[p] != 0
      invariant p < a.Length && Turned(a, p, r, st, done, Final(stack, s[start..]))
      decreases !done, if done then 0 else |r| - p
    {
      assert !done && p < |r|;
      p, r, st, done := Turn(a, p, r, st, Final(stack, s[start..]));
    }
    if !done {
      assert p == |r| && r[p..] == [] && r[..p] == r;
      FinalNothing(st);
    }
  }

  /** Whether some `..` finds nothing left of the components. */
  ghost predicate Climbs(stack: seq<Name>, parts: seq<Name>)
    decreases |parts|
  {
    parts != [] && ((parts[0] == [DOT, DOT] && stack == []) || Climbs(Apply(stack, parts[0]), parts[1..]))
  }

  lemma {:induction false} FoldBehind(x: Name, stack: seq<Name>, parts: seq<Name>)
    ensures Fold([x] + stack, parts) == (if Climbs(stack, parts) then [] else [x]) + Fold(stack, parts)
    decreases |parts|
  {
    if parts == [] {
    } else if parts[0] == [DOT, DOT] && stack == [] {
      assert ([x] + stack)[..0] == [];
    } else {
      assert Apply([x] + stack, parts[0]) == [x] + Apply(stack, parts[0]);
      FoldBehind(x, Apply(stack, parts[0]), parts[1..]);
    }
  }

  lemma {:induction false} RenderBehind(x: Name, stack: seq<Name>)
    ensures Render([x] + stack) == [SLASH] + x + Render(stack)
    decreases |stack|
  {
    var all := [x] + stack;
    if stack == [] {
      assert all[..0] == [];
    } else {
      assert all[..|all| - 1] == [x] + stack[..|stack| - 1];
      RenderBehind(x, stack[..|stack| - 1]);
    }
  }

  /** From the directory `/.`, which the program itself can produce, the dot stays in front of whatever follows, until a
      `..` climbs past it: then the result is as from the root. */
  lemma {:induction false} BehindRootDot(rest: seq<int>)
    ensures Final([[DOT]], rest) ==
      if Climbs([], Split(rest)) then Final([], rest) else [SLASH, DOT] + Render(Fold([], Split(rest)))
  {
    var parts := Split(rest);
    FoldBehind([DOT], [], parts);
    assert [[DOT]] + [] == [[DOT]] && [] + Fold([], parts) == Fold([], parts);
    if !Climbs([], parts) {
      RenderBehind([DOT], Fold([], parts));
      assert [SLASH] + [DOT] == [SLASH, DOT];
    }
  }

  /** The whole of an absolute path. */
  method Canonicalise(a: array<int>, ghost path: seq<int>) returns (ghost r: seq<int>)
    requires Holds(a, |path|, path) && path != [] && path[0] == SLASH
    modifies a
    ensures r == Final([], path) && Holds(a, |r|, r) && Final([], r) == r
    ensures Way(r) == Way(path) && Normal(Way(path)) && (Way(path) != [] ==> r == Render(Way(path)))
  {
    assert path[0..] == path && path[..0] == Render([]);
    r := Dcanon(a, 0, path, []);
    FinalIsNormalForm(path);
  }
}
