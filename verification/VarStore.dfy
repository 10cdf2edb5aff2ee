/** The variable and alias store: `adrof1`, `setq`, `unsetv1`, `madrof`, `unset1` and `plist`. */
module VarStore {
  import opened Words
  import opened VarTree
  import opened VarHeap
  import opened VarBalance

  ghost predicate Ascending(s: seq<Binding>)
  {
    forall i, j :: 0 <= i < j < |s| ==> Less(s[i].name, s[j].name)
  }

  ghost predicate AllBelow(s: seq<Binding>, name: Word)
  {
    forall i :: 0 <= i < |s| ==> Less(s[i].name, name)
  }

  ghost predicate AllAbove(s: seq<Binding>, name: Word)
  {
    forall i :: 0 <= i < |s| ==> Less(name, s[i].name)
  }

  /** No two bindings share a name. */
  lemma {:induction false} AscendingIsFunctional(s: seq<Binding>)
    requires Ascending(s)
    ensures forall b, c :: b in s && c in s && b.name == c.name ==> b == c
  {
  }

  /** The finite map that an ascending list of bindings stands for. */
  ghost function Denotation(s: seq<Binding>): map<Word, seq<Word>>
    requires Ascending(s)
  {
    AscendingIsFunctional(s);
    map b | b in s :: b.name := b.vec
  }

  /** Every binding of `m` is there once, in the order of the names. */
  ghost predicate Lists(s: seq<Binding>, m: map<Word, seq<Word>>)
  {
    && (forall i, j :: 0 <= i < j < |s| ==> Precedes(s[i].name, s[j].name))
    && (forall b :: b in s ==> b.name in m && m[b.name] == b.vec)
    && (forall n :: n in m ==> Binding(n, m[n]) in s)
  }

  lemma {:induction false} InOrderLists(s: seq<Binding>)
    requires Ascending(s)
    ensures Lists(s, Denotation(s))
  {
    hide Less, Precedes;
    AscendingIsFunctional(s);
    forall i, j | 0 <= i < j < |s| ensures Precedes(s[i].name, s[j].name) {
      LessIsPrecedes(s[i].name, s[j].name);
    }
    var m := Denotation(s);
    forall n | n in m ensures Binding(n, m[n]) in s {
      var b :| b in s && b.name == n && m[n] == b.vec;
      assert b == Binding(n, m[n]);
    }
  }

  /** The bindings on either side of the root of the subtree below `p`. */
  ghost function LeftOf(p: Path, t: Tree): seq<Binding>
    requires t.Node?
  {
    Before(p) + InOrder(t.left)
  }

  ghost function RightOf(p: Path, t: Tree): seq<Binding>
    requires t.Node?
  {
    InOrder(t.right) + After(p)
  }

  lemma {:induction false} Around(p: Path, t: Tree)
    requires t.Node?
    ensures InOrder(Plug(p, t)) == LeftOf(p, t) + [t.b] + RightOf(p, t)
  {
    InOrderPlug(p, t);
  }

  /** The name searched for, if present at all, is below the current link. */
  ghost predicate Narrowed(p: Path, name: Word)
  {
    AllBelow(Before(p), name) && AllAbove(After(p), name)
  }

  lemma {:induction false} Narrow(p: Path, t: Tree, name: Word)
    requires t.Node? && Ascending(InOrder(Plug(p, t))) && Narrowed(p, name)
    ensures Less(name, t.b.name) ==> Narrowed(Down(p, t, false), name)
    ensures Less(t.b.name, name) ==> Narrowed(Down(p, t, true), name)
  {
    hide Less, Ascending;
    InOrderPlug(p, t);
    Sides(Before(p), InOrder(t.left), t.b, InOrder(t.right), After(p), name);
  }

  lemma {:induction false} Sides(u: seq<Binding>, l: seq<Binding>, b: Binding, r: seq<Binding>, v: seq<Binding>,
                                 name: Word)
    requires Ascending(u + (l + [b] + r) + v)
    ensures Less(name, b.name) ==> AllAbove(r, name)
    ensures Less(b.name, name) ==> AllBelow(l, name)
  {
    hide Less;
    var s, k := u + (l + [b] + r) + v, |u| + |l|;
    assert s[k] == b;
    if Less(name, b.name) {
      forall i | 0 <= i < |r| ensures Less(name, r[i].name) {
        assert r[i] == s[k + 1 + i];
        CmpTransitive(name, b.name, r[i].name);
      }
    }
    if Less(b.name, name) {
      forall i | 0 <= i < |l| ensures Less(l[i].name, name) {
        assert l[i] == s[|u| + i];
        CmpTransitive(l[i].name, b.name, name);
      }
    }
  }

  /** A search that runs off the tree has excluded every binding. */
  lemma {:induction false} NotBelow(p: Path, name: Word)
    requires Narrowed(p, name)
    ensures forall b :: b in InOrder(Plug(p, Nil)) ==> b.name != name
  {
    InOrderPlug(p, Nil);
    CmpZeroIffEqual(name, name);
  }

  /** A new binding where the search ran off the tree keeps the order. */
  lemma {:induction false} InsertAscending(x: seq<Binding>, b: Binding, y: seq<Binding>)
    requires Ascending(x + y) && AllBelow(x, b.name) && AllAbove(y, b.name)
    ensures Ascending(x + [b] + y) && Denotation(x + [b] + y) == Denotation(x + y)[b.name := b.vec]
  {
    hide Less;
    var s, u := x + y, x + [b] + y;
    forall i, j | 0 <= i < j < |u| ensures Less(u[i].name, u[j].name) {
      var ii, jj := if i < |x| then i else i - 1, if j < |x| then j else j - 1;
      if i != |x| && j != |x| {
        assert u[i] == s[ii] && u[j] == s[jj];
      }
    }
    assert forall c :: c in u <==> c in s || c == b;
    AscendingIsFunctional(u);
    NameAbsent(x, b.name, y);
  }

  lemma {:induction false} NameAbsent(x: seq<Binding>, name: Word, y: seq<Binding>)
    requires AllBelow(x, name) && AllAbove(y, name)
    ensures forall c :: c in x + y ==> c.name != name
  {
    CmpZeroIffEqual(name, name);
  }

  /** Taking one binding out keeps the order and removes exactly its name. */
  lemma {:induction false} RemoveAscending(x: seq<Binding>, b: Binding, y: seq<Binding>)
    requires Ascending(x + [b] + y)
    ensures Ascending(x + y) && Denotation(x + y) == Denotation(x + [b] + y) - {b.name}
  {
    hide Less;
    var s, u := x + y, x + [b] + y;
    assert u[|x|] == b;
    forall i, j | 0 <= i < j < |s| ensures Less(s[i].name, s[j].name) {
      var ii, jj := if i < |x| then i else i + 1, if j < |x| then j else j + 1;
      assert s[i] == u[ii] && s[j] == u[jj];
    }
    assert AllBelow(x, b.name) by {
      forall i | 0 <= i < |x| ensures Less(x[i].name, b.name) { assert x[i] == u[i]; }
    }
    assert AllAbove(y, b.name) by {
      forall i | 0 <= i < |y| ensures Less(b.name, y[i].name) { assert y[i] == u[|x| + 1 + i]; }
    }
    InsertAscending(x, b, y);
    NameAbsent(x, b.name, y);
  }

  /** Changing the value of one binding keeps the order and updates exactly its name. */
  lemma {:induction false} UpdateAscending(x: seq<Binding>, b: Binding, y: seq<Binding>, vec: seq<Word>)
    requires Ascending(x + [b] + y)
    ensures var c := Binding(b.name, vec);
      Ascending(x + [c] + y) && Denotation(x + [c] + y) == Denotation(x + [b] + y)[b.name := vec]
  {
    hide Less;
    var c := Binding(b.name, vec);
    var u, w := x + [b] + y, x + [c] + y;
    assert forall i :: 0 <= i < |u| ==> u[i].name == w[i].name;
    assert u[|x|] == b && w[|x|] == c;
    RemoveAscending(x, b, y);
    RemoveAscending(x, c, y);
    assert forall d :: d in w <==> d in x + y || d == c;
    assert forall d :: d in u <==> d in x + y || d == b;
  }

  ghost function Rebound(t: Tree, b: Binding): Tree
    requires t.Node?
  {
    Node(t.left, t.at, b, t.bal, t.right)
  }

  lemma {:induction false} ReboundAvl(p: Path, t: Tree, b: Binding)
    requires t.Node? && Avl(Plug(p, t))
    ensures Avl(Plug(p, Rebound(t, b))) && Nodes(Plug(p, Rebound(t, b))) == Nodes(Plug(p, t))
  {
    AvlPlug(p, t);
    AvlPlug(p, Rebound(t, b));
    NodesPlug(p, t);
    NodesPlug(p, Rebound(t, b));
  }

  /** The cell at the end of the right spine: what the search for a predecessor ends at. */
  ghost function Last(t: Tree): Tree
    requires t.Node?
    ensures Last(t).Node? && Last(t).right == Nil
  {
    if t.right.Node? then Last(t.right) else t
  }

  ghost function Spine(base: Path, t: Tree): Path
    requires t.Node?
    decreases t
  {
    if t.right.Node? then Spine(Down(base, t, true), t.right) else base
  }

  lemma {:induction false} SpineZipped(base: Path, t: Tree, header: Varent)
    requires t.Node? && Zipped(base, t, header, t.at)
    ensures Zipped(Spine(base, t), Last(t), header, Last(t).at)
    ensures Plug(Spine(base, t), Last(t)) == Plug(base, t)
    decreases t
  {
    if t.right.Node? {
      ZipDown(base, t, header, true);
      SpineZipped(Down(base, t, true), t.right, header);
    }
  }

  lemma {:induction false} SpineContents(base: Path, t: Tree)
    requires t.Node?
    ensures Before(Spine(base, t)) + InOrder(Last(t)) == Before(base) + InOrder(t)
    ensures After(Spine(base, t)) == After(base)
    decreases t
  {
    if t.right.Node? {
      SpineContents(Down(base, t, true), t.right);
    }
  }

  /** Storing a new value keeps balance, order and cells, and updates one name. */
  lemma {:induction false} UpdatedAt(p: Path, t: Tree, vec: seq<Word>)
    requires t.Node? && Avl(Plug(p, t)) && Ascending(InOrder(Plug(p, t)))
    ensures var u := Plug(p, Rebound(t, Binding(t.b.name, vec)));
      && Avl(u) && Nodes(u) == Nodes(Plug(p, t)) && Ascending(InOrder(u))
      && Denotation(InOrder(u)) == Denotation(InOrder(Plug(p, t)))[t.b.name := vec]
  {
    hide Plug, Denotation, Ascending, Avl;
    var b := Binding(t.b.name, vec);
    Around(p, t);
    Around(p, Rebound(t, b));
    ReboundAvl(p, t, b);
    UpdateAscending(LeftOf(p, t), t.b, RightOf(p, t), vec);
  }

  method StoreVec(c: Varent, vec: seq<Word>, ghost header: Varent, ghost p: Path, ghost t: Tree)
    requires t.Node? && Zipped(p, t, header, c)
    modifies Nodes(t)
    ensures Zipped(p, Rebound(t, Binding(t.b.name, vec)), header, c)
  {
    c.vec := vec;
    assert Linked(Rebound(t, Binding(t.b.name, vec)), c, Owner(p, header));
  }

  ghost function Single(c: Varent, name: Word, vec: seq<Word>): Tree
  {
    Node(Nil, c, Binding(name, vec), 0, Nil)
  }

  /** A new cell where the search for `name` ended keeps the order, adds one name and leaves the hole pending. */
  lemma {:induction false} InsertedAt(p: Path, name: Word, vec: seq<Word>, c: Varent)
    requires Narrowed(p, name) && Avl(Plug(p, Nil)) && Ascending(InOrder(Plug(p, Nil)))
    ensures var u := Plug(p, Single(c, name, vec));
      && Ascending(InOrder(u)) && Denotation(InOrder(u)) == Denotation(InOrder(Plug(p, Nil)))[name := vec]
      && Pending(p, Single(c, name, vec), 0, false) && Nodes(u) == Nodes(Plug(p, Nil)) + {c}
  {
    hide Plug, Denotation, Ascending, PathAvl, Before, After, PathNodes, AllBelow, AllAbove;
    AvlPlug(p, Nil);
    NodesPlug(p, Nil);
    NodesPlug(p, Single(c, name, vec));
    InOrderPlug(p, Nil);
    InOrderPlug(p, Single(c, name, vec));
    assert InOrder(Plug(p, Nil)) == Before(p) + After(p);
    assert InOrder(Single(c, name, vec)) == [Binding(name, vec)];
    InsertAscending(Before(p), Binding(name, vec), After(p));
  }

  /** Allocate the cell and store it in the link the search ended at. */
  method HangCell(pp: Varent, f: bool, name: Word, vec: seq<Word>, header: Varent, ghost p: Path) returns (c: Varent)
    requires Zipped(p, Nil, header, null) && pp == Owner(p, header) && f == (p.Step? && p.toRight)
    modifies pp
    ensures fresh(c) && Zipped(p, Single(c, name, vec), header, c)
  {
    assert allocated(PathNodes(p));
    c := new Varent(name, vec, pp);
    Attach(pp, f, c, header, p, null);
  }

  /** What a link holds tells whether the subtree is empty and what its root contains. */
  lemma {:induction false} Root(p: Path, t: Tree, header: Varent, ref: Varent?)
    requires Zipped(p, t, header, ref)
    ensures ref == null <==> t == Nil
    ensures t.Node? ==> ref == t.at && ref.name == t.b.name && ref.vec == t.b.vec
  {
  }

  /** The only child of a cell that lacks one. */
  ghost function OnlyChild(s: Tree): Tree
    requires s.Node? && (s.left == Nil || s.right == Nil)
  {
    if s.right == Nil then s.left else s.right
  }

  /** Taking out a cell with at most one child leaves its hole pending and drops exactly its binding. */
  lemma {:induction false} ExcisedAt(q: Path, s: Tree)
    requires s.Node? && (s.left == Nil || s.right == Nil) && Avl(Plug(q, s))
    ensures Pending(q, OnlyChild(s), Height(s), true)
    ensures InOrder(Plug(q, OnlyChild(s))) == LeftOf(q, s) + RightOf(q, s)
    ensures Nodes(Plug(q, OnlyChild(s))) == PathNodes(q) + Nodes(OnlyChild(s))
  {
    hide Plug;
    AvlPlug(q, s);
    InOrderPlug(q, OnlyChild(s));
    NodesPlug(q, OnlyChild(s));
  }

  /** `Move c into where p is`. */
  method Splice(v: Varent, c: Varent?, header: Varent, ghost q: Path, ghost s: Tree) returns (pp: Varent, f: bool)
    requires s.Node? && (s.left == Nil || s.right == Nil) && Zipped(q, s, header, v)
    requires c == if v.right == null then v.left else v.right
    modifies header, PathNodes(q), Nodes(s)
    ensures pp == Owner(q, header) && f == (q.Step? && q.toRight)
    ensures Zipped(q, OnlyChild(s), header, c)
  {
    hide LinkedPath;
    ghost var u := OnlyChild(s);
    assert Linked(s.left, v.left, v) && Linked(s.right, v.right, v);
    assert Linked(u, c, v);
    pp := v.parent;
    SideOfParent(q, header, v);
    f := pp.right == v;
    assert allocated(Nodes(u)) && Nodes(u) <= Nodes(s) && pp !in Nodes(s);
    Attach(pp, f, c, header, q, v);
    assert Linked(u, c, v);
    assert allocated(PathNodes(q));
    if c != null {
      c.parent := pp;
    }
    assert LinkedPath(q, header, c);
  }

  /** Unlink a cell with at most one child and rebalance from its parent. */
  method Excise(v: Varent, c: Varent?, header: Varent, ghost q: Path, ghost s: Tree) returns (ghost whole: Tree)
    requires s.Node? && (s.left == Nil || s.right == Nil) && Zipped(q, s, header, v) && Avl(Plug(q, s))
    requires c == if v.right == null then v.left else v.right
    modifies header, PathNodes(q), Nodes(s)
    ensures Zipped(Top, whole, header, header.left) && Avl(whole)
    ensures InOrder(whole) == LeftOf(q, s) + RightOf(q, s) && Nodes(whole) == PathNodes(q) + Nodes(OnlyChild(s))
  {
    hide Linked, LinkedPath, Avl, InOrder, Plug, Pending;
    ExcisedAt(q, s);
    var pp, f := Splice(v, c, header, q, s);
    whole := Balance(pp, f, true, header, q, OnlyChild(s), c, Height(s));
  }

  /** The search for the predecessor of a cell with two children. */
  method Predecessor(v: Varent, ghost s: Tree, ghost par: Varent?) returns (c: Varent)
    requires s.Node? && s.left.Node? && Linked(s, v, par)
    ensures c == Last(s.left).at && c.name == Last(s.left).b.name && c.vec == Last(s.left).b.vec
  {
    c := v.left;
    ghost var cur, above := s.left, v;
    while c.right != null
      invariant cur.Node? && Linked(cur, c, above) && Last(cur) == Last(s.left)
      decreases cur
    {
      cur, above := cur.right, c;
      c := c.right;
    }
  }

  /** The path to the left subtree of a cell whose binding has been replaced by its predecessor's. */
  ghost function Copied(q: Path, s: Tree): Path
    requires s.Node? && s.left.Node?
  {
    Step(false, s.at, Last(s.left).b, s.bal, s.right, q)
  }

  method CopyBinding(v: Varent, c: Varent, ghost header: Varent, ghost q: Path, ghost s: Tree)
    requires s.Node? && s.left.Node? && Zipped(q, s, header, v)
    requires c.name == Last(s.left).b.name && c.vec == Last(s.left).b.vec
    modifies v
    ensures Zipped(Copied(q, s), s.left, header, s.left.at)
  {
    v.name := c.name;
    v.vec := c.vec;
    assert LinkedPath(q, header, v);
    assert Linked(s.left, v.left, v) && Linked(s.right, v.right, v);
  }

  /** Copying the predecessor up and excising its cell drops exactly the binding that was overwritten. */
  lemma {:induction false} CopiedAt(q: Path, s: Tree, header: Varent)
    requires s.Node? && s.left.Node? && Avl(Plug(q, s)) && Zipped(Copied(q, s), s.left, header, s.left.at)
    ensures var w, e := Spine(Copied(q, s), s.left), Last(s.left);
      && Zipped(w, e, header, e.at) && Avl(Plug(w, e))
      && PathNodes(w) + Nodes(e) == Nodes(Plug(q, s))
      && LeftOf(w, e) + RightOf(w, e) == LeftOf(q, s) + RightOf(q, s)
  {
    hide Zipped, Avl, Plug, Spine, Last, Nodes, PathNodes, InOrder, LeftOf, RightOf;
    var base := Copied(q, s);
    SpineZipped(base, s.left, header);
    CopiedTree(q, s);
    CopiedContents(q, s);
  }

  /** The tree with the predecessor's binding copied up. */
  lemma {:induction false} CopiedTree(q: Path, s: Tree)
    requires s.Node? && s.left.Node? && Avl(Plug(q, s))
    requires Plug(Spine(Copied(q, s), s.left), Last(s.left)) == Plug(Copied(q, s), s.left)
    ensures var w, e := Spine(Copied(q, s), s.left), Last(s.left);
      Avl(Plug(w, e)) && PathNodes(w) + Nodes(e) == Nodes(Plug(q, s))
  {
    hide Avl, Spine, Last, InOrder;
    var w, e := Spine(Copied(q, s), s.left), Last(s.left);
    assert Plug(w, e) == Plug(q, Rebound(s, e.b));
    ReboundAvl(q, s, e.b);
    NodesPlug(w, e);
  }

  lemma {:induction false} CopiedContents(q: Path, s: Tree)
    requires s.Node? && s.left.Node?
    ensures var w, e := Spine(Copied(q, s), s.left), Last(s.left);
      LeftOf(w, e) + RightOf(w, e) == LeftOf(q, s) + RightOf(q, s)
  {
    hide Spine, InOrder;
    var w, e := Spine(Copied(q, s), s.left), Last(s.left);
    SpineContents(Copied(q, s), s.left);
    SameNeighbours(q, s, w, e);
  }

  lemma {:induction false} SameNeighbours(q: Path, s: Tree, w: Path, e: Tree)
    requires s.Node? && e.Node? && e.right == Nil
    requires Before(w) + InOrder(e) == Before(q) + InOrder(s.left)
    requires After(w) == [e.b] + InOrder(s.right) + After(q)
    ensures LeftOf(w, e) + RightOf(w, e) == LeftOf(q, s) + RightOf(q, s)
  {
  }

  /** The two-children case of `unsetv1`. */
  method ExcisePredecessor(v: Varent, header: Varent, ghost q: Path, ghost s: Tree) returns (ghost whole: Tree)
    requires s.Node? && s.left.Node? && Zipped(q, s, header, v) && Avl(Plug(q, s))
    modifies header, PathNodes(q), Nodes(s)
    ensures Zipped(Top, whole, header, header.left) && Avl(whole)
    ensures InOrder(whole) == LeftOf(q, s) + RightOf(q, s) && Nodes(whole) < PathNodes(q) + Nodes(s)
  {
    hide Linked, LinkedPath, Avl, InOrder, Plug, Spine, Last, LeftOf, RightOf;
    NodesPlug(q, s);
    assert allocated(PathNodes(q)) && allocated(Nodes(s));
    var c := Predecessor(v, s, Owner(q, header));
    assert Zipped(q, s, header, v);
    Root(q, s, header, v);
    CopyBinding(v, c, header, q, s);
    CopiedAt(q, s, header);
    ghost var w, e := Spine(Copied(q, s), s.left), Last(s.left);
    Children(w, e, header);
    whole := Excise(c, c.left, header, w, e);
    assert c in PathNodes(q) + Nodes(s) && c !in Nodes(whole);
  }

  datatype Found = Nowhere | First(name: Word)

  /** The first binding, in name order, whose name a pattern accepts. */
  ghost function FirstMatch(s: seq<Binding>, matches: Word -> bool): Found
  {
    if s == [] then Nowhere else if matches(s[0].name) then First(s[0].name) else FirstMatch(s[1..], matches)
  }

  lemma {:induction false} FirstMatchConcat(a: seq<Binding>, b: seq<Binding>, matches: Word -> bool)
    ensures FirstMatch(a + b, matches) ==
      if FirstMatch(a, matches).First? then FirstMatch(a, matches) else FirstMatch(b, matches)
  {
    if a == [] {
      assert a + b == b;
    } else {
      assert (a + b)[1..] == a[1..] + b;
      FirstMatchConcat(a[1..], b, matches);
    }
  }

  lemma {:induction false} FirstMatchNode(t: Tree, matches: Word -> bool)
    requires t.Node?
    ensures FirstMatch(InOrder(t), matches) ==
            var l := FirstMatch(InOrder(t.left), matches);
            if l.First? then l else if matches(t.b.name) then First(t.b.name) else FirstMatch(InOrder(t.right), matches)
  {
    var r := InOrder(t.right);
    assert InOrder(t) == InOrder(t.left) + ([t.b] + r);
    assert ([t.b] + r)[1..] == r;
    FirstMatchConcat(InOrder(t.left), [t.b] + r, matches);
  }

  lemma {:induction false} FirstMatchMeaning(s: seq<Binding>, matches: Word -> bool)
    ensures match FirstMatch(s, matches)
      case Nowhere => forall b :: b in s ==> !matches(b.name)
      case First(name) => matches(name)
  {
    if s != [] && !matches(s[0].name) {
      FirstMatchMeaning(s[1..], matches);
      assert forall b :: b in s ==> b == s[0] || b in s[1..];
    }
  }

  /** `madrof`: the first match in name order, found by recursion to the left and iteration to the right. */
  method Madrof(matches: Word -> bool, vp: Varent?, ghost t: Tree, ghost par: Varent?) returns (r: Varent?)
    requires Linked(t, vp, par)
    ensures match FirstMatch(InOrder(t), matches)
      case Nowhere => r == null
      case First(name) => r != null && r in Nodes(t) && r.name == name
    decreases t
  {
    hide FirstMatch, InOrder;
    assert FirstMatch(InOrder(Nil), matches) == Nowhere by { FirstMatchNil(matches); }
    r := vp;
    ghost var cur, above := t, par;
    while r != null
      invariant Linked(cur, r, above) && Nodes(cur) <= Nodes(t)
      invariant FirstMatch(InOrder(cur), matches) == FirstMatch(InOrder(t), matches)
      decreases cur
    {
      FirstMatchNode(cur, matches);
      if r.left != null {
        assert allocated(Nodes(cur));
        var vp1 := Madrof(matches, r.left, cur.left, r);
        assert Linked(cur, r, above);
        if vp1 != null {
          return vp1;
        }
      }
      if matches(r.name) {
        return;
      }
      cur, above := cur.right, r;
      r := r.right;
    }
  }

  lemma FirstMatchNil(matches: Word -> bool)
    ensures FirstMatch(InOrder(Nil), matches) == Nowhere
  {
  }

  /** The bindings whose names none of the patterns accepts. */
  ghost function Surviving(m: map<Word, seq<Word>>, patterns: seq<Word -> bool>): map<Word, seq<Word>>
  {
    map n | n in m && (forall k :: 0 <= k < |patterns| ==> !patterns[k](n)) :: m[n]
  }

  lemma {:induction false} SurvivingStep(m: map<Word, seq<Word>>, patterns: seq<Word -> bool>, k: nat)
    requires k < |patterns|
    ensures Surviving(m, patterns[..k + 1]) == Surviving(Surviving(m, patterns[..k]), [patterns[k]])
  {
    var a, b := Surviving(m, patterns[..k + 1]), Surviving(Surviving(m, patterns[..k]), [patterns[k]]);
    assert patterns[..k + 1] == patterns[..k] + [patterns[k]];
    forall n ensures n in a <==> n in b {
      if n in b { assert ![patterns[k]][0](n); }
    }
  }

  /** `m` is what is left of `m0` after some matching names have gone. */
  ghost predicate Thinned(m0: map<Word, seq<Word>>, m: map<Word, seq<Word>>, matches: Word -> bool)
  {
    && (forall n :: n in m ==> n in m0 && m[n] == m0[n])
    && (forall n :: n in m0 && !matches(n) ==> n in m)
  }

  lemma {:induction false} ThinnedStart(m0: map<Word, seq<Word>>, matches: Word -> bool)
    ensures Thinned(m0, m0, matches)
  {
  }

  lemma {:induction false} ThinnedStep(m0: map<Word, seq<Word>>, m: map<Word, seq<Word>>, matches: Word -> bool,
                                       name: Word)
    requires Thinned(m0, m, matches) && matches(name)
    ensures Thinned(m0, m - {name}, matches)
  {
  }

  lemma {:induction false} ThinnedDone(m0: map<Word, seq<Word>>, m: map<Word, seq<Word>>, matches: Word -> bool)
    requires Thinned(m0, m, matches) && forall n :: n in m ==> !matches(n)
    ensures m == Surviving(m0, [matches])
  {
    var s := Surviving(m0, [matches]);
    forall n ensures n in m <==> n in s {
      if n in s { assert ![matches][0](n); }
    }
  }

  /** The walk stands at the owner of the hole of `q`, which is its left link; `t` is what hangs there. */
  ghost predicate AtLeft(q: Path, t: Tree, header: Varent, p: Varent)
    reads PathNodes(q), Nodes(t), header, p
  {
    Zipped(q, t, header, p.left) && p == Owner(q, header) && (q.Step? ==> !q.toRight)
  }

  lemma {:induction false} WalkLeft(q: Path, t: Tree, header: Varent, p: Varent)
    requires AtLeft(q, t, header, p)
    ensures p.left == null <==> t == Nil
    ensures t.Node? ==>
      AtLeft(Down(q, t, false), t.left, header, p.left) && Plug(Down(q, t, false), t.left) == Plug(q, t)
    ensures t.Node? ==> Before(Down(q, t, false)) == Before(q)
    ensures p.parent == null <==> q.Top?
  {
    if t.Node? { ZipDown(q, t, header, false); }
  }

  /** Having printed the cell, the walk goes to the leftmost cell's side of its right child. */
  lemma {:induction false} WalkRight(q: Path, t: Tree, header: Varent, p: Varent)
    requires AtLeft(q, t, header, p) && q.Step?
    ensures p.name == q.b.name && p.vec == q.b.vec && p.parent == Owner(q.up, header)
    ensures p.right == null <==> q.other == Nil
    ensures var s := Hang(q, t);
      && Zipped(q.up, s, header, p) && Plug(q.up, s) == Plug(q, t) && p !in PathNodes(q.up)
      && (q.other == Nil ==> Before(q.up) + InOrder(s) == Before(q) + InOrder(t) + [q.b])
      && (q.other.Node? ==>
            var r := Down(Down(q.up, s, true), q.other, false);
            && AtLeft(r, q.other.left, header, p.right) && Plug(r, q.other.left) == Plug(q, t)
            && Before(r) == Before(q) + InOrder(t) + [q.b])
  {
    var s := Hang(q, t);
    ZipUp(q, t, header, p.left);
    if q.other.Node? {
      ZipDown(q.up, s, header, true);
      ZipDown(Down(q.up, s, true), q.other, header, false);
    }
  }

  /** What has been printed falls short of the whole by at least the cell that comes next. */
  lemma {:induction false} Remaining(q: Path, t: Tree)
    requires q.Step? && !q.toRight
    ensures |Before(q) + InOrder(t)| < |InOrder(Plug(q, t))|
  {
    InOrderPlug(q, t);
  }

  lemma {:induction false} Finished(q: Path)
    ensures Before(q) + InOrder(Nil) == Before(q) && |Before(q)| <= |InOrder(Plug(q, Nil))|
  {
    InOrderPlug(q, Nil);
  }

  /** Climbing out of a finished right subtree. */
  lemma {:induction false} WalkUp(q: Path, t: Tree, header: Varent, c: Varent)
    requires Zipped(q, t, header, c)
    ensures (Owner(q, header).right == c) == (q.Step? && q.toRight)
    ensures q.Step? && q.toRight ==>
      && Zipped(q.up, Hang(q, t), header, q.at) && Plug(q.up, Hang(q, t)) == Plug(q, t)
      && q.at.parent == Owner(q.up, header) && Before(q.up) + InOrder(Hang(q, t)) == Before(q) + InOrder(t)
    ensures !(q.Step? && q.toRight) ==> AtLeft(q, t, header, Owner(q, header))
  {
  }

  class Store {
    const header: Varent
    ghost var tree: Tree

    /** A search tree, balanced, with exact parent links, hanging off the header. */
    ghost predicate Valid()
      reads this, header, Nodes(tree)
    {
      Zipped(Top, tree, header, header.left) && Avl(tree) && Ascending(InOrder(tree))
    }

    ghost function Bindings(): map<Word, seq<Word>>
      requires Valid()
      reads this, header, Nodes(tree)
    {
      Denotation(InOrder(tree))
    }

    constructor ()
      ensures Valid() && fresh(header) && fresh(Nodes(tree)) && Bindings() == map[]
    {
      header := new Varent([], [], null);
      tree := Nil;
    }

    /** `adrof1`. */
    method Adrof1(name: Word) returns (v: Varent?)
      requires Valid()
      ensures Valid()
      ensures v == null <==> name !in Bindings()
      ensures v != null ==> v in Nodes(tree) && v.name == name && v.vec == Bindings()[name]
    {
      hide Linked, LinkedPath, NameCmp, Avl, InOrder;
      ghost var p, t := Top, tree;
      v := header.left;
      while v != null
        invariant Valid() && Zipped(p, t, header, v) && Plug(p, t) == tree && Narrowed(p, name)
        decreases t
      {
        Root(p, t, header, v);
        assert allocated(PathNodes(p)) && allocated(Nodes(t)) && allocated(Nodes(tree));
        var cmp := CompareNames(name, v.name);
        Narrow(p, t, name);
        CmpZeroIffEqual(name, v.name);
        CmpAntisymmetric(v.name, name);
        if cmp == 0 {
          Present(p, t);
          return;
        }
        ZipDown(p, t, header, cmp > 0);
        p, t := Down(p, t, cmp > 0), if cmp > 0 then t.right else t.left;
        if cmp < 0 {
          v := v.left;
        } else {
          v := v.right;
        }
      }
      Root(p, t, header, v);
      NotBelow(p, name);
    }

    /** The store after the subtree `t` below `p` has been rebalanced away. */
    ghost predicate Located(p: Path, t: Tree, ref: Varent?)
      reads this, header, Nodes(tree), PathNodes(p), Nodes(t)
    {
      Valid() && Zipped(p, t, header, ref) && Plug(p, t) == tree && PathNodes(p) + Nodes(t) == Nodes(tree)
    }

    /** `c->vec = vec` on a binding that exists. */
    method Overwrite(c: Varent, vec: seq<Word>, ghost p: Path, ghost t: Tree)
      requires t.Node? && Located(p, t, c)
      modifies this, Nodes(tree)
      ensures Valid() && Nodes(tree) == old(Nodes(tree))
      ensures Bindings() == old(Bindings())[t.b.name := vec]
    {
      hide Linked, Avl, Ascending, Denotation, InOrder, Plug;
      ghost var t' := Rebound(t, Binding(t.b.name, vec));
      UpdatedAt(p, t, vec);
      StoreVec(c, vec, header, p, t);
      ZipTop(p, t', header, c);
      tree := Plug(p, t');
    }

    /** The tail of `setq` for a name that was not there: hang a new cell and rebalance. */
    method InsertCell(pp: Varent, f: bool, name: Word, vec: seq<Word>, ghost p: Path) returns (c: Varent)
      requires Located(p, Nil, null) && pp == Owner(p, header) && f == (p.Step? && p.toRight)
      requires Narrowed(p, name)
      modifies this, header, Nodes(tree)
      ensures Valid() && fresh(c) && Nodes(tree) == old(Nodes(tree)) + {c}
      ensures Bindings() == old(Bindings())[name := vec]
    {
      hide Linked, Avl, Ascending, Denotation, InOrder, Plug, Pending;
      c := HangCell(pp, f, name, vec, header, p);
      InsertedAt(p, name, vec, c);
      ghost var whole := Balance(pp, f, false, header, p, Single(c, name, vec), c, 0);
      tree := whole;
    }

    /** `setq`. */
    method Setq(name: Word, vec: seq<Word>)
      requires Valid()
      modifies this, header, Nodes(tree)
      ensures Valid() && forall v :: v in Nodes(tree) ==> v in old(Nodes(tree)) || fresh(v)
      ensures Bindings() == old(Bindings())[name := TrimAll(vec)] && AllTrimmed(vec, Bindings()[name])
    {
      hide Linked, LinkedPath, NameCmp, Avl, Ascending, Denotation, InOrder, Trimmed;
      var pp, f, c := header, false, header.left;
      ghost var p, t := Top, tree;
      while c != null
        invariant Located(p, t, c) && Narrowed(p, name)
        invariant pp == Owner(p, header) && f == (p.Step? && p.toRight)
        invariant tree == old(tree)
        decreases t
      {
        assert allocated(PathNodes(p)) && allocated(Nodes(t)) && allocated(Nodes(tree));
        var cmp := CompareNames(name, c.name);
        Root(p, t, header, c);
        Narrow(p, t, name);
        CmpZeroIffEqual(name, c.name);
        CmpAntisymmetric(c.name, name);
        if cmp == 0 {
          Overwrite(c, TrimAll(vec), p, t);
          return;
        }
        ZipDown(p, t, header, cmp > 0);
        p, t := Down(p, t, cmp > 0), if cmp > 0 then t.right else t.left;
        pp, f := c, cmp > 0;
        c := if f then c.right else c.left;
      }
      Root(p, t, header, c);
      c := InsertCell(pp, f, name, TrimAll(vec), p);
    }

    /** `unsetv1`. */
    method Unsetv1(v: Varent)
      requires Valid() && v in Nodes(tree)
      modifies this, header, Nodes(tree)
      ensures Valid() && Nodes(tree) < old(Nodes(tree))
      ensures Bindings() == old(Bindings()) - {old(v.name)} && old(v.name) in old(Bindings())
    {
      hide Linked, LinkedPath, Avl, Ascending, Denotation, InOrder, LeftOf, RightOf;
      ghost var q, s := Locate(Top, tree, header, header.left, v);
      Dropped(q, s);
      Children(q, s, header);
      ghost var whole;
      if v.right == null {
        whole := Excise(v, v.left, header, q, s);
      } else if v.left == null {
        whole := Excise(v, v.right, header, q, s);
      } else {
        whole := ExcisePredecessor(v, header, q, s);
      }
      tree := whole;
    }

    /** One pattern of `unset1`: removes exactly the names the pattern accepts. */
    method UnsetMatching(matches: Word -> bool)
      requires Valid()
      modifies this, header, Nodes(tree)
      ensures Valid() && Nodes(tree) <= old(Nodes(tree))
      ensures Bindings() == Surviving(old(Bindings()), [matches])
    {
      hide Linked, LinkedPath, Avl, Ascending, InOrder, FirstMatch, Thinned;
      ghost var m0 := Bindings();
      ThinnedStart(m0, matches);
      while true
        invariant Valid() && Nodes(tree) <= old(Nodes(tree)) && Thinned(m0, Bindings(), matches)
        decreases Nodes(tree)
      {
        FirstMatchMeaning(InOrder(tree), matches);
        assert allocated(Nodes(tree));
        var vp := Madrof(matches, header.left, tree, header);
        if vp == null {
          ThinnedDone(m0, Bindings(), matches);
          break;
        }
        ThinnedStep(m0, Bindings(), matches, vp.name);
        Unsetv1(vp);
      }
    }

    /** `unset1` over the patterns that follow the command name. */
    method Unset1(patterns: seq<Word -> bool>)
      requires Valid()
      modifies this, header, Nodes(tree)
      ensures Valid() && Nodes(tree) <= old(Nodes(tree))
      ensures Bindings() == Surviving(old(Bindings()), patterns)
    {
      hide Zipped, Avl, Ascending, Denotation, InOrder;
      for k := 0 to |patterns|
        invariant Valid() && Nodes(tree) <= old(Nodes(tree))
        invariant Bindings() == Surviving(old(Bindings()), patterns[..k])
      {
        SurvivingStep(old(Bindings()), patterns, k);
        UnsetMatching(patterns[k]);
      }
      assert patterns[..|patterns|] == patterns;
    }

    /** `plist`: the walk over child and parent links prints every binding once, in name order. */
    method Plist() returns (out: seq<Binding>)
      requires Valid()
      ensures Valid() && out == InOrder(tree) && Ascending(out) && Lists(out, Bindings())
    {
      hide Zipped, Avl, Ascending, InOrder, Nodes, PathNodes, Lists;
      InOrderLists(InOrder(tree));
      out := [];
      var p: Varent := header;
      ghost var q, t := Top, tree;
      while true
        invariant Valid() && AtLeft(q, t, header, p) && Plug(q, t) == tree && out == Before(q)
        decreases |InOrder(tree)| - |out|
      {
        ghost var mark := |out|;
        while p.left != null
          invariant Valid() && AtLeft(q, t, header, p) && Plug(q, t) == tree && out == Before(q)
          invariant mark == |out|
          decreases t
        {
          WalkLeft(q, t, header, p);
          p, q, t := p.left, Down(q, t, false), t.left;
        }
        WalkLeft(q, t, header, p);
        Finished(q);
        var toRight := false;
        while !toRight
          invariant Valid() && AtLeft(q, t, header, p) && Plug(q, t) == tree
          invariant if toRight then out == Before(q) && mark < |out| else out == Before(q) + InOrder(t) && mark <= |out|
          invariant |out| <= |InOrder(tree)|
          decreases !toRight, |InOrder(tree)| - |out|
        {
          WalkLeft(q, t, header, p);
          if p.parent == null {
            return;
          }
          Remaining(q, t);
          WalkRight(q, t, header, p);
          out := out + [Binding(p.name, p.vec)];
          if p.right != null {
            p, q, t := p.right, Down(Down(q.up, Hang(q, t), true), q.other, false), q.other.left;
            toRight := true;
          } else {
            var c := p;
            p, q, t := p.parent, q.up, Hang(q, t);
            while p.right == c
              invariant Valid() && Zipped(q, t, header, c) && p == Owner(q, header) && Plug(q, t) == tree
              invariant out == Before(q) + InOrder(t)
              decreases q
            {
              WalkUp(q, t, header, c);
              c, p, q, t := p, p.parent, q.up, Hang(q, t);
            }
            WalkUp(q, t, header, c);
          }
        }
      }
    }
  }

  /** What a caller of the store can ask for: `set name = vec`, or `unset` of some patterns. */
  datatype Command = Assign(name: Word, vec: seq<Word>) | Unset(patterns: seq<Word -> bool>)

  ghost function Effect(m: map<Word, seq<Word>>, c: Command): map<Word, seq<Word>>
  {
    match c
    case Assign(name, vec) => m[name := TrimAll(vec)]
    case Unset(patterns) => Surviving(m, patterns)
  }

  ghost function History(m: map<Word, seq<Word>>, cs: seq<Command>): map<Word, seq<Word>>
  {
    if cs == [] then m else Effect(History(m, cs[..|cs| - 1]), cs[|cs| - 1])
  }

  datatype Answer = Undefined | Value(vec: seq<Word>)

  /** The answer dictated by the last command that concerns `name`. */
  ghost function LastWord(cs: seq<Command>, name: Word): Answer
  {
    if cs == [] then Undefined
    else
      match cs[|cs| - 1]
      case Assign(n, vec) => if n == name then Value(TrimAll(vec)) else LastWord(cs[..|cs| - 1], name)
      case Unset(patterns) =>
        if exists k :: 0 <= k < |patterns| && patterns[k](name) then Undefined else LastWord(cs[..|cs| - 1], name)
  }

  /** After any history on an empty store a name is bound exactly to what was last said about it. */
  lemma {:induction false} HistoryIsLastWord(cs: seq<Command>, name: Word)
    ensures LastWord(cs, name) ==
            if name in History(map[], cs) then Value(History(map[], cs)[name]) else Undefined
  {
    if cs != [] {
      HistoryIsLastWord(cs[..|cs| - 1], name);
    }
  }

  /** Whether the command sets or unsets `name`. */
  ghost predicate Concerns(c: Command, name: Word)
  {
    match c
    case Assign(n, _) => n == name
    case Unset(patterns) => exists k :: 0 <= k < |patterns| && patterns[k](name)
  }

  /** Command `k` is the last one about `name`. */
  ghost predicate LastAbout(cs: seq<Command>, name: Word, k: nat)
  {
    k < |cs| && Concerns(cs[k], name) && forall j :: k < j < |cs| ==> !Concerns(cs[j], name)
  }

  /** What is to be answered for `name`: the words of the last command about it, if that set it, without their quote
      bits, and nothing else. */
  ghost predicate Answers(cs: seq<Command>, name: Word, answer: Answer)
  {
    && (forall k :: 0 <= k < |cs| && LastAbout(cs, name, k) ==>
         if cs[k].Unset? then answer == Undefined
         else answer.Value? && AllTrimmed(cs[k].vec, answer.vec) && (Unmarked(cs[k].vec) ==> answer.vec == cs[k].vec))
    && ((forall k :: 0 <= k < |cs| ==> !Concerns(cs[k], name)) ==> answer == Undefined)
  }

  /** A command about something else changes no answer. */
  lemma {:induction false} AnswersCarry(cs: seq<Command>, name: Word, answer: Answer)
    requires cs != [] && !Concerns(cs[|cs| - 1], name) && Answers(cs[..|cs| - 1], name, answer)
    ensures Answers(cs, name, answer)
  {
    hide Concerns, AllTrimmed, Unmarked;
    var before := cs[..|cs| - 1];
    forall k | 0 <= k < |cs| && LastAbout(cs, name, k) ensures k < |before| && LastAbout(before, name, k) {
    }
    if forall k :: 0 <= k < |cs| ==> !Concerns(cs[k], name) {
      assert forall k :: 0 <= k < |before| ==> before[k] == cs[k];
    }
  }

  lemma {:induction false} LastWordAnswers(cs: seq<Command>, name: Word)
    ensures Answers(cs, name, LastWord(cs, name))
  {
    hide Trimmed, AllTrimmed, Unmarked;
    if cs != [] {
      var c := cs[|cs| - 1];
      if !Concerns(c, name) {
        LastWordAnswers(cs[..|cs| - 1], name);
        AnswersCarry(cs, name, LastWord(cs, name));
      } else if c.Assign? {
        TrimmedOnce(c.vec, TrimAll(c.vec));
      }
    }
  }

  /** Any history of commands run against a store that starts empty, followed by a lookup. */
  method Replay(cs: seq<Command>, name: Word) returns (answer: Answer)
    ensures answer == LastWord(cs, name) && Answers(cs, name, answer)
  {
    hide Answers;
    var store := new Store();
    for k := 0 to |cs|
      invariant store.Valid() && fresh(store) && fresh(store.header)
      invariant forall v :: v in Nodes(store.tree) ==> fresh(v)
      invariant store.Bindings() == History(map[], cs[..k])
    {
      hide Zipped, Avl, Ascending, Denotation;
      assert cs[..k + 1][..k] == cs[..k];
      match cs[k] {
        case Assign(n, vec) => store.Setq(n, vec);
        case Unset(patterns) => store.Unset1(patterns);
      }
    }
    assert cs[..|cs|] == cs;
    HistoryIsLastWord(cs, name);
    LastWordAnswers(cs, name);
    var v := store.Adrof1(name);
    answer := if v == null then Undefined else Value(v.vec);
  }

  lemma {:induction false} Dropped(q: Path, s: Tree)
    requires s.Node? && Ascending(InOrder(Plug(q, s)))
    ensures Ascending(LeftOf(q, s) + RightOf(q, s)) && s.b.name in Denotation(InOrder(Plug(q, s)))
    ensures Denotation(LeftOf(q, s) + RightOf(q, s)) == Denotation(InOrder(Plug(q, s))) - {s.b.name}
    ensures Nodes(Plug(q, s)) == PathNodes(q) + Nodes(s)
  {
    Present(q, s);
    Around(q, s);
    NodesPlug(q, s);
    RemoveAscending(LeftOf(q, s), s.b, RightOf(q, s));
  }

  lemma {:induction false} Children(q: Path, s: Tree, header: Varent)
    requires s.Node? && Zipped(q, s, header, s.at)
    ensures (s.at.left == null <==> s.left == Nil) && (s.at.right == null <==> s.right == Nil)
    ensures s.at.name == s.b.name
    ensures s.at !in PathNodes(q) && s.at !in Nodes(s.left) && s.at !in Nodes(s.right)
  {
    assert Linked(s.left, s.at.left, s.at) && Linked(s.right, s.at.right, s.at);
  }

  lemma {:induction false} Present(p: Path, t: Tree)
    requires t.Node?
    ensures t.b in InOrder(Plug(p, t)) && t.at in Nodes(Plug(p, t))
  {
    Around(p, t);
    NodesPlug(p, t);
    assert (LeftOf(p, t) + [t.b] + RightOf(p, t))[|LeftOf(p, t)|] == t.b;
  }
}
