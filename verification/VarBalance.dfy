/** `balance`: the rebalancing loop shared by insertion and deletion. */
module VarBalance {
  import opened VarTree
  import opened VarHeap

  /** New factors after a double rotation, from the factor the middle cell had. */
  method SpreadFactor(q: Varent, ghost s: Tree, ghost par: Varent?)
    requires s.Node? && s.left.Node? && s.right.Node? && Linked(s, q, par)
    modifies Nodes(s)
    ensures var l, r := s.left, s.right;
      Linked(Node(Node(l.left, l.at, l.b, if s.bal < 1 then 0 else -1, l.right), s.at, s.b, 0,
                  Node(r.left, r.at, r.b, if s.bal > -1 then 0 else 1, r.right)), q, par)
  {
    assert Linked(s.left, q.left, q) && Linked(s.right, q.right, q);
    q.left.bal := if q.bal < 1 then 0 else -1;
    q.right.bal := if q.bal > -1 then 0 else 1;
    q.bal := 0;
  }

  /** A single rotation: `rleft`, then new factors for the old and the new top cell. */
  method SingleLeft(p: Varent, pbal: int, qbal: int, ghost s: Tree, ghost par: Varent?) returns (q: Varent)
    requires s.Node? && s.right.Node? && Linked(s, p, par)
    modifies Nodes(s)
    ensures q == s.right.at
    ensures Linked(Node(Node(s.left, s.at, s.b, pbal, s.right.left), q, s.right.b, qbal, s.right.right), q, par)
  {
    q := RotateLeft(p, s, par);
    q.left.bal := pbal;
    q.bal := qbal;
  }

  /** The first half of a double rotation: the inner cell of the heavy child comes up. */
  method InnerLeft(p: Varent, ghost s: Tree, ghost par: Varent?)
    requires s.Node? && s.right.Node? && s.right.left.Node? && Linked(s, p, par)
    modifies Nodes(s)
    ensures Linked(Node(s.left, s.at, s.b, s.bal, TurnedRight(s.right)), p, par)
  {
    ghost var o, c := s.left, s.right;
    assert Linked(o, p.left, p) && Linked(c, p.right, p);
    assert allocated(Nodes(o));
    var t := RotateRight(p.right, c, p);
    assert Nodes(TurnedRight(c)) == Nodes(c);
    assert Linked(o, p.left, p);
    p.right := t;
    assert Linked(o, p.left, p);
  }

  /** A double rotation with the factors the source computes from the middle cell's old factor. */
  method DoubleLeft(p: Varent, ghost s: Tree, ghost par: Varent?) returns (q: Varent)
    requires s.Node? && s.right.Node? && s.right.left.Node? && Linked(s, p, par)
    modifies Nodes(s)
    ensures var m := s.right.left;
      && q == m.at
      && Linked(Node(Node(s.left, s.at, s.b, if m.bal < 1 then 0 else -1, m.left), m.at, m.b, 0,
                     Node(m.right, s.right.at, s.right.b, if m.bal > -1 then 0 else 1, s.right.right)), q, par)
  {
    InnerLeft(p, s, par);
    q := RotateLeft(p, Node(s.left, s.at, s.b, s.bal, TurnedRight(s.right)), par);
    SpreadFactor(q, TurnedLeft(Node(s.left, s.at, s.b, s.bal, TurnedRight(s.right))), par);
  }

  /** The `right heavy` half of a step of `balance`; `q` is the cell that ends up on top. */
  method FixRight(p: Varent, ghost s: Tree, ghost par: Varent?) returns (q: Varent)
    requires s.Node? && Linked(s, p, par) && CanTurnLeft(s.bal, s.right) && -1 <= s.bal <= 1
    requires s.bal == 1 ==> -1 <= s.right.bal <= 1
    modifies Nodes(s)
    ensures Linked(RightHeavy(s.left, s.at, s.b, s.bal, s.right), q, par)
    ensures q == RightHeavy(s.left, s.at, s.b, s.bal, s.right).at
  {
    q := p;
    if p.bal == -1 {
      p.bal := 0;
    } else if p.bal == 0 {
      p.bal := 1;
    } else {
      assert Linked(s.right, p.right, p);
      if p.right.bal == 1 {
        q := SingleLeft(p, 0, 0, s, par);
      } else if p.right.bal == 0 {
        q := SingleLeft(p, 1, -1, s, par);
      } else {
        q := DoubleLeft(p, s, par);
      }
    }
  }

  /** A single rotation: `rright`, then new factors for the old and the new top cell. */
  method SingleRight(p: Varent, pbal: int, qbal: int, ghost s: Tree, ghost par: Varent?) returns (q: Varent)
    requires s.Node? && s.left.Node? && Linked(s, p, par)
    modifies Nodes(s)
    ensures q == s.left.at
    ensures Linked(Node(s.left.left, q, s.left.b, qbal, Node(s.left.right, s.at, s.b, pbal, s.right)), q, par)
  {
    q := RotateRight(p, s, par);
    q.right.bal := pbal;
    q.bal := qbal;
  }

  /** The first half of a double rotation: the inner cell of the heavy child comes up. */
  method InnerRight(p: Varent, ghost s: Tree, ghost par: Varent?)
    requires s.Node? && s.left.Node? && s.left.right.Node? && Linked(s, p, par)
    modifies Nodes(s)
    ensures Linked(Node(TurnedLeft(s.left), s.at, s.b, s.bal, s.right), p, par)
  {
    ghost var o, c := s.right, s.left;
    assert Linked(o, p.right, p) && Linked(c, p.left, p);
    assert allocated(Nodes(o));
    var t := RotateLeft(p.left, c, p);
    assert Nodes(TurnedLeft(c)) == Nodes(c);
    assert Linked(o, p.right, p);
    p.left := t;
    assert Linked(o, p.right, p);
  }

  /** A double rotation with the factors the source computes from the middle cell's old factor. */
  method DoubleRight(p: Varent, ghost s: Tree, ghost par: Varent?) returns (q: Varent)
    requires s.Node? && s.left.Node? && s.left.right.Node? && Linked(s, p, par)
    modifies Nodes(s)
    ensures var m := s.left.right;
      && q == m.at
      && Linked(Node(Node(s.left.left, s.left.at, s.left.b, if m.bal < 1 then 0 else -1, m.left), m.at, m.b, 0,
                     Node(m.right, s.at, s.b, if m.bal > -1 then 0 else 1, s.right)), q, par)
  {
    InnerRight(p, s, par);
    q := RotateRight(p, Node(TurnedLeft(s.left), s.at, s.b, s.bal, s.right), par);
    SpreadFactor(q, TurnedRight(Node(TurnedLeft(s.left), s.at, s.b, s.bal, s.right)), par);
  }

  /** The `left heavy` half of a step of `balance`; `q` is the cell that ends up on top. */
  method FixLeft(p: Varent, ghost s: Tree, ghost par: Varent?) returns (q: Varent)
    requires s.Node? && Linked(s, p, par) && CanTurnRight(s.left, s.bal) && -1 <= s.bal <= 1
    requires s.bal == -1 ==> -1 <= s.left.bal <= 1
    modifies Nodes(s)
    ensures Linked(LeftHeavy(s.left, s.at, s.b, s.bal, s.right), q, par)
    ensures q == LeftHeavy(s.left, s.at, s.b, s.bal, s.right).at
  {
    q := p;
    if p.bal == 1 {
      p.bal := 0;
    } else if p.bal == 0 {
      p.bal := -1;
    } else {
      assert Linked(s.left, p.left, p);
      if p.left.bal == -1 {
        q := SingleRight(p, 0, 0, s, par);
      } else if p.left.bal == 0 {
        q := SingleRight(p, -1, 1, s, par);
      } else {
        q := DoubleRight(p, s, par);
      }
    }
  }

  ghost predicate FixPossible(p: Path, t: Tree, heavyRight: bool)
    requires p.Step?
  {
    var s := Hang(p, t);
    if heavyRight then CanTurnLeft(p.bal, s.right) else CanTurnRight(s.left, p.bal)
  }

  /** The subtree a step of `balance` leaves at the top cell of `p`, whose hole now holds `t`. */
  ghost function Fixed(p: Path, t: Tree, heavyRight: bool): Tree
    requires p.Step? && FixPossible(p, t, heavyRight)
  {
    var s := Hang(p, t);
    if heavyRight then RightHeavy(s.left, s.at, s.b, s.bal, s.right) else LeftHeavy(s.left, s.at, s.b, s.bal, s.right)
  }

  /** `t` stands in the hole of `p`, is itself balanced, and is one taller (after an insertion) or one
      shorter (after a deletion) than the height `h` that the factors along `p` account for. */
  ghost predicate Pending(p: Path, t: Tree, h: int, deleted: bool)
  {
    Avl(t) && PathAvl(p, h) && Height(t) == h + (if deleted then -1 else 1)
  }

  /** What a step leaves is balanced; its height is the lower of two readings exactly when its factor is zero. */
  ghost predicate Settled(u: Tree, heavy: Tree, light: Tree)
  {
    && u.Node? && Avl(u)
    && Height(u) == if u.bal == 0 then 1 + Max(Height(light), Height(heavy) - 1)
         else 1 + Max(Height(light) + 1, Height(heavy))
  }

  lemma {:induction false} FixedIsSettled(p: Path, t: Tree, h: int, deleted: bool)
    requires p.Step? && Pending(p, t, h, deleted)
    ensures FixPossible(p, t, p.toRight != deleted)
    ensures Settled(Fixed(p, t, p.toRight != deleted), if deleted then p.other else t, if deleted then t else p.other)
  {
    hide Avl, Height, RightHeavy, LeftHeavy;
    if p.toRight {
      if deleted {
        LeftHeavyAvl(p.other, p.at, p.b, p.bal, t);
      } else {
        RightHeavyAvl(p.other, p.at, p.b, p.bal, t);
      }
    } else {
      if deleted {
        RightHeavyAvl(t, p.at, p.b, p.bal, p.other);
      } else {
        LeftHeavyAvl(t, p.at, p.b, p.bal, p.other);
      }
    }
  }

  /** A step on a pending hole leaves a balanced subtree; stopping early is right exactly when its height is
      back to what the rest of the path accounts for, otherwise the hole one level up is pending. */
  lemma {:induction false} FixedIsPending(p: Path, t: Tree, h: int, deleted: bool)
    requires p.Step? && Pending(p, t, h, deleted)
    ensures FixPossible(p, t, p.toRight != deleted)
    ensures var u := Fixed(p, t, p.toRight != deleted);
      && u.Node? && Avl(u)
      && (if (u.bal == 0) != deleted then PathAvl(p.up, Height(u))
          else Pending(p.up, u, 1 + Max(h, Height(p.other)), deleted))
  {
    FixedIsSettled(p, t, h, deleted);
    StopRule(p, t, h, deleted, Fixed(p, t, p.toRight != deleted));
  }

  /** The arithmetic of the stopping rule. */
  lemma {:induction false} StopRule(p: Path, t: Tree, h: int, deleted: bool, u: Tree)
    requires p.Step? && Pending(p, t, h, deleted)
    requires Settled(u, if deleted then p.other else t, if deleted then t else p.other)
    ensures if (u.bal == 0) != deleted then PathAvl(p.up, Height(u))
            else Pending(p.up, u, 1 + Max(h, Height(p.other)), deleted)
  {
  }

  lemma {:induction false} FixedContents(p: Path, t: Tree, heavyRight: bool)
    requires p.Step? && FixPossible(p, t, heavyRight)
    ensures InOrder(Fixed(p, t, heavyRight)) == InOrder(Hang(p, t))
    ensures Nodes(Fixed(p, t, heavyRight)) == Nodes(Hang(p, t))
  {
    var s := Hang(p, t);
    if heavyRight {
      RightHeavyContents(s.left, s.at, s.b, s.bal, s.right);
    } else {
      LeftHeavyContents(s.left, s.at, s.b, s.bal, s.right);
    }
  }

  /** The test `pp->v_right == p` recognises the side on which `p` hangs. */
  lemma {:induction false} SideOfParent(p: Path, header: Varent, hole: Varent)
    requires LinkedPath(p, header, hole) && hole !in PathNodes(p)
    ensures (Owner(p, header).right == hole) == (p.Step? && p.toRight)
  {
  }

  /** When everything below and along a path is balanced, so is the whole store. */
  lemma {:induction false} Reassemble(p: Path, t: Tree, header: Varent, ref: Varent?)
    requires Zipped(p, t, header, ref) && Avl(t) && PathAvl(p, Height(t))
    ensures Zipped(Top, Plug(p, t), header, header.left) && Avl(Plug(p, t))
    ensures Nodes(Plug(p, t)) == PathNodes(p) + Nodes(t)
  {
    ZipTop(p, t, header, ref);
    AvlPlug(p, t);
    NodesPlug(p, t);
  }

  /** `pp->v_link[ff] = q`. */
  method Attach(pp: Varent, ff: bool, q: Varent?, header: Varent, ghost p: Path, ghost was: Varent?)
    requires LinkedPath(p, header, was) && pp == Owner(p, header) && header !in PathNodes(p)
    requires ff == (p.Step? && p.toRight)
    modifies pp
    ensures LinkedPath(p, header, q)
  {
    if ff { pp.right := q; } else { pp.left := q; }
  }

  lemma {:induction false} OwnerInPath(p: Path, header: Varent)
    ensures Owner(p, header) == header || Owner(p, header) in PathNodes(p)
  {
  }

  /** One iteration of the loop of `balance`, up to its stopping test. */
  method BalanceStep(p: Varent, pp: Varent, ff: bool, heavyRight: bool, header: Varent,
                     ghost path: Path, ghost t: Tree, ghost ref: Varent?) returns (q: Varent)
    requires path.Step? && Zipped(path, t, header, ref) && p == path.at && pp == Owner(path.up, header)
    requires ff == (path.up.Step? && path.up.toRight)
    requires -1 <= path.bal <= 1 && Avl(t) && Avl(path.other)
    requires FixPossible(path, t, heavyRight)
    requires Nodes(Fixed(path, t, heavyRight)) == Nodes(Hang(path, t))
    modifies header, PathNodes(path), Nodes(t)
    ensures q == Fixed(path, t, heavyRight).at && Zipped(path.up, Fixed(path, t, heavyRight), header, q)
  {
    hide Linked, LinkedPath, RightHeavy, LeftHeavy;
    ghost var s, up := Hang(path, t), path.up;
    ZipUp(path, t, header, ref);
    OwnerInPath(up, header);
    assert allocated(PathNodes(up));
    if heavyRight {
      q := FixRight(p, s, pp);
    } else {
      q := FixLeft(p, s, pp);
    }
    assert LinkedPath(up, header, p);
    assert allocated(Nodes(Fixed(path, t, heavyRight)));
    Attach(pp, ff, q, header, up, p);
    assert Linked(Fixed(path, t, heavyRight), q, pp);
  }

  /** The header is the only cell without a parent. */
  lemma {:induction false} ParentOfOwner(p: Path, header: Varent, hole: Varent?)
    requires LinkedPath(p, header, hole)
    ensures Owner(p, header).parent == if p.Step? then Owner(p.up, header) else null
  {
  }

  /** One iteration of `balance`, with its stopping test. */
  method Iterate(p: Varent, f: bool, deleted: bool, header: Varent, ghost path: Path, ghost t: Tree,
                 ghost ref: Varent?, ghost h: int)
    returns (pp: Varent, ff: bool, stop: bool, ghost u: Tree, ghost top: Varent)
    requires path.Step? && p == path.at && f == path.toRight && p.parent != null
    requires Zipped(path, t, header, ref) && Pending(path, t, h, deleted)
    modifies header, PathNodes(path), Nodes(t)
    ensures Zipped(path.up, u, header, top)
    ensures PathNodes(path.up) + Nodes(u) == PathNodes(path) + Nodes(t)
    ensures InOrder(Plug(path.up, u)) == InOrder(Plug(path, t))
    ensures pp == Owner(path.up, header) && ff == (path.up.Step? && path.up.toRight)
    ensures if stop then Avl(u) && PathAvl(path.up, Height(u))
            else Pending(path.up, u, 1 + Max(h, Height(path.other)), deleted)
  {
    hide Fixed;
    ParentOfOwner(path, header, ref);
    pp := p.parent;
    ff := pp.right == p;
    u := Advance(path, t, ref, h, deleted, header);
    var q := BalanceStep(p, pp, ff, f != deleted, header, path, t, ref);
    top := q;
    stop := (q.bal == 0) != deleted;
  }

  /** `balance`: started at the owner of a pending hole, it leaves the whole store balanced, with the same
      bindings in the same order and the same cells. */
  method Balance(start: Varent, from: bool, deleted: bool, header: Varent,
                 ghost path0: Path, ghost t0: Tree, ghost ref0: Varent?, ghost h0: int) returns (ghost whole: Tree)
    requires Zipped(path0, t0, header, ref0) && Pending(path0, t0, h0, deleted)
    requires start == Owner(path0, header) && from == (path0.Step? && path0.toRight)
    modifies header, PathNodes(path0), Nodes(t0)
    ensures Zipped(Top, whole, header, header.left) && Avl(whole)
    ensures InOrder(whole) == InOrder(Plug(path0, t0)) && Nodes(whole) == Nodes(Plug(path0, t0))
  {
    hide LinkedPath, Linked, Pending, Avl, PathAvl;
    var p, f := start, from;
    ghost var path, t, ref, h := path0, t0, ref0, h0;
    ParentOfOwner(path, header, ref);
    while p.parent != null
      invariant Zipped(path, t, header, ref) && Pending(path, t, h, deleted)
      invariant p == Owner(path, header) && f == (path.Step? && path.toRight)
      invariant p.parent == null <==> path.Top?
      invariant PathNodes(path) + Nodes(t) == PathNodes(path0) + Nodes(t0)
      invariant InOrder(Plug(path, t)) == InOrder(Plug(path0, t0))
      decreases path
    {
      var pp, ff, stop;
      ghost var u, top;
      pp, ff, stop, u, top := Iterate(p, f, deleted, header, path, t, ref, h);
      p, f, ref, t, h, path := pp, ff, top, u, 1 + Max(h, Height(path.other)), path.up;
      if stop {
        Reassemble(path, t, header, ref);
        NodesPlug(path0, t0);
        return Plug(path, t);
      }
      ParentOfOwner(path, header, ref);
    }
    PendingAtTop(t, h, deleted);
    Reassemble(path, t, header, ref);
    NodesPlug(path0, t0);
    whole := Plug(path, t);
  }

  lemma {:induction false} PendingAtTop(t: Tree, h: int, deleted: bool)
    requires Pending(Top, t, h, deleted)
    ensures Avl(t) && PathAvl(Top, Height(t))
  {
  }

  /** What one iteration relies on and achieves, on values. */
  lemma {:induction false} Advance(p: Path, t: Tree, ref: Varent?, h: int, deleted: bool, header: Varent)
    returns (u: Tree)
    requires p.Step? && Zipped(p, t, header, ref) && Pending(p, t, h, deleted)
    ensures FixPossible(p, t, p.toRight != deleted) && u == Fixed(p, t, p.toRight != deleted) && u.Node?
    ensures (Owner(p.up, header).right == p.at) == (p.up.Step? && p.up.toRight)
    ensures Nodes(u) == Nodes(Hang(p, t)) && Nodes(u) + PathNodes(p.up) == PathNodes(p) + Nodes(t)
    ensures InOrder(Plug(p.up, u)) == InOrder(Plug(p, t))
    ensures var g := 1 + Max(h, Height(p.other));
      if (u.bal == 0) != deleted then Avl(u) && PathAvl(p.up, Height(u)) else Pending(p.up, u, g, deleted)
  {
    hide Fixed, Linked, Avl, PathAvl, Pending, InOrder, Height;
    FixedIsPending(p, t, h, deleted);
    u := Fixed(p, t, p.toRight != deleted);
    FixedContents(p, t, p.toRight != deleted);
    SideOfParent(p.up, header, p.at);
    SamePlug(p.up, Hang(p, t), u);
  }

  /** Subtrees with the same bindings are interchangeable under a path. */
  lemma {:induction false} SamePlug(p: Path, t: Tree, u: Tree)
    requires InOrder(t) == InOrder(u)
    ensures InOrder(Plug(p, t)) == InOrder(Plug(p, u))
  {
    InOrderPlug(p, t);
    InOrderPlug(p, u);
  }
}
