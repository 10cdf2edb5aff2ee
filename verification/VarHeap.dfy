/** The heap side of the variable store: cells that realise a tree, and the rotations on them. */
module VarHeap {
  import opened VarTree

  /** The cells reached through the link `ref` realise `t`; every parent link is exact. */
  ghost predicate Linked(t: Tree, ref: Varent?, par: Varent?)
    reads Nodes(t)
  {
    match t
    case Nil => ref == null
    case Node(l, at, b, bal, r) =>
      && ref == at && at.parent == par && at.name == b.name && at.vec == b.vec && at.bal == bal
      && at !in Nodes(l) && at !in Nodes(r) && Nodes(l) !! Nodes(r)
      && Linked(l, at.left, at) && Linked(r, at.right, at)
  }

  /** The cell that holds the link a path's hole stands for. */
  ghost function Owner(p: Path, header: Varent): Varent
  {
    if p.Top? then header else p.at
  }

  /** The cells of `p` realise it, with `hole` stored in the link that is the hole. */
  ghost predicate LinkedPath(p: Path, header: Varent, hole: Varent?)
    reads PathNodes(p), header
  {
    match p
    case Top => header.left == hole && header.right == null && header.parent == null
    case Step(toRight, at, b, bal, other, up) =>
      && at.name == b.name && at.vec == b.vec && at.bal == bal && at.parent == Owner(up, header)
      && (if toRight then at.right == hole && Linked(other, at.left, at)
          else at.left == hole && Linked(other, at.right, at))
      && at !in Nodes(other) && at !in PathNodes(up) && Nodes(other) !! PathNodes(up)
      && LinkedPath(up, header, at)
  }

  /** The store, seen from the link `ref` below the path `p`. */
  ghost predicate Zipped(p: Path, t: Tree, header: Varent, ref: Varent?)
    reads PathNodes(p), Nodes(t), header
  {
    && LinkedPath(p, header, ref) && Linked(t, ref, Owner(p, header))
    && PathNodes(p) !! Nodes(t) && header !in PathNodes(p) && header !in Nodes(t)
  }

  /** Moving to a child. */
  ghost function Down(p: Path, t: Tree, toRight: bool): Path
    requires t.Node?
  {
    Step(toRight, t.at, t.b, t.bal, if toRight then t.left else t.right, p)
  }

  lemma {:induction false} ZipDown(p: Path, t: Tree, header: Varent, toRight: bool)
    requires t.Node? && Zipped(p, t, header, t.at)
    ensures var c := if toRight then t.right else t.left;
      && Zipped(Down(p, t, toRight), c, header, if toRight then t.at.right else t.at.left)
      && Plug(Down(p, t, toRight), c) == Plug(p, t)
  {
  }

  lemma {:induction false} ZipUp(p: Path, t: Tree, header: Varent, ref: Varent?)
    requires p.Step? && Zipped(p, t, header, ref)
    ensures Zipped(p.up, Hang(p, t), header, p.at)
  {
  }

  /** The whole store hangs off the header's left link. */
  lemma {:induction false} ZipTop(p: Path, t: Tree, header: Varent, ref: Varent?)
    requires Zipped(p, t, header, ref)
    ensures Zipped(Top, Plug(p, t), header, header.left)
    decreases p
  {
    if p.Step? {
      ZipUp(p, t, header, ref);
      ZipTop(p.up, Hang(p, t), header, p.at);
    }
  }

  /** Every cell of the store is the root of a subtree at the end of some path. */
  lemma {:induction false} Locate(p: Path, t: Tree, header: Varent, ref: Varent?, v: Varent)
    returns (q: Path, s: Tree)
    requires Zipped(p, t, header, ref) && v in Nodes(t)
    ensures s.Node? && s.at == v && Zipped(q, s, header, v) && Plug(q, s) == Plug(p, t)
    decreases t
  {
    if v == t.at {
      q, s := p, t;
    } else {
      var toRight := v in Nodes(t.right);
      ZipDown(p, t, header, toRight);
      var c := if toRight then t.right else t.left;
      q, s := Locate(Down(p, t, toRight), c, header, if toRight then t.at.right else t.at.left, v);
    }
  }

  ghost function TurnedLeft(s: Tree): Tree
    requires s.Node? && s.right.Node?
  {
    var r := s.right;
    Node(Node(s.left, s.at, s.b, s.bal, r.left), r.at, r.b, r.bal, r.right)
  }

  ghost function TurnedRight(s: Tree): Tree
    requires s.Node? && s.left.Node?
  {
    var l := s.left;
    Node(l.left, l.at, l.b, l.bal, Node(l.right, s.at, s.b, s.bal, s.right))
  }

  lemma {:induction false} LinkedNode(t: Tree, ref: Varent?, par: Varent?)
    requires t.Node?
    ensures Linked(t, ref, par) <==>
      && ref == t.at && t.at.parent == par && t.at.name == t.b.name && t.at.vec == t.b.vec && t.at.bal == t.bal
      && t.at !in Nodes(t.left) && t.at !in Nodes(t.right) && Nodes(t.left) !! Nodes(t.right)
      && Linked(t.left, t.at.left, t.at) && Linked(t.right, t.at.right, t.at)
  {
  }

  lemma {:induction false} LinkedRoot(t: Tree, ref: Varent?, par: Varent?)
    requires Linked(t, ref, par)
    ensures ref == null <==> t.Nil?
    ensures ref != null ==> ref in Nodes(t)
  {
  }

  /** A cell that gets a new parent. */
  method Adopt(c: Varent?, par: Varent, ghost t: Tree, ghost was: Varent?)
    requires Linked(t, c, was)
    modifies if c == null then {} else {c}`parent
    ensures Linked(t, c, par)
  {
    if c != null {
      c.parent := par;
    }
  }

  /** `rleft`. */
  method RotateLeft(p: Varent, ghost s: Tree, ghost par: Varent?) returns (t: Varent)
    requires s.Node? && s.right.Node? && Linked(s, p, par)
    modifies Nodes(s)
    ensures t == s.right.at && Linked(TurnedLeft(s), t, par)
  {
    hide Linked;
    ghost var a, m, c := s.left, s.right.left, s.right.right;
    LinkedNode(s, p, par);
    LinkedNode(s.right, p.right, p);
    LinkedRoot(m, s.right.at.left, s.right.at);
    assert allocated(Nodes(a)) && allocated(Nodes(m)) && allocated(Nodes(c));
    t := p.right;
    t.parent := p.parent;
    p.right := t.left;
    Adopt(p.right, p, m, t);
    t.left := p;
    p.parent := t;
    LinkedNode(TurnedLeft(s).left, p, t);
    LinkedNode(TurnedLeft(s), t, par);
  }

  /** `rright`. */
  method RotateRight(p: Varent, ghost s: Tree, ghost par: Varent?) returns (t: Varent)
    requires s.Node? && s.left.Node? && Linked(s, p, par)
    modifies Nodes(s)
    ensures t == s.left.at && Linked(TurnedRight(s), t, par)
  {
    hide Linked;
    ghost var a, m, c := s.left.left, s.left.right, s.right;
    LinkedNode(s, p, par);
    LinkedNode(s.left, p.left, p);
    LinkedRoot(m, s.left.at.right, s.left.at);
    assert allocated(Nodes(a)) && allocated(Nodes(m)) && allocated(Nodes(c));
    t := p.left;
    t.parent := p.parent;
    p.left := t.right;
    Adopt(p.left, p, m, t);
    t.right := p;
    p.parent := t;
    LinkedNode(TurnedRight(s).right, p, t);
    LinkedNode(TurnedRight(s), t, par);
  }
}
