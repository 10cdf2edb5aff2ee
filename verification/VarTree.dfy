/** The value-level theory of the variable store: address-labelled trees, their paths and rebalancing. */
module VarTree {
  import opened Words

  /** `struct varent`: a binding, its two children and its parent, and the balance factor. */
  class Varent {
    var name: Word
    var vec: seq<Word>
    var left: Varent?
    var right: Varent?
    var parent: Varent?
    var bal: int

    constructor (name: Word, vec: seq<Word>, parent: Varent?)
      ensures this.name == name && this.vec == vec && this.parent == parent
      ensures left == null && right == null && bal == 0
    {
      this.name, this.vec, this.parent := name, vec, parent;
      left, right, bal := null, null, 0;
    }
  }

  datatype Binding = Binding(name: Word, vec: seq<Word>)

  /** A snapshot of the cells below some link: addresses together with their contents. */
  datatype Tree = Nil | Node(left: Tree, at: Varent, b: Binding, bal: int, right: Tree)

  /** What surrounds a subtree; `toRight` says which link of `at` the hole is. */
  datatype Path = Top | Step(toRight: bool, at: Varent, b: Binding, bal: int, other: Tree, up: Path)

  ghost function Max(a: int, b: int): int { if a < b then b else a }

  ghost function Height(t: Tree): nat
  {
    match t
    case Nil => 0
    case Node(l, _, _, _, r) => 1 + Max(Height(l), Height(r))
  }

  /** Every balance factor is exact and within one. */
  ghost predicate Avl(t: Tree)
  {
    match t
    case Nil => true
    case Node(l, _, _, bal, r) => Avl(l) && Avl(r) && bal == Height(r) - Height(l) && -1 <= bal <= 1
  }

  ghost function InOrder(t: Tree): seq<Binding>
  {
    match t
    case Nil => []
    case Node(l, _, b, _, r) => InOrder(l) + [b] + InOrder(r)
  }

  ghost function Nodes(t: Tree): set<Varent>
  {
    match t
    case Nil => {}
    case Node(l, at, _, _, r) => Nodes(l) + {at} + Nodes(r)
  }

  ghost function PathNodes(p: Path): set<Varent>
  {
    match p
    case Top => {}
    case Step(_, at, _, _, other, up) => {at} + Nodes(other) + PathNodes(up)
  }

  ghost function Hang(p: Path, t: Tree): Tree
    requires p.Step?
  {
    if p.toRight then Node(p.other, p.at, p.b, p.bal, t) else Node(t, p.at, p.b, p.bal, p.other)
  }

  /** The whole tree around a subtree. */
  ghost function Plug(p: Path, t: Tree): Tree
    decreases p
  {
    if p.Top? then t else Plug(p.up, Hang(p, t))
  }

  /** The bindings before, and after, the hole of a path. */
  ghost function Before(p: Path): seq<Binding>
  {
    match p
    case Top => []
    case Step(toRight, _, b, _, other, up) => Before(up) + (if toRight then InOrder(other) + [b] else [])
  }

  ghost function After(p: Path): seq<Binding>
  {
    match p
    case Top => []
    case Step(toRight, _, b, _, other, up) => (if toRight then [] else [b] + InOrder(other)) + After(up)
  }

  /** The balance factors along the path are exact for a hole of height `h`. */
  ghost predicate PathAvl(p: Path, h: int)
  {
    match p
    case Top => true
    case Step(toRight, _, _, bal, other, up) =>
      && Avl(other)
      && -1 <= bal <= 1
      && bal == (if toRight then h - Height(other) else Height(other) - h)
      && PathAvl(up, 1 + Max(h, Height(other)))
  }

  lemma {:induction false} InOrderPlug(p: Path, t: Tree)
    ensures InOrder(Plug(p, t)) == Before(p) + InOrder(t) + After(p)
    decreases p
  {
    if p.Step? {
      InOrderPlug(p.up, Hang(p, t));
      var b, o := [p.b], InOrder(p.other);
      if p.toRight {
        Reassociate(Before(p.up), o + b, InOrder(t), [], After(p.up));
        assert o + b + InOrder(t) + [] == o + b + InOrder(t);
      } else {
        Reassociate(Before(p.up), [], InOrder(t), b + o, After(p.up));
        assert [] + InOrder(t) + (b + o) == InOrder(t) + b + o;
      }
    }
  }

  lemma {:induction false} Reassociate(a: seq<Binding>, b: seq<Binding>, c: seq<Binding>, d: seq<Binding>,
                                       e: seq<Binding>)
    ensures a + (b + c + d) + e == (a + b) + c + (d + e)
  {
  }

  lemma {:induction false} NodesPlug(p: Path, t: Tree)
    ensures Nodes(Plug(p, t)) == PathNodes(p) + Nodes(t)
    decreases p
  {
    if p.Step? { NodesPlug(p.up, Hang(p, t)); }
  }

  lemma {:induction false} AvlPlug(p: Path, t: Tree)
    ensures Avl(t) && PathAvl(p, Height(t)) <==> Avl(Plug(p, t))
    decreases p
  {
    if p.Step? { AvlPlug(p.up, Hang(p, t)); }
  }

  /** The cells a rotation towards the left needs: a right child and, for a double one, its left child. */
  ghost predicate CanTurnLeft(bal: int, r: Tree)
  {
    bal == 1 ==> r.Node? && (r.bal != 1 && r.bal != 0 ==> r.left.Node?)
  }

  ghost predicate CanTurnRight(l: Tree, bal: int)
  {
    bal == -1 ==> l.Node? && (l.bal != -1 && l.bal != 0 ==> l.right.Node?)
  }

  /** One step of `balance` on values, when the node has become heavier on the right than `bal` records. */
  ghost function RightHeavy(l: Tree, at: Varent, b: Binding, bal: int, r: Tree): Tree
    requires CanTurnLeft(bal, r)
  {
    if bal != 1 then Node(l, at, b, bal + 1, r)
    else if r.bal == 1 then Node(Node(l, at, b, 0, r.left), r.at, r.b, 0, r.right)
    else if r.bal == 0 then Node(Node(l, at, b, 1, r.left), r.at, r.b, -1, r.right)
    else
      var m := r.left;
      Node(Node(l, at, b, if m.bal < 1 then 0 else -1, m.left), m.at, m.b, 0,
           Node(m.right, r.at, r.b, if m.bal > -1 then 0 else 1, r.right))
  }

  /** The mirror image of `RightHeavy`. */
  ghost function LeftHeavy(l: Tree, at: Varent, b: Binding, bal: int, r: Tree): Tree
    requires CanTurnRight(l, bal)
  {
    if bal != -1 then Node(l, at, b, bal - 1, r)
    else if l.bal == -1 then Node(l.left, l.at, l.b, 0, Node(l.right, at, b, 0, r))
    else if l.bal == 0 then Node(l.left, l.at, l.b, 1, Node(l.right, at, b, -1, r))
    else
      var m := l.right;
      Node(Node(l.left, l.at, l.b, if m.bal < 1 then 0 else -1, m.left), m.at, m.b, 0,
           Node(m.right, at, b, if m.bal > -1 then 0 else 1, r))
  }

  /** The children are balanced and `bal` is a legal factor, but they differ by `bal + off`. */
  ghost predicate OffBy(off: int, l: Tree, bal: int, r: Tree)
  {
    Avl(l) && Avl(r) && -1 <= bal <= 1 && Height(r) - Height(l) == bal + off
  }

  lemma {:induction false} AvlNode(t: Tree)
    requires t.Node?
    ensures Height(t) == 1 + Max(Height(t.left), Height(t.right))
    ensures Avl(t) <==> Avl(t.left) && Avl(t.right) && t.bal == Height(t.right) - Height(t.left) && -1 <= t.bal <= 1
  {
  }

  lemma {:induction false} AvlNil(t: Tree)
    ensures t.Nil? <==> Height(t) == 0
  {
  }

  /** The single rotation to the left. */
  lemma {:induction false} SingleLeftAvl(l: Tree, at: Varent, b: Binding, bal: int, r: Tree)
    requires OffBy(1, l, bal, r) && bal == 1 && r.Node? && (r.bal == 0 || r.bal == 1)
    ensures var t := RightHeavy(l, at, b, bal, r);
      && t.Node? && Avl(t)
      && Height(t) == 1 + Max(Height(l), Height(r) - 1) + (if t.bal == 0 then 0 else 1)
      && Height(t) == 1 + Max(Height(l) + 1, Height(r)) - (if t.bal == 0 then 1 else 0)
  {
    hide Avl, Height;
    var t := RightHeavy(l, at, b, bal, r);
    AvlNode(r);
    AvlNode(t.left);
    AvlNode(t);
  }

  /** The double rotation to the left. */
  lemma {:induction false} DoubleLeftAvl(l: Tree, at: Varent, b: Binding, bal: int, r: Tree)
    requires OffBy(1, l, bal, r) && bal == 1 && r.Node? && r.bal == -1
    ensures r.left.Node?
    ensures var t := RightHeavy(l, at, b, bal, r);
      && t.Node? && Avl(t)
      && Height(t) == 1 + Max(Height(l), Height(r) - 1) + (if t.bal == 0 then 0 else 1)
      && Height(t) == 1 + Max(Height(l) + 1, Height(r)) - (if t.bal == 0 then 1 else 0)
  {
    hide Avl, Height;
    AvlNode(r);
    AvlNil(r.left);
    AvlNode(r.left);
    var t := RightHeavy(l, at, b, bal, r);
    AvlNode(t.left);
    AvlNode(t.right);
    AvlNode(t);
  }

  /** A step restores exact balance. The result is one taller than the lighter reading of the two
      heights exactly when it is unbalanced, which is what the early-stop rule of `balance` tests. */
  lemma {:induction false} RightHeavyAvl(l: Tree, at: Varent, b: Binding, bal: int, r: Tree)
    requires OffBy(1, l, bal, r)
    ensures CanTurnLeft(bal, r)
    ensures var t := RightHeavy(l, at, b, bal, r);
      && t.Node? && Avl(t)
      && Height(t) == 1 + Max(Height(l), Height(r) - 1) + (if t.bal == 0 then 0 else 1)
      && Height(t) == 1 + Max(Height(l) + 1, Height(r)) - (if t.bal == 0 then 1 else 0)
  {
    if bal == 1 {
      assert r.Node?;
      if r.bal == -1 {
        DoubleLeftAvl(l, at, b, bal, r);
      } else {
        SingleLeftAvl(l, at, b, bal, r);
      }
    }
  }

  /** The single rotation to the right. */
  lemma {:induction false} SingleRightAvl(l: Tree, at: Varent, b: Binding, bal: int, r: Tree)
    requires OffBy(-1, l, bal, r) && bal == -1 && l.Node? && (l.bal == 0 || l.bal == -1)
    ensures var t := LeftHeavy(l, at, b, bal, r);
      && t.Node? && Avl(t)
      && Height(t) == 1 + Max(Height(l) - 1, Height(r)) + (if t.bal == 0 then 0 else 1)
      && Height(t) == 1 + Max(Height(l), Height(r) + 1) - (if t.bal == 0 then 1 else 0)
  {
    hide Avl, Height;
    var t := LeftHeavy(l, at, b, bal, r);
    AvlNode(l);
    AvlNode(t.right);
    AvlNode(t);
  }

  /** The double rotation to the right. */
  lemma {:induction false} DoubleRightAvl(l: Tree, at: Varent, b: Binding, bal: int, r: Tree)
    requires OffBy(-1, l, bal, r) && bal == -1 && l.Node? && l.bal == 1
    ensures l.right.Node?
    ensures var t := LeftHeavy(l, at, b, bal, r);
      && t.Node? && Avl(t)
      && Height(t) == 1 + Max(Height(l) - 1, Height(r)) + (if t.bal == 0 then 0 else 1)
      && Height(t) == 1 + Max(Height(l), Height(r) + 1) - (if t.bal == 0 then 1 else 0)
  {
    hide Avl, Height;
    AvlNode(l);
    AvlNil(l.right);
    AvlNode(l.right);
    var t := LeftHeavy(l, at, b, bal, r);
    AvlNode(t.left);
    AvlNode(t.right);
    AvlNode(t);
  }

  /** The mirror image of `RightHeavyAvl`. */
  lemma {:induction false} LeftHeavyAvl(l: Tree, at: Varent, b: Binding, bal: int, r: Tree)
    requires OffBy(-1, l, bal, r)
    ensures CanTurnRight(l, bal)
    ensures var t := LeftHeavy(l, at, b, bal, r);
      && t.Node? && Avl(t)
      && Height(t) == 1 + Max(Height(l) - 1, Height(r)) + (if t.bal == 0 then 0 else 1)
      && Height(t) == 1 + Max(Height(l), Height(r) + 1) - (if t.bal == 0 then 1 else 0)
  {
    if bal == -1 {
      assert l.Node?;
      if l.bal == 1 {
        DoubleRightAvl(l, at, b, bal, r);
      } else {
        SingleRightAvl(l, at, b, bal, r);
      }
    }
  }

  /** A step keeps the bindings in order and the same cells. */
  lemma {:induction false} RightHeavyContents(l: Tree, at: Varent, b: Binding, bal: int, r: Tree)
    requires CanTurnLeft(bal, r)
    ensures InOrder(RightHeavy(l, at, b, bal, r)) == InOrder(l) + [b] + InOrder(r)
    ensures Nodes(RightHeavy(l, at, b, bal, r)) == Nodes(l) + {at} + Nodes(r)
  {
    if bal == 1 {
      var x, y, z := InOrder(l), InOrder(r.left), InOrder(r.right);
      if r.bal == 0 || r.bal == 1 {
        assert (x + [b] + y) + [r.b] + z == x + [b] + (y + [r.b] + z);
      } else {
        var m := r.left;
        var u, v := InOrder(m.left), InOrder(m.right);
        assert (x + [b] + u) + [m.b] + (v + [r.b] + z) == x + [b] + ((u + [m.b] + v) + [r.b] + z);
      }
    }
  }

  lemma {:induction false} LeftHeavyContents(l: Tree, at: Varent, b: Binding, bal: int, r: Tree)
    requires CanTurnRight(l, bal)
    ensures InOrder(LeftHeavy(l, at, b, bal, r)) == InOrder(l) + [b] + InOrder(r)
    ensures Nodes(LeftHeavy(l, at, b, bal, r)) == Nodes(l) + {at} + Nodes(r)
  {
    if bal == -1 {
      var x, y, z := InOrder(l.left), InOrder(l.right), InOrder(r);
      if l.bal == 0 || l.bal == -1 {
        assert x + [l.b] + (y + [b] + z) == (x + [l.b] + y) + [b] + z;
      } else {
        var m := l.right;
        var u, v := InOrder(m.left), InOrder(m.right);
        assert (x + [l.b] + u) + [m.b] + (v + [b] + z) == (x + [l.b] + (u + [m.b] + v)) + [b] + z;
      }
    }
  }
}
