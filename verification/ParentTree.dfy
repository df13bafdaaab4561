/**
 Binary trees whose nodes point at their children and at their parent: the shape as a value, the
 pointers that shape calls for, and what rotations and exchanges do to both.
 */
module ParentTree {

  class Node {
    var left: Node?
    var right: Node?
    var parent: Node?
  }

  datatype Tree = Leaf | Branch(l: Tree, x: Node, r: Tree)

  datatype Link = Link(left: Node?, right: Node?, parent: Node?)

  ghost function Root(t: Tree): Node? {
    if t.Leaf? then null else t.x
  }

  ghost function Nodes(t: Tree): set<Node> {
    match t
    case Leaf => {}
    case Branch(l, x, r) => Nodes(l) + {x} + Nodes(r)
  }

  ghost function InOrder(t: Tree): seq<Node> {
    match t
    case Leaf => []
    case Branch(l, x, r) => InOrder(l) + [x] + InOrder(r)
  }

  ghost predicate Distinct(t: Tree) {
    match t
    case Leaf => true
    case Branch(l, x, r) => x !in Nodes(l) && x !in Nodes(r) && Nodes(l) !! Nodes(r) && Distinct(l) && Distinct(r)
  }

  /** The three pointers node `n` has in tree `t` when the tree hangs below `parent`. */
  ghost function LinkOf(t: Tree, parent: Node?, n: Node): Link
    requires n in Nodes(t)
  {
    if t.x == n then Link(Root(t.l), Root(t.r), parent)
    else if n in Nodes(t.l) then LinkOf(t.l, t.x, n)
    else LinkOf(t.r, t.x, n)
  }

  // ---------------------------------------------------------------- links point both ways

  /** What the links of one node say about those of its neighbours. */
  ghost predicate LinkedBothWays(t: Tree, parent: Node?, n: Node)
    requires n in Nodes(t)
  {
    var k := LinkOf(t, parent, n);
    && (k.left != null ==> k.left in Nodes(t) && k.left != n && LinkOf(t, parent, k.left).parent == n)
    && (k.right != null ==> k.right in Nodes(t) && k.right != n && LinkOf(t, parent, k.right).parent == n)
    && (k.left != null ==> k.left != k.right)
    && k.parent != n
    && if n == Root(t) then k.parent == parent
       else
         && k.parent != null && k.parent in Nodes(t)
         && (LinkOf(t, parent, k.parent).left == n || LinkOf(t, parent, k.parent).right == n)
  }

  lemma {:induction false} AllLinkedBothWays(t: Tree, parent: Node?, n: Node)
    requires Distinct(t) && n in Nodes(t) && parent !in Nodes(t)
    ensures LinkedBothWays(t, parent, n)
    decreases t
  {
    if n in Nodes(t.l) {
      AllLinkedBothWays(t.l, t.x, n);
    } else if n in Nodes(t.r) {
      AllLinkedBothWays(t.r, t.x, n);
    }
  }

  ghost function Depth(t: Tree, n: Node): nat
    requires n in Nodes(t)
  {
    if t.x == n then 0 else if n in Nodes(t.l) then 1 + Depth(t.l, n) else 1 + Depth(t.r, n)
  }

  /** A node lies one level below its parent, so following parents never comes back. */
  lemma {:induction false} BelowParent(t: Tree, parent: Node?, n: Node)
    requires Distinct(t) && n in Nodes(t) && parent !in Nodes(t) && n != Root(t)
    ensures var p := LinkOf(t, parent, n).parent;
      p != null && p in Nodes(t) && Depth(t, n) == Depth(t, p) + 1
    decreases t
  {
    if n in Nodes(t.l) {
      if n != Root(t.l) {
        BelowParent(t.l, t.x, n);
      }
    } else {
      if n != Root(t.r) {
        BelowParent(t.r, t.x, n);
      }
    }
  }

  /** Everything about a node's place that the pointer surgery relies on. */
  lemma Place(t: Tree, n: Node)
    requires Distinct(t) && n in Nodes(t)
    ensures LinkedBothWays(t, null, n)
    ensures var p := LinkOf(t, null, n).parent;
      n != Root(t) ==> p != null && p in Nodes(t) && Depth(t, n) == Depth(t, p) + 1 &&
                       ((LinkOf(t, null, p).left == n) != (LinkOf(t, null, p).right == n))
  {
    AllLinkedBothWays(t, null, n);
    if n != Root(t) {
      BelowParent(t, null, n);
      RightOfParent(t, null, n);
    }
  }

  // ---------------------------------------------------------------- rotations

  ghost function RotateLeftAt(t: Tree, n: Node): Tree {
    match t
    case Leaf => Leaf
    case Branch(l, x, r) =>
      if x == n then
        if r.Branch? then Branch(Branch(l, x, r.l), r.x, r.r) else t
      else
        Branch(RotateLeftAt(l, n), x, RotateLeftAt(r, n))
  }

  ghost function RotateRightAt(t: Tree, n: Node): Tree {
    match t
    case Leaf => Leaf
    case Branch(l, x, r) =>
      if x == n then
        if l.Branch? then Branch(l.l, l.x, Branch(l.r, x, r)) else t
      else
        Branch(RotateRightAt(l, n), x, RotateRightAt(r, n))
  }

  lemma {:induction false} RotationsKeepOrder(t: Tree, n: Node)
    ensures InOrder(RotateLeftAt(t, n)) == InOrder(t)
    ensures InOrder(RotateRightAt(t, n)) == InOrder(t)
    decreases t
  {
    match t
    case Leaf =>
    case Branch(l, x, r) =>
      if x == n {
        if r.Branch? {
          assert InOrder(l) + [x] + (InOrder(r.l) + [r.x] + InOrder(r.r)) ==
            InOrder(l) + [x] + InOrder(r.l) + [r.x] + InOrder(r.r);
        }
        if l.Branch? {
          assert InOrder(l.l) + [l.x] + (InOrder(l.r) + [x] + InOrder(r)) ==
            InOrder(l.l) + [l.x] + InOrder(l.r) + [x] + InOrder(r);
        }
      } else {
        RotationsKeepOrder(l, n);
        RotationsKeepOrder(r, n);
      }
  }

  lemma {:induction false} RotateLeftKeepsNodes(t: Tree, n: Node)
    requires Distinct(t)
    ensures Nodes(RotateLeftAt(t, n)) == Nodes(t)
    ensures Distinct(RotateLeftAt(t, n))
    decreases t
  {
    if t.Branch? && t.x == n {
      if t.r.Branch? {
        var low := Branch(t.l, n, t.r.l);
        assert Nodes(low) == Nodes(t.l) + {n} + Nodes(t.r.l);
        assert Nodes(t.r) == Nodes(t.r.l) + {t.r.x} + Nodes(t.r.r);
        assert Distinct(low);
        assert RotateLeftAt(t, n) == Branch(low, t.r.x, t.r.r);
      }
    } else if t.Branch? {
      RotateLeftKeepsNodes(t.l, n);
      RotateLeftKeepsNodes(t.r, n);
    }
  }

  lemma {:induction false} RotateRightKeepsNodes(t: Tree, n: Node)
    requires Distinct(t)
    ensures Nodes(RotateRightAt(t, n)) == Nodes(t)
    ensures Distinct(RotateRightAt(t, n))
    decreases t
  {
    if t.Branch? && t.x == n {
      if t.l.Branch? {
        var low := Branch(t.l.r, n, t.r);
        assert Nodes(low) == Nodes(t.l.r) + {n} + Nodes(t.r);
        assert Nodes(t.l) == Nodes(t.l.l) + {t.l.x} + Nodes(t.l.r);
        assert Distinct(low);
        assert RotateRightAt(t, n) == Branch(t.l.l, t.l.x, low);
      }
    } else if t.Branch? {
      RotateRightKeepsNodes(t.l, n);
      RotateRightKeepsNodes(t.r, n);
    }
  }

  lemma {:induction false} RotateElsewhere(t: Tree, n: Node)
    requires n !in Nodes(t)
    ensures RotateLeftAt(t, n) == t && RotateRightAt(t, n) == t
    decreases t
  {
    if t.Leaf? {
    } else {
      RotateElsewhere(t.l, n);
      RotateElsewhere(t.r, n);
    }
  }

  /** Rotating right at the node that came up undoes a rotation to the left. */
  lemma {:induction false} RotationsInvert(t: Tree, n: Node, parent: Node?)
    requires Distinct(t) && n in Nodes(t) && LinkOf(t, parent, n).right != null
    ensures RotateRightAt(RotateLeftAt(t, n), LinkOf(t, parent, n).right) == t
    decreases t
  {
    var y := LinkOf(t, parent, n).right;
    RightChildBelow(t, parent, n);
    if t.x == n {
      assert t.r.Branch?;
    } else if n in Nodes(t.l) {
      RotationsInvert(t.l, n, t.x);
      RightChildBelow(t.l, t.x, n);
      RotateElsewhere(t.r, n);
      RotateElsewhere(t.r, y);
    } else {
      RotationsInvert(t.r, n, t.x);
      RightChildBelow(t.r, t.x, n);
      RotateElsewhere(t.l, n);
      RotateElsewhere(t.l, y);
    }
  }

  lemma {:induction false} RightChildBelow(t: Tree, parent: Node?, n: Node)
    requires Distinct(t) && n in Nodes(t) && LinkOf(t, parent, n).right != null
    ensures LinkOf(t, parent, n).right in Nodes(t) && LinkOf(t, parent, n).right != n
    decreases t
  {
    if t.x != n {
      if n in Nodes(t.l) {
        RightChildBelow(t.l, t.x, n);
      } else {
        RightChildBelow(t.r, t.x, n);
      }
    }
  }

  /** All links of a tree that hangs below nothing. */
  ghost function LinksOf(t: Tree): map<Node, Link> {
    map n | n in Nodes(t) :: LinkOf(t, null, n)
  }

  /**
   The links of `k` after a left rotation at `n`: `n` takes its right child's left subtree and hangs
   below that child, which takes `n`'s place below `n`'s parent.
   */
  ghost function LeftRotatedLink(t: Tree, parent: Node?, n: Node, k: Node): Link
    requires n in Nodes(t) && k in Nodes(t)
    requires var y := LinkOf(t, parent, n).right; y != null && y in Nodes(t)
  {
    LeftRotated(n, LinkOf(t, parent, n), LinkOf(t, parent, LinkOf(t, parent, n).right), k, LinkOf(t, parent, k))
  }

  /** The new links of `k`, from its old ones and those of `n` and of `n`'s right child. */
  ghost function LeftRotated(n: Node, ofN: Link, ofY: Link, k: Node, was: Link): Link {
    var y, p, b := ofN.right, ofN.parent, ofY.left;
    if k == n then Link(was.left, b, y)
    else if k == y then Link(n, was.right, p)
    else if k == b then was.(parent := n)
    else if k == p then (if was.left == n then was.(left := y) else was.(right := y))
    else was
  }

  lemma RotateLeftRootLinks(t: Tree, parent: Node?, k: Node)
    requires Distinct(t) && t.Branch? && t.r.Branch? && k in Nodes(t) && parent !in Nodes(t)
    ensures LinkOf(t, parent, t.x).right == t.r.x && k in Nodes(RotateLeftAt(t, t.x))
    ensures LinkOf(RotateLeftAt(t, t.x), parent, k) == LeftRotatedLink(t, parent, t.x, k)
  {
    var n, y, rl := t.x, t.r.x, t.r.l;
    var low := Branch(t.l, n, rl);
    assert RotateLeftAt(t, n) == Branch(low, y, t.r.r);
    assert Nodes(low) == Nodes(t.l) + {n} + Nodes(rl) && Nodes(t.r) == Nodes(rl) + {y} + Nodes(t.r.r);
    assert LinkOf(t, parent, y) == Link(Root(rl), Root(t.r.r), n);
    if k in Nodes(t.l) {
      assert LinkOf(t, parent, k) == LinkOf(t.l, n, k) == LinkOf(low, y, k);
    } else if k in Nodes(rl) {
      assert LinkOf(t, parent, k) == LinkOf(t.r, n, k) == LinkOf(rl, y, k);
      assert LinkOf(low, y, k) == LinkOf(rl, n, k);
    } else if k in Nodes(t.r.r) {
      assert LinkOf(t, parent, k) == LinkOf(t.r, n, k) == LinkOf(t.r.r, y, k);
    }
  }

  /** The facts about a rotation below, as the induction needs them. */
  ghost predicate RotatesLeft(t: Tree, parent: Node?, n: Node, k: Node)
    requires n in Nodes(t)
    requires var y := LinkOf(t, parent, n).right; y != null && y in Nodes(t)
  {
    && (k in Nodes(t) ==>
          k in Nodes(RotateLeftAt(t, n)) && LinkOf(RotateLeftAt(t, n), parent, k) == LeftRotatedLink(t, parent, n, k))
    && Root(RotateLeftAt(t, n)) == if Root(t) == n then LinkOf(t, parent, n).right else Root(t)
  }

  lemma RotateLeftInLeft(t: Tree, parent: Node?, n: Node, k: Node)
    requires Distinct(t) && t.Branch? && n in Nodes(t.l) && parent !in Nodes(t)
    requires var y := LinkOf(t.l, t.x, n).right; y != null && y in Nodes(t.l)
    requires RotatesLeft(t.l, t.x, n, k)
    ensures n in Nodes(t) && RotatesLeft(t, parent, n, k)
  {
    var y := LinkOf(t.l, t.x, n).right;
    RotateElsewhere(t.r, n);
    RotateLeftKeepsNodes(t.l, n);
    AllLinkedBothWays(t.l, t.x, n);
    AllLinkedBothWays(t.l, t.x, y);
    assert LinkOf(t, parent, n) == LinkOf(t.l, t.x, n) && LinkOf(t, parent, y) == LinkOf(t.l, t.x, y);
    assert RotateLeftAt(t, n) == Branch(RotateLeftAt(t.l, n), t.x, t.r);
    if k in Nodes(t.l) {
      assert LeftRotatedLink(t, parent, n, k) == LeftRotatedLink(t.l, t.x, n, k);
    }
  }

  lemma RotateLeftInRight(t: Tree, parent: Node?, n: Node, k: Node)
    requires Distinct(t) && t.Branch? && n in Nodes(t.r) && parent !in Nodes(t)
    requires var y := LinkOf(t.r, t.x, n).right; y != null && y in Nodes(t.r)
    requires RotatesLeft(t.r, t.x, n, k)
    ensures n in Nodes(t) && RotatesLeft(t, parent, n, k)
  {
    var y := LinkOf(t.r, t.x, n).right;
    RotateElsewhere(t.l, n);
    RotateLeftKeepsNodes(t.r, n);
    AllLinkedBothWays(t.r, t.x, n);
    AllLinkedBothWays(t.r, t.x, y);
    assert LinkOf(t, parent, n) == LinkOf(t.r, t.x, n) && LinkOf(t, parent, y) == LinkOf(t.r, t.x, y);
    assert RotateLeftAt(t, n) == Branch(t.l, t.x, RotateLeftAt(t.r, n));
    if k in Nodes(t.r) {
      assert LeftRotatedLink(t, parent, n, k) == LeftRotatedLink(t.r, t.x, n, k);
    }
  }

  lemma {:induction false} RotateLeftLinks(t: Tree, parent: Node?, n: Node, k: Node)
    requires Distinct(t) && n in Nodes(t) && parent !in Nodes(t) && LinkOf(t, parent, n).right != null
    ensures LinkOf(t, parent, n).right in Nodes(t)
    ensures RotatesLeft(t, parent, n, k)
    decreases t
  {
    RightChildBelow(t, parent, n);
    if t.x == n {
      if k in Nodes(t) {
        RotateLeftRootLinks(t, parent, k);
      }
    } else if n in Nodes(t.l) {
      RotateLeftLinks(t.l, t.x, n, k);
      RotateLeftInLeft(t, parent, n, k);
    } else {
      RotateLeftLinks(t.r, t.x, n, k);
      RotateLeftInRight(t, parent, n, k);
    }
  }

  lemma {:induction false} NoRightChildNoRotation(t: Tree, parent: Node?, n: Node)
    requires Distinct(t) && n in Nodes(t) && LinkOf(t, parent, n).right == null
    ensures RotateLeftAt(t, n) == t
    decreases t
  {
    if t.x != n {
      if n in Nodes(t.l) {
        NoRightChildNoRotation(t.l, t.x, n);
        RotateElsewhere(t.r, n);
      } else {
        NoRightChildNoRotation(t.r, t.x, n);
        RotateElsewhere(t.l, n);
      }
    }
  }

  // ---------------------------------------------------------------- the mirror image

  ghost function Mirror(t: Tree): Tree {
    match t
    case Leaf => Leaf
    case Branch(l, x, r) => Branch(Mirror(r), x, Mirror(l))
  }

  ghost function Flip(k: Link): Link {
    Link(k.right, k.left, k.parent)
  }

  lemma {:induction false} MirrorKeeps(t: Tree)
    ensures Mirror(Mirror(t)) == t && Nodes(Mirror(t)) == Nodes(t) && (Distinct(t) ==> Distinct(Mirror(t)))
    ensures Root(Mirror(t)) == Root(t)
    decreases t
  {
    if t.Leaf? {
    } else {
      MirrorKeeps(t.l);
      MirrorKeeps(t.r);
    }
  }

  lemma {:induction false} MirrorFlipsLinks(t: Tree, parent: Node?, n: Node)
    requires Distinct(t) && n in Nodes(t)
    ensures n in Nodes(Mirror(t)) && LinkOf(Mirror(t), parent, n) == Flip(LinkOf(t, parent, n))
    decreases t
  {
    MirrorKeeps(t.l);
    MirrorKeeps(t.r);
    if n in Nodes(t.l) {
      MirrorFlipsLinks(t.l, t.x, n);
    } else if n in Nodes(t.r) {
      MirrorFlipsLinks(t.r, t.x, n);
    }
  }

  lemma {:induction false} MirrorTurnsRotation(t: Tree, n: Node)
    ensures RotateRightAt(t, n) == Mirror(RotateLeftAt(Mirror(t), n))
    decreases t
  {
    if t.Leaf? {
    } else {
      MirrorKeeps(t.l);
      MirrorKeeps(t.r);
      if t.x != n {
        MirrorTurnsRotation(t.l, n);
        MirrorTurnsRotation(t.r, n);
      } else if t.l.Branch? {
        assert Mirror(t.l) == Branch(Mirror(t.l.r), t.l.x, Mirror(t.l.l));
        MirrorKeeps(t.l.l);
        MirrorKeeps(t.l.r);
        assert RotateLeftAt(Mirror(t), n) == Branch(Branch(Mirror(t.r), n, Mirror(t.l.r)), t.l.x, Mirror(t.l.l));
      }
    }
  }

  /** The links of `k` after a right rotation at `n`. */
  ghost function RightRotatedLink(t: Tree, parent: Node?, n: Node, k: Node): Link
    requires n in Nodes(t) && k in Nodes(t)
    requires var y := LinkOf(t, parent, n).left; y != null && y in Nodes(t)
  {
    RightRotated(n, LinkOf(t, parent, n), LinkOf(t, parent, LinkOf(t, parent, n).left), k, LinkOf(t, parent, k))
  }

  ghost function RightRotated(n: Node, ofN: Link, ofY: Link, k: Node, was: Link): Link {
    var y, p, b := ofN.left, ofN.parent, ofY.right;
    if k == n then Link(b, was.right, y)
    else if k == y then Link(was.left, n, p)
    else if k == b then was.(parent := n)
    else if k == p then (if was.left == n then was.(left := y) else was.(right := y))
    else was
  }

  lemma RotateRightLinks(t: Tree, parent: Node?, n: Node, k: Node)
    requires Distinct(t) && n in Nodes(t) && k in Nodes(t) && parent !in Nodes(t) && LinkOf(t, parent, n).left != null
    ensures LinkOf(t, parent, n).left in Nodes(t) && k in Nodes(RotateRightAt(t, n))
    ensures LinkOf(RotateRightAt(t, n), parent, k) == RightRotatedLink(t, parent, n, k)
    ensures Root(RotateRightAt(t, n)) == if Root(t) == n then LinkOf(t, parent, n).left else Root(t)
  {
    var m := Mirror(t);
    MirrorKeeps(t);
    MirrorFlipsLinks(t, parent, n);
    MirrorFlipsLinks(t, parent, k);
    RotateLeftLinks(m, parent, n, k);
    RotateLeftKeepsNodes(m, n);
    MirrorTurnsRotation(t, n);
    MirrorKeeps(RotateLeftAt(m, n));
    MirrorFlipsLinks(RotateLeftAt(m, n), parent, k);
    AllLinkedBothWays(t, parent, n);
    MirrorFlipsLinks(t, parent, LinkOf(t, parent, n).left);
    RightOfParent(t, parent, n);
  }

  /** A node is the left or the right child of its parent, never both. */
  lemma RightOfParent(t: Tree, parent: Node?, n: Node)
    requires Distinct(t) && n in Nodes(t) && parent !in Nodes(t)
    ensures var p := LinkOf(t, parent, n).parent;
      n != Root(t) ==>
        p != null && p in Nodes(t) && ((LinkOf(t, parent, p).left == n) != (LinkOf(t, parent, p).right == n))
  {
    AllLinkedBothWays(t, parent, n);
    if n != Root(t) {
      var p := LinkOf(t, parent, n).parent;
      AllLinkedBothWays(t, parent, p);
    }
  }

  lemma {:induction false} NoLeftChildNoRotation(t: Tree, parent: Node?, n: Node)
    requires Distinct(t) && n in Nodes(t) && LinkOf(t, parent, n).left == null
    ensures RotateRightAt(t, n) == t
    decreases t
  {
    if t.x != n {
      if n in Nodes(t.l) {
        NoLeftChildNoRotation(t.l, t.x, n);
        RotateElsewhere(t.r, n);
      } else {
        NoLeftChildNoRotation(t.r, t.x, n);
        RotateElsewhere(t.l, n);
      }
    }
  }

  // ---------------------------------------------------------------- exchanging two nodes

  ghost function Swapped(a: Node, b: Node, n: Node?): Node? {
    if n == a then b else if n == b then a else n
  }

  /** The tree with `a` and `b` in each other's place. */
  ghost function Exchange(t: Tree, a: Node, b: Node): Tree {
    match t
    case Leaf => Leaf
    case Branch(l, x, r) => Branch(Exchange(l, a, b), Swapped(a, b, x), Exchange(r, a, b))
  }

  ghost function SwappedLink(a: Node, b: Node, k: Link): Link {
    Link(Swapped(a, b, k.left), Swapped(a, b, k.right), Swapped(a, b, k.parent))
  }

  datatype Shape = NoShape | Fork(l: Shape, r: Shape)

  ghost function ShapeOf(t: Tree): Shape {
    match t
    case Leaf => NoShape
    case Branch(l, _, r) => Fork(ShapeOf(l), ShapeOf(r))
  }

  /** An exchange keeps the shape, is its own inverse, and renames two positions of the in-order sequence. */
  lemma {:induction false} ExchangeMovesOnlyTwo(t: Tree, a: Node, b: Node)
    ensures ShapeOf(Exchange(t, a, b)) == ShapeOf(t)
    ensures Exchange(Exchange(t, a, b), a, b) == t
    ensures |InOrder(Exchange(t, a, b))| == |InOrder(t)|
    ensures forall i :: 0 <= i < |InOrder(t)| ==> InOrder(Exchange(t, a, b))[i] == Swapped(a, b, InOrder(t)[i])
    decreases t
  {
    if t.Leaf? {
    } else {
      ExchangeMovesOnlyTwo(t.l, a, b);
      ExchangeMovesOnlyTwo(t.r, a, b);
    }
  }

  lemma {:induction false} ExchangeNodes(t: Tree, a: Node, b: Node)
    ensures forall n {:trigger n in Nodes(Exchange(t, a, b))} :: n in Nodes(Exchange(t, a, b)) <==>
      Swapped(a, b, n) in Nodes(t)
    decreases t
  {
    if t.Leaf? {
    } else {
      ExchangeNodes(t.l, a, b);
      ExchangeNodes(t.r, a, b);
    }
  }

  lemma ExchangeKeepsNodes(t: Tree, a: Node, b: Node)
    requires a in Nodes(t) && b in Nodes(t)
    ensures Nodes(Exchange(t, a, b)) == Nodes(t)
  {
    ExchangeNodes(t, a, b);
    var before, after := Nodes(t), Nodes(Exchange(t, a, b));
    forall n | n in after ensures n in before {
      assert n in after <==> Swapped(a, b, n) in before;
    }
    forall n | n in before ensures n in after {
      assert n in after <==> Swapped(a, b, n) in before;
    }
    assert before == after;
  }

  lemma {:induction false} ExchangeKeepsDistinct(t: Tree, a: Node, b: Node)
    requires Distinct(t)
    ensures Distinct(Exchange(t, a, b))
    decreases t
  {
    if t.Leaf? {
    } else {
      ExchangeKeepsDistinct(t.l, a, b);
      ExchangeKeepsDistinct(t.r, a, b);
      ExchangeNodes(t.l, a, b);
      ExchangeNodes(t.r, a, b);
      var x: Node := Swapped(a, b, t.x);
      assert Swapped(a, b, x) == t.x;
      assert Exchange(t, a, b) == Branch(Exchange(t.l, a, b), x, Exchange(t.r, a, b));
      forall n | n in Nodes(Exchange(t.l, a, b)) ensures n !in Nodes(Exchange(t.r, a, b)) {
        assert Swapped(a, b, n) in Nodes(t.l);
      }
    }
  }

  /** The links of the exchanged tree are the old ones with the two names exchanged throughout. */
  lemma {:induction false} ExchangeLinks(t: Tree, parent: Node?, a: Node, b: Node, n: Node)
    requires Distinct(t) && n in Nodes(t)
    ensures var m: Node := Swapped(a, b, n);
      && m in Nodes(Exchange(t, a, b))
      && LinkOf(Exchange(t, a, b), Swapped(a, b, parent), m) == SwappedLink(a, b, LinkOf(t, parent, n))
    decreases t
  {
    ExchangeNodes(t.l, a, b);
    ExchangeNodes(t.r, a, b);
    if n in Nodes(t.l) {
      ExchangeLinks(t.l, t.x, a, b, n);
    } else if n in Nodes(t.r) {
      ExchangeLinks(t.r, t.x, a, b, n);
    }
  }
}
