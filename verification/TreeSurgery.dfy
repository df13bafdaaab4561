/**
 The pointer surgery on parent-linked trees: the two rotations of the search tree and the exchange of a
 heap node with its child.  Each method rewrites a handful of pointers; what it is proved to leave is
 the pointer structure of a whole tree.
 */
module TreeSurgery {
  import opened ParentTree

  ghost predicate Holds(m: map<Node, Link>)
    reads m.Keys
  {
    forall k :: k in m ==> Link(k.left, k.right, k.parent) == m[k]
  }

  /** The neighbourhood of `n`, its child `y` and that child's inner child `b`: no two of them coincide. */
  ghost predicate Neighbours(m: map<Node, Link>, n: Node, y: Node?, b: Node?) {
    && n in m && y != null && y in m && y != n && m[y].parent == n
    && (b != null ==> b in m && b != n && b != y && m[b].parent == y)
    && var p := m[n].parent;
      p != null ==> p in m && p != n && p != y && p != b && (m[p].left == n) != (m[p].right == n)
  }

  lemma NeighboursInTree(t: Tree, n: Node, y: Node, b: Node?)
    requires Distinct(t) && n in Nodes(t)
    requires LinkOf(t, null, n).left == y || LinkOf(t, null, n).right == y
    requires y in Nodes(t) && (b != null ==> b == LinkOf(t, null, y).left || b == LinkOf(t, null, y).right)
    ensures Neighbours(LinksOf(t), n, y, b)
    ensures n == Root(t) <==> LinkOf(t, null, n).parent == null
  {
    Place(t, n);
    Place(t, y);
    if b != null {
      Place(t, b);
    }
  }

  /** A tree object: its root pointer, and the shape its nodes represent. */
  class TreeObject {
    var root: Node?
    ghost var shape: Tree

    ghost predicate Valid()
      reads this, Nodes(shape)
    {
      Distinct(shape) && root == Root(shape) && Holds(LinksOf(shape))
    }

    /** `leftRotate`, as a change of the links `m`. */
    method RotatePointersLeft(node: Node, ghost m: map<Node, Link>)
      requires Holds(m) && node in m
      requires m[node].right != null ==>
        m[node].right in m && Neighbours(m, node, m[node].right, m[m[node].right].left)
      modifies this`root, m.Keys
      ensures if m[node].right == null then Holds(m) && root == old(root)
        else
          && (forall k :: k in m ==>
                Link(k.left, k.right, k.parent) == LeftRotated(node, m[node], m[m[node].right], k, m[k]))
          && root == if m[node].parent == null then m[node].right else old(root)
    {
      var nodeRight := node.right;
      if nodeRight == null {
        return;
      }
      node.right := nodeRight.left;
      if nodeRight.left != null {
        nodeRight.left.parent := node;
      }
      nodeRight.parent := node.parent;
      if node.parent == null {
        root := nodeRight;
      } else if node.parent.left == node {
        node.parent.left := nodeRight;
      } else {
        node.parent.right := nodeRight;
      }
      nodeRight.left := node;
      node.parent := nodeRight;
    }

    method RotatePointersRight(node: Node, ghost m: map<Node, Link>)
      requires Holds(m) && node in m
      requires m[node].left != null ==>
        m[node].left in m && Neighbours(m, node, m[node].left, m[m[node].left].right)
      modifies this`root, m.Keys
      ensures if m[node].left == null then Holds(m) && root == old(root)
        else
          && (forall k :: k in m ==>
                Link(k.left, k.right, k.parent) == RightRotated(node, m[node], m[m[node].left], k, m[k]))
          && root == if m[node].parent == null then m[node].left else old(root)
    {
      var nodeLeft := node.left;
      if nodeLeft == null {
        return;
      }
      node.left := nodeLeft.right;
      if nodeLeft.right != null {
        nodeLeft.right.parent := node;
      }
      nodeLeft.parent := node.parent;
      if node.parent == null {
        root := nodeLeft;
      } else if node.parent.left == node {
        node.parent.left := nodeLeft;
      } else {
        node.parent.right := nodeLeft;
      }
      nodeLeft.right := node;
      node.parent := nodeLeft;
    }

    method LeftRotate(node: Node)
      requires Valid() && node in Nodes(shape)
      modifies this, Nodes(shape)
      ensures Valid() && shape == RotateLeftAt(old(shape), node)
    {
      ghost var t, m := shape, LinksOf(shape);
      if node.right != null {
        RotateLeftLinks(t, null, node, node);
        var inner: Node? := m[m[node].right].left;
        Place(t, node.right);
        NeighboursInTree(t, node, node.right, inner);
      } else {
        NoRightChildNoRotation(t, null, node);
      }
      RotateLeftKeepsNodes(t, node);
      shape := RotateLeftAt(t, node);
      RotatePointersLeft(node, m);
      if m[node].right != null {
        forall k | k in Nodes(t) ensures LinkOf(shape, null, k) == LeftRotatedLink(t, null, node, k) {
          RotateLeftLinks(t, null, node, k);
        }
      }
    }

    method RightRotate(node: Node)
      requires Valid() && node in Nodes(shape)
      modifies this, Nodes(shape)
      ensures Valid() && shape == RotateRightAt(old(shape), node)
    {
      ghost var t, m := shape, LinksOf(shape);
      if node.left != null {
        RotateRightLinks(t, null, node, node);
        var inner: Node? := m[m[node].left].right;
        Place(t, node.left);
        NeighboursInTree(t, node, node.left, inner);
      } else {
        NoLeftChildNoRotation(t, null, node);
      }
      RotateRightKeepsNodes(t, node);
      shape := RotateRightAt(t, node);
      RotatePointersRight(node, m);
      if m[node].left != null {
        forall k | k in Nodes(t) ensures LinkOf(shape, null, k) == RightRotatedLink(t, null, node, k) {
          RotateRightLinks(t, null, node, k);
        }
      }
    }

    /** Left at `node`, then right at the child that came up: every pointer is back where it was. */
    method RotateThereAndBack(node: Node)
      requires Valid() && node in Nodes(shape) && node.right != null
      modifies this, Nodes(shape)
      ensures Valid() && shape == old(shape) && root == old(root)
      ensures forall n :: n in Nodes(shape) && old(allocated(n)) ==>
        n.left == old(n.left) && n.right == old(n.right) && n.parent == old(n.parent)
    {
      ghost var m := LinksOf(shape);
      assert Holds(m);
      var up := node.right;
      RotationsInvert(shape, node, null);
      RotateLeftKeepsNodes(shape, node);
      RightChildBelow(shape, null, node);
      LeftRotate(node);
      RightRotate(up);
      assert Holds(m);
    }

    /** The middle of `swap_heap_node`: the pointers between the two nodes and to their children and sibling. */
    method RelinkBelow(parent: Node, child: Node, ghost m: map<Node, Link>)
      requires Exchangeable(m, parent, child) && Holds(m[parent := m[child]][child := m[parent]])
      modifies m.Keys
      ensures forall k :: k in m ==> Link(k.left, k.right, k.parent) == RelinkedBelow(m, parent, child, k)
    {
      hide MentionsKnown, Above;
      parent.parent := child;
      var sibling;
      if child.left == child {
        child.left := parent;
        sibling := child.right;
      } else {
        child.right := parent;
        sibling := child.left;
      }
      if sibling != null {
        sibling.parent := child;
      }
      if parent.left != null {
        parent.left.parent := parent;
      }
      if parent.right != null {
        parent.right.parent := parent;
      }
    }

    /** Its end: the pointer from above, which is the root pointer or one of the grandparent's. */
    method RelinkAbove(parent: Node, child: Node, ghost m: map<Node, Link>)
      requires Exchangeable(m, parent, child)
      requires forall k :: k in m ==> Link(k.left, k.right, k.parent) == RelinkedBelow(m, parent, child, k)
      modifies this`root, m.Keys
      ensures forall k :: k in m ==> Link(k.left, k.right, k.parent) == Relinked(m, parent, child, k)
      ensures root == if m[parent].parent == null then child else old(root)
    {
      hide MentionsKnown;
      if child.parent == null {
        root := child;
      } else if child.parent.left == parent {
        child.parent.left := child;
      } else {
        child.parent.right := child;
      }
    }

    /** `swap_heap_node`, as a change of the links `m`: first the two records trade all their pointers. */
    method SwapPointers(parent: Node, child: Node, ghost m: map<Node, Link>)
      requires Holds(m) && Exchangeable(m, parent, child)
      modifies this`root, m.Keys
      ensures forall k :: k in m ==>
        Link(k.left, k.right, k.parent) == SwappedLink(parent, child, m[Swapped(parent, child, k)])
      ensures root == if m[parent].parent == null then child else old(root)
    {
      hide MentionsKnown, Above, Below;
      var left, right, up := parent.left, parent.right, parent.parent;
      parent.left, parent.right, parent.parent := child.left, child.right, child.parent;
      child.left, child.right, child.parent := left, right, up;
      assert m[parent := m[child]][child := m[parent]].Keys == m.Keys;
      RelinkBelow(parent, child, m);
      RelinkAbove(parent, child, m);
      forall k | k in m
        ensures Relinked(m, parent, child, k) == SwappedLink(parent, child, m[Swapped(parent, child, k)])
      {
        RelinkedIsSwapped(m, parent, child, k);
      }
    }

    /** A parent and its direct child change places; every other node keeps its own. */
    method SwapHeapNode(parent: Node, child: Node)
      requires Valid() && parent in Nodes(shape)
      requires parent.left == child || parent.right == child
      modifies this, Nodes(shape)
      ensures Valid() && shape == Exchange(old(shape), parent, child)
    {
      ghost var t, m := shape, LinksOf(shape);
      ExchangeableInTree(t, parent, child);
      ExchangeKeepsNodes(t, parent, child);
      ExchangeKeepsDistinct(t, parent, child);
      shape := Exchange(t, parent, child);
      SwapPointers(parent, child, m);
      forall k | k in Nodes(shape)
        ensures LinkOf(shape, null, k) == SwappedLink(parent, child, m[Swapped(parent, child, k)])
      {
        ExchangeLinks(t, null, parent, child, Swapped(parent, child, k));
      }
    }
  }

  /** `child` hangs directly below `parent`, and only their neighbours point at either. */
  ghost predicate Exchangeable(m: map<Node, Link>, parent: Node, child: Node) {
    && parent in m && child in m && parent != child && m[child].parent == parent
    && (m[parent].left == child) != (m[parent].right == child)
    && Below(m, parent) && Below(m, child) && m[child].left != parent && m[child].right != parent
    && Above(m, parent, child)
    && (forall k :: k in m ==> MentionsKnown(m, parent, child, k))
  }

  ghost predicate Above(m: map<Node, Link>, parent: Node, child: Node)
    requires parent in m && child in m
  {
    var g := m[parent].parent;
    g != null ==>
      && g in m && g != parent && g != child && (m[g].left == parent) != (m[g].right == parent)
      && m[child].left != g && m[child].right != g && m[parent].left != g && m[parent].right != g
  }

  ghost predicate Below(m: map<Node, Link>, n: Node)
    requires n in m
  {
    var l, r := m[n].left, m[n].right;
    && (l != null ==> l in m && l != n && m[l].parent == n && l != r)
    && (r != null ==> r in m && r != n && m[r].parent == n)
  }

  /** Who may have `parent` or `child` among its links. */
  ghost predicate MentionsKnown(m: map<Node, Link>, parent: Node, child: Node, k: Node)
    requires parent in m && child in m && k in m
  {
    && (m[k].left == parent || m[k].right == parent ==> k == m[parent].parent)
    && (m[k].left == child || m[k].right == child ==> k == parent)
    && (m[k].parent == parent ==> k == m[parent].left || k == m[parent].right)
    && (m[k].parent == child ==> k == m[child].left || k == m[child].right)
  }

  /** The links of `k` when `parent` and `child` have changed places, but not yet for the one above them. */
  ghost function RelinkedBelow(m: map<Node, Link>, parent: Node, child: Node, k: Node): Link
    requires parent in m && child in m && k in m
  {
    var p, c := m[parent], m[child];
    if k == parent then Link(c.left, c.right, child)
    else if k == child then
      Link(if p.left == child then parent else p.left, if p.right == child then parent else p.right, p.parent)
    else if k == p.left || k == p.right then m[k].(parent := child)
    else if k == c.left || k == c.right then m[k].(parent := parent)
    else m[k]
  }

  ghost function Relinked(m: map<Node, Link>, parent: Node, child: Node, k: Node): Link
    requires parent in m && child in m && k in m
  {
    var below := RelinkedBelow(m, parent, child, k);
    if k != m[parent].parent then below
    else if below.left == parent then below.(left := child)
    else below.(right := child)
  }

  lemma RelinkedIsSwapped(m: map<Node, Link>, parent: Node, child: Node, k: Node)
    requires Exchangeable(m, parent, child) && k in m
    ensures Swapped(parent, child, k) in m
    ensures Relinked(m, parent, child, k) == SwappedLink(parent, child, m[Swapped(parent, child, k)])
  {
    assert MentionsKnown(m, parent, child, k);
  }

  lemma ExchangeableInTree(t: Tree, parent: Node, child: Node)
    requires Distinct(t) && parent in Nodes(t)
    requires LinkOf(t, null, parent).left == child || LinkOf(t, null, parent).right == child
    ensures child in Nodes(t) && Exchangeable(LinksOf(t), parent, child)
    ensures parent == Root(t) <==> LinkOf(t, null, parent).parent == null
    ensures child != Root(t)
  {
    var m := LinksOf(t);
    Place(t, parent);
    Place(t, child);
    forall k | k in m ensures MentionsKnown(m, parent, child, k) {
      Place(t, k);
    }
    forall k | k in Nodes(t) ensures LinkedBothWays(t, null, k) {
      Place(t, k);
    }
    var g := m[parent].parent;
    if g != null {
      forall k | k in Nodes(t) && m[k].parent != null ensures Depth(t, k) == Depth(t, m[k].parent) + 1 {
        Place(t, k);
      }
    }
  }
}
