// Red-black tree of timer nodes: stu_rbtree.c and stu_rbtree.h.
//
// Nodes are heap objects that the tree links in place, with parent pointers and one
// shared sentinel. Four ghost fields per node make every invariant local to a node and
// its two children: the node sits at index `pos` of the in-order sequence `order`, its
// subtree is exactly order[lo..hi], and `bh` counts the black nodes on every path from
// it down to the sentinel. The root's parent pointer is left unconstrained, as in the
// program, where a delete can leave it stale.
module RbTree {
  import opened Words

  lemma {:induction false} Pow2Monotone(j: nat, k: nat)
    requires j <= k
    ensures Pow2(j) <= Pow2(k)
  {
    if j < k {
      Pow2Monotone(j, k - 1);
    }
  }

  lemma {:induction false} Pow2Double(k: nat)
    ensures Pow2(2 * k) == Pow2(k) * Pow2(k)
  {
    if k > 0 {
      Pow2Double(k - 1);
      var p := Pow2(k - 1);
      assert Pow2(2 * k) == 2 * Pow2(2 * k - 1) == 4 * Pow2(2 * (k - 1));
      assert (2 * p) * (2 * p) == 4 * (p * p);
    }
  }

  lemma Product(a: int, b: int)
    requires 0 <= a <= b
    ensures a * a <= b * b
  {
    assert a * a <= a * b <= b * b;
  }

  class Node {
    var key: Word
    var left: Node?
    var right: Node?
    var parent: Node?
    var red: bool

    ghost var time: int  // the key before truncation to 64 bits
    ghost var lo: int
    ghost var pos: int
    ghost var hi: int
    ghost var bh: int

    constructor ()
      ensures left == right == parent == null
    {
      key := 0;
      left, right, parent := null, null, null;
      red := false;
    }
  }

  class Tree {
    var root: Node
    const sentinel: Node

    ghost var nodes: set<Node>
    ghost var order: seq<Node>

    // ----- Invariants ---------------------------------------------------------------

    ghost predicate SpanOk(n: Node)
      reads this, n
    {
      0 <= n.lo <= n.pos < n.hi <= |order| && order[n.pos] == n
    }

    ghost predicate LeftOk(n: Node)
      reads this, nodes, n
    {
      if n.left == sentinel then n.lo == n.pos
      else n.left in nodes && n.left.parent == n && n.left.lo == n.lo && n.left.hi == n.pos
    }

    ghost predicate RightOk(n: Node)
      reads this, nodes, n
    {
      if n.right == sentinel then n.hi == n.pos + 1
      else n.right in nodes && n.right.parent == n && n.right.lo == n.pos + 1 && n.right.hi == n.hi
    }

    ghost predicate UpOk(n: Node)
      reads this, nodes, n
    {
      n != root ==> n.parent in nodes && (n.parent.left == n || n.parent.right == n)
    }

    ghost predicate Local(n: Node)
      reads this, nodes, n
    {
      SpanOk(n) && LeftOk(n) && RightOk(n) && UpOk(n)
    }

    // The pointers form a binary tree whose in-order sequence is `order`.
    ghost predicate Shape()
      reads this, nodes
    {
      && sentinel !in nodes
      && (if root == sentinel then order == []
          else root in nodes && root.lo == 0 && root.hi == |order|)
      && (forall i :: 0 <= i < |order| ==> order[i] in nodes && order[i].pos == i)
      && (forall n {:trigger Local(n)} :: n in nodes ==> Local(n))
    }

    // Colours and black heights at n. A red child `e` of a red parent is excused, and
    // the left (dl) or right (!dl) subtree of `d` is one black node short.
    ghost predicate Hue(n: Node, e: Node?, d: Node?, dl: bool)
      reads this, nodes, sentinel, n
    {
      && (n.left == sentinel || n.left in nodes)
      && (n.right == sentinel || n.right in nodes)
      && (n.red ==> (n.left.red ==> n.left == e) && (n.right.red ==> n.right == e))
      && 0 <= n.bh
      && n.bh == n.left.bh + (if n == d && dl then 1 else 0) + (if n.red then 0 else 1)
      && n.bh == n.right.bh + (if n == d && !dl then 1 else 0) + (if n.red then 0 else 1)
    }

    ghost predicate Balanced(e: Node?, d: Node?, dl: bool)
      reads this, nodes, sentinel
    {
      && !sentinel.red && sentinel.bh == 0
      && (forall n {:trigger Hue(n, e, d, dl)} :: n in nodes ==> Hue(n, e, d, dl))
    }

    ghost predicate Sorted()
      reads this, nodes, order
    {
      && (forall n :: n in order ==> n.key == Wrap(n.time))
      && (forall i, j :: 0 <= i < j < |order| ==> order[i].time <= order[j].time)
    }

    // A red-black tree in deadline order.
    ghost predicate Valid()
      reads this, nodes, sentinel, order
    {
      Shape() && Balanced(null, null, true) && !root.red && Sorted()
    }

    constructor (s: Node)
      modifies s
      ensures Valid() && sentinel == s && root == s && nodes == {} && order == []
    {
      sentinel := s;
      root := s;
      nodes, order := {}, [];
      new;
      s.red := false;
      s.bh := 0;
    }

    // ----- Left rotation -------------------------------------------------------------

    // What a left rotation at x changes: y is x's right child, b is y's left child and p
    // is x's parent. Colours and black heights are not mentioned.
    twostate predicate LeftRotated(new x: Node, new y: Node, new b: Node?, new p: Node?)
      reads this, nodes
    {
      && nodes == old(nodes) && order == old(order) && x in nodes && y in nodes && x != y
      && old(x.right) == y && old(y.left) == b && old(x.parent) == p
      && root == (if old(root) == x then y else old(root))
      && x.left == old(x.left) && x.right == b && x.parent == y && x.lo == old(x.lo) && x.hi == old(y.pos)
      && y.left == x && y.right == old(y.right) && y.parent == p && y.lo == old(x.lo) && y.hi == old(y.hi)
      && (b in nodes ==>
            && b != x && b != y && b.parent == x && b.left == old(b.left) && b.right == old(b.right)
            && b.lo == old(b.lo) && b.hi == old(b.hi))
      && (old(root) != x ==>
            && p in nodes && p != x && p != y && p != b
            && p.left == (if old(p.left) == x then y else old(p.left))
            && p.right == (if old(p.left) == x then old(p.right) else y)
            && p.parent == old(p.parent) && p.lo == old(p.lo) && p.hi == old(p.hi))
      && (forall n {:trigger n.parent} {:trigger n.left} {:trigger n.right} {:trigger n.lo} {:trigger n.hi} ::
            n in nodes && n != x && n != y && n != b && (old(root) != x ==> n != p) ==>
              && n.left == old(n.left) && n.right == old(n.right) && n.parent == old(n.parent)
              && n.lo == old(n.lo) && n.hi == old(n.hi))
      && (forall n {:trigger n.pos} :: n in nodes ==> n.pos == old(n.pos))
    }

    // The facts about the old state that the per-node lemmas on a left rotation share.
    twostate predicate LeftRotation(new x: Node, new y: Node, new b: Node?, new p: Node?)
      reads this, nodes
    {
      && LeftRotated(x, y, b, p) && sentinel !in nodes
      && (x == old(root) ==> old(x.lo) == 0 && old(x.hi) == |order|)
      && old(Local(x)) && old(Local(y))
      && (b != sentinel ==> b in nodes && old(Local(b)))
      && (x != old(root) ==> old(Local(p)))
    }

    twostate lemma LeftRotationLinks(new x: Node, new y: Node, new b: Node?, new p: Node?, new n: Node)
      requires LeftRotation(x, y, b, p) && n in nodes && old(Local(n))
      ensures SpanOk(n) && LeftOk(n) && RightOk(n)
    {
    }

    twostate lemma LeftRotationUp(new x: Node, new y: Node, new b: Node?, new p: Node?, new n: Node)
      requires LeftRotation(x, y, b, p) && n in nodes && old(Local(n))
      ensures UpOk(n)
    {
    }

    twostate lemma LeftRotationShape(new x: Node, new y: Node, new b: Node?, new p: Node?)
      requires LeftRotated(x, y, b, p) && old(Shape())
      ensures Shape()
    {
      assert old(Local(x)) && old(Local(y));
      if b != sentinel { assert old(Local(b)); }
      if x != old(root) { assert old(Local(p)); }
      forall n | n in nodes ensures Local(n) {
        assert old(Local(n));
        LeftRotationLinks(x, y, b, p, n);
        LeftRotationUp(x, y, b, p, n);
      }
    }

    // The nodes that a left rotation touches are pairwise different.
    lemma LeftNeighbours(node: Node)
      requires Shape() && node in nodes && node.right in nodes
      ensures var y, p := node.right, node.parent; var b := y.left;
        && y != node && b != y && b != node && (b == sentinel || b in nodes)
        && (node != root ==> p in nodes && p != node && p != y && p != b && (p.left == node || p.right == node))
    {
      assert Local(node) && Local(node.right);
      assert node.right.left != sentinel ==> Local(node.right.left);
      assert node != root ==> Local(node.parent);
    }

    method LeftRotate(node: Node, ghost y: Node, ghost b: Node?, ghost p: Node?)
      requires node in nodes && node.right == y && y in nodes && y.left == b && node.parent == p
      requires sentinel !in nodes && (b == sentinel || b in nodes)
      requires y != node && b != y && b != node
      requires node != root ==> p in nodes && p != node && p != y && p != b && (p.left == node || p.right == node)
      modifies this`root, node`right, node`parent, node`hi, y`left, y`parent, y`lo
      modifies (if b == sentinel then {} else {b})`parent
      modifies (if node == root then {} else {p})`left, (if node == root then {} else {p})`right
      ensures LeftRotated(node, y, b, p)
    {
      var temp := node.right;
      node.right := temp.left;
      if temp.left != sentinel {
        temp.left.parent := node;
      }

      temp.parent := node.parent;
      if node == root {
        root := temp;
      } else if node == node.parent.left {
        node.parent.left := temp;
      } else {
        node.parent.right := temp;
      }

      temp.left := node;
      node.parent := temp;
      temp.lo, node.hi := node.lo, temp.pos;
    }

    // Rotating a red edge x-y with a swap of colours keeps all black heights and leaves
    // no red child of y in excess.
    twostate lemma LeftRedEdgeHue(new x: Node, new y: Node, new b: Node?, new p: Node?, new n: Node,
                                  new e: Node?, new d: Node?, new dl: bool)
      requires LeftRotation(x, y, b, p) && n in nodes && old(Local(n))
      requires old(!x.red && y.red) && old(x.left != null && !x.left.red) && old(b != null && !b.red)
      requires e == null || e == old(y.right)
      requires (e == null || e in nodes) && (d == null || d in nodes)
      requires d != y && (d == x ==> dl == true)
      requires x.red && !y.red && x.bh == old(y.bh) && y.bh == old(x.bh)
      requires !sentinel.red && !old(sentinel.red) && sentinel.bh == old(sentinel.bh)
      requires forall m {:trigger m.red} {:trigger m.bh} :: m in nodes && m != x && m != y ==>
                 m.red == old(m.red) && m.bh == old(m.bh)
      requires old(Hue(n, e, d, dl)) && old(Hue(x, e, d, dl)) && old(Hue(y, e, d, dl))
      ensures Hue(n, null, d, dl)
    {
    }

    twostate lemma LeftRedEdge(new x: Node, new y: Node, new b: Node?, new p: Node?,
                               new e: Node?, new d: Node?, new dl: bool)
      requires LeftRotated(x, y, b, p) && old(Shape())
      requires old(!x.red && y.red) && old(x.left != null && !x.left.red) && old(b != null && !b.red)
      requires e == null || e == old(y.right)
      requires (e == null || e in nodes) && (d == null || d in nodes)
      requires d != y && (d == x ==> dl == true)
      requires old(Balanced(e, d, dl))
      requires x.red && !y.red && x.bh == old(y.bh) && y.bh == old(x.bh)
      requires sentinel.red == old(sentinel.red) && sentinel.bh == old(sentinel.bh)
      requires forall m {:trigger m.red} {:trigger m.bh} :: m in nodes && m != x && m != y ==>
                 m.red == old(m.red) && m.bh == old(m.bh)
      ensures Balanced(null, d, dl)
    {
      assert old(Local(x)) && old(Local(y)) && old(Hue(x, e, d, dl)) && old(Hue(y, e, d, dl));
      if b != sentinel { assert old(Local(b)); }
      if x != old(root) { assert old(Local(p)); }
      forall n | n in nodes ensures Hue(n, null, d, dl) {
        assert old(Local(n)) && old(Hue(n, e, d, dl));
        LeftRedEdgeHue(x, y, b, p, n, e, d, dl);
      }
    }

    // black(y); red(node); left_rotate(node): used by the insert fixup and twice by the
    // delete fixup.
    method RecolourAndRotateLeft(node: Node, ghost e: Node?, ghost d: Node?, ghost dl: bool)
      requires Shape() && Balanced(e, d, dl)
      requires node in nodes && !node.red && node.right in nodes && node.right.red
      requires node.left != null && !node.left.red
      requires node.right.left != null && !node.right.left.red
      requires e == null || (e in nodes && e == node.right.right)
      requires d == null || d in nodes
      requires d != node.right && (d == node ==> dl == true)
      modifies this`root, nodes`left, nodes`right, nodes`parent, nodes`lo, nodes`hi, nodes`red, nodes`bh
      ensures Shape() && Balanced(null, d, dl)
      ensures var y := old(node.right); var b := old(y.left); var p := old(node.parent);
        && LeftRotated(node, y, b, p)
        && node.red && !y.red && y.bh == old(node.bh) && node.bh == old(y.bh)
        && (forall m {:trigger m.red} {:trigger m.bh} :: m in nodes && m != node && m != y ==>
              m.red == old(m.red) && m.bh == old(m.bh))
        && (old(!root.red) ==> !root.red)
    {
      ghost var y, b, p := node.right, node.right.left, node.parent;
      LeftNeighbours(node);
      node.right.red := false;
      node.red := true;
      y.bh, node.bh := node.bh, y.bh;
      LeftRotate(node, y, b, p);
      LeftRotationShape(node, y, b, p);
      LeftRedEdge(node, y, b, p, e, d, dl);
    }

    // The inner case of the insert fixup: x and its right child y are both red and y is the
    // excused node; after a left rotation x is.
    twostate lemma LeftRedPairHue(new x: Node, new y: Node, new b: Node?, new p: Node?, new n: Node)
      requires LeftRotation(x, y, b, p) && n in nodes && old(Local(n))
      requires old(x.red && y.red) && old(x.left != null && b != null && !sentinel.red)
      requires sentinel.red == old(sentinel.red) && sentinel.bh == old(sentinel.bh)
      requires forall m {:trigger m.red} {:trigger m.bh} :: m in nodes ==> m.red == old(m.red) && m.bh == old(m.bh)
      requires old(Hue(n, y, null, true)) && old(Hue(x, y, null, true)) && old(Hue(y, y, null, true))
      requires p in nodes ==> old(Hue(p, y, null, true))
      ensures Hue(n, x, null, true)
    {
    }

    twostate lemma LeftRedPair(new x: Node, new y: Node, new b: Node?, new p: Node?)
      requires LeftRotated(x, y, b, p) && old(Shape()) && old(Balanced(y, null, true))
      requires old(x.red && y.red)
      requires sentinel.red == old(sentinel.red) && sentinel.bh == old(sentinel.bh)
      requires forall m {:trigger m.red} {:trigger m.bh} :: m in nodes ==> m.red == old(m.red) && m.bh == old(m.bh)
      ensures Balanced(x, null, true)
    {
      assert old(Local(x)) && old(Local(y)) && old(Hue(x, y, null, true)) && old(Hue(y, y, null, true));
      if b != sentinel { assert old(Local(b)); }
      if x != old(root) { assert old(Local(p)) && old(Hue(p, y, null, true)); }
      forall n | n in nodes ensures Hue(n, x, null, true) {
        assert old(Local(n)) && old(Hue(n, y, null, true));
        LeftRedPairHue(x, y, b, p, n);
      }
    }

    method RotateRedPairLeft(node: Node)
      requires Shape() && Balanced(node.right, null, true)
      requires node in nodes && node.red && node != root && node.right in nodes && node.right.red
      modifies this`root, nodes`left, nodes`right, nodes`parent, nodes`lo, nodes`hi
      ensures Shape() && Balanced(node, null, true) && root == old(root)
      ensures var y := old(node.right); var b := old(y.left); var p := old(node.parent);
        LeftRotated(node, y, b, p)
    {
      ghost var y, b, p := node.right, node.right.left, node.parent;
      LeftNeighbours(node);
      LeftRotate(node, y, b, p);
      LeftRotationShape(node, y, b, p);
      LeftRedPair(node, y, b, p);
    }

    // The last case of the delete fixup: x is one black node short on its left, and its
    // black right child y has a red right child.
    twostate lemma LeftClosedHue(new x: Node, new y: Node, new b: Node?, new p: Node?, new n: Node)
      requires LeftRotation(x, y, b, p) && n in nodes && old(Local(n))
      requires old(!y.red && y.right in nodes && y.right.red && Local(y.right))
      requires old(x.left != null && b != null && !sentinel.red && sentinel.bh == 0)
      requires sentinel.red == old(sentinel.red) && sentinel.bh == old(sentinel.bh)
      requires !x.red && y.red == old(x.red) && !y.right.red
      requires x.bh == old(y.bh) && y.bh == old(x.bh) && y.right.bh == old(y.bh)
      requires forall m {:trigger m.red} {:trigger m.bh} :: m in nodes && m != x && m != y && m != y.right ==>
                 m.red == old(m.red) && m.bh == old(m.bh)
      requires old(Hue(n, null, x, true)) && old(Hue(x, null, x, true)) && old(Hue(y, null, x, true))
      requires old(Hue(y.right, null, x, true))
      ensures Hue(n, null, null, true)
    {
    }

    twostate lemma LeftClosed(new x: Node, new y: Node, new b: Node?, new p: Node?)
      requires LeftRotated(x, y, b, p) && old(Shape()) && old(Balanced(null, x, true))
      requires old(!y.red && y.right in nodes && y.right.red)
      requires sentinel.red == old(sentinel.red) && sentinel.bh == old(sentinel.bh)
      requires !x.red && y.red == old(x.red) && !y.right.red
      requires x.bh == old(y.bh) && y.bh == old(x.bh) && y.right.bh == old(y.bh)
      requires forall m {:trigger m.red} {:trigger m.bh} :: m in nodes && m != x && m != y && m != y.right ==>
                 m.red == old(m.red) && m.bh == old(m.bh)
      ensures Balanced(null, null, true)
    {
      assert old(Local(x)) && old(Local(y)) && old(Hue(x, null, x, true)) && old(Hue(y, null, x, true));
      assert old(Local(y.right)) && old(Hue(y.right, null, x, true));
      if b != sentinel { assert old(Local(b)); }
      if x != old(root) { assert old(Local(p)); }
      forall n | n in nodes ensures Hue(n, null, null, true) {
        assert old(Local(n)) && old(Hue(n, null, x, true));
        LeftClosedHue(x, y, b, p, n);
      }
    }

    // copy_color(w, node); black(node); black(w.right); left_rotate(node)
    method CloseShortageLeft(node: Node, w: Node)
      requires Shape() && Balanced(null, node, true)
      requires node in nodes && w in nodes && node.right == w && !w.red && w.right in nodes && w.right.red
      modifies this`root, nodes`left, nodes`right, nodes`parent, nodes`lo, nodes`hi, nodes`red, nodes`bh
      ensures Shape() && Balanced(null, null, true)
      ensures root.red == old(root.red)
    {
      ghost var y, b, p := node.right, node.right.left, node.parent;
      LeftNeighbours(node);
      assert Local(node) && Local(w) && Local(w.right);
      ClosingColours(node, w, w.right);
      LeftRotate(node, y, b, p);
      LeftRotationShape(node, y, b, p);
      LeftClosed(node, y, b, p);
    }

    // ----- Right rotation -------------------------------------------------------------

    // What a right rotation at x changes: y is x's left child, b is y's right child and p
    // is x's parent. Colours and black heights are not mentioned.
    twostate predicate RightRotated(new x: Node, new y: Node, new b: Node?, new p: Node?)
      reads this, nodes
    {
      && nodes == old(nodes) && order == old(order) && x in nodes && y in nodes && x != y
      && old(x.left) == y && old(y.right) == b && old(x.parent) == p
      && root == (if old(root) == x then y else old(root))
      && x.right == old(x.right) && x.left == b && x.parent == y && x.hi == old(x.hi) && x.lo == old(y.pos) + 1
      && y.right == x && y.left == old(y.left) && y.parent == p && y.hi == old(x.hi) && y.lo == old(y.lo)
      && (b in nodes ==>
            && b != x && b != y && b.parent == x && b.right == old(b.right) && b.left == old(b.left)
            && b.hi == old(b.hi) && b.lo == old(b.lo))
      && (old(root) != x ==>
            && p in nodes && p != x && p != y && p != b
            && p.right == (if old(p.right) == x then y else old(p.right))
            && p.left == (if old(p.right) == x then old(p.left) else y)
            && p.parent == old(p.parent) && p.hi == old(p.hi) && p.lo == old(p.lo))
      && (forall n {:trigger n.parent} {:trigger n.right} {:trigger n.left} {:trigger n.hi} {:trigger n.lo} ::
            n in nodes && n != x && n != y && n != b && (old(root) != x ==> n != p) ==>
              && n.right == old(n.right) && n.left == old(n.left) && n.parent == old(n.parent)
              && n.hi == old(n.hi) && n.lo == old(n.lo))
      && (forall n {:trigger n.pos} :: n in nodes ==> n.pos == old(n.pos))
    }

    // The facts about the old state that the per-node lemmas on a right rotation share.
    twostate predicate RightRotation(new x: Node, new y: Node, new b: Node?, new p: Node?)
      reads this, nodes
    {
      && RightRotated(x, y, b, p) && sentinel !in nodes
      && (x == old(root) ==> old(x.hi) == |order| && old(x.lo) == 0)
      && old(Local(x)) && old(Local(y))
      && (b != sentinel ==> b in nodes && old(Local(b)))
      && (x != old(root) ==> old(Local(p)))
    }

    twostate lemma RightRotationLinks(new x: Node, new y: Node, new b: Node?, new p: Node?, new n: Node)
      requires RightRotation(x, y, b, p) && n in nodes && old(Local(n))
      ensures SpanOk(n) && LeftOk(n) && RightOk(n)
    {
    }

    twostate lemma RightRotationUp(new x: Node, new y: Node, new b: Node?, new p: Node?, new n: Node)
      requires RightRotation(x, y, b, p) && n in nodes && old(Local(n))
      ensures UpOk(n)
    {
    }

    twostate lemma RightRotationShape(new x: Node, new y: Node, new b: Node?, new p: Node?)
      requires RightRotated(x, y, b, p) && old(Shape())
      ensures Shape()
    {
      assert old(Local(x)) && old(Local(y));
      if b != sentinel { assert old(Local(b)); }
      if x != old(root) { assert old(Local(p)); }
      forall n | n in nodes ensures Local(n) {
        assert old(Local(n));
        RightRotationLinks(x, y, b, p, n);
        RightRotationUp(x, y, b, p, n);
      }
    }

    // The nodes that a right rotation touches are pairwise different.
    lemma RightNeighbours(node: Node)
      requires Shape() && node in nodes && node.left in nodes
      ensures var y, p := node.left, node.parent; var b := y.right;
        && y != node && b != y && b != node && (b == sentinel || b in nodes)
        && (node != root ==> p in nodes && p != node && p != y && p != b && (p.right == node || p.left == node))
    {
      assert Local(node) && Local(node.left);
      assert node.left.right != sentinel ==> Local(node.left.right);
      assert node != root ==> Local(node.parent);
    }

    method RightRotate(node: Node, ghost y: Node, ghost b: Node?, ghost p: Node?)
      requires node in nodes && node.left == y && y in nodes && y.right == b && node.parent == p
      requires sentinel !in nodes && (b == sentinel || b in nodes)
      requires y != node && b != y && b != node
      requires node != root ==> p in nodes && p != node && p != y && p != b && (p.right == node || p.left == node)
      modifies this`root, node`left, node`parent, node`lo, y`right, y`parent, y`hi
      modifies (if b == sentinel then {} else {b})`parent
      modifies (if node == root then {} else {p})`left, (if node == root then {} else {p})`right
      ensures RightRotated(node, y, b, p)
    {
      var temp := node.left;
      node.left := temp.right;
      if temp.right != sentinel {
        temp.right.parent := node;
      }

      temp.parent := node.parent;
      if node == root {
        root := temp;
      } else if node == node.parent.right {
        node.parent.right := temp;
      } else {
        node.parent.left := temp;
      }

      temp.right := node;
      node.parent := temp;
      temp.hi, node.lo := node.hi, temp.pos + 1;
    }

    // Rotating a red edge x-y with a swap of colours keeps all black heights and leaves
    // no red child of y in excess.
    twostate lemma RightRedEdgeHue(new x: Node, new y: Node, new b: Node?, new p: Node?, new n: Node,
                                  new e: Node?, new d: Node?, new dl: bool)
      requires RightRotation(x, y, b, p) && n in nodes && old(Local(n))
      requires old(!x.red && y.red) && old(x.right != null && !x.right.red) && old(b != null && !b.red)
      requires e == null || e == old(y.left)
      requires (e == null || e in nodes) && (d == null || d in nodes)
      requires d != y && (d == x ==> dl == false)
      requires x.red && !y.red && x.bh == old(y.bh) && y.bh == old(x.bh)
      requires !sentinel.red && !old(sentinel.red) && sentinel.bh == old(sentinel.bh)
      requires forall m {:trigger m.red} {:trigger m.bh} :: m in nodes && m != x && m != y ==>
                 m.red == old(m.red) && m.bh == old(m.bh)
      requires old(Hue(n, e, d, dl)) && old(Hue(x, e, d, dl)) && old(Hue(y, e, d, dl))
      ensures Hue(n, null, d, dl)
    {
    }

    twostate lemma RightRedEdge(new x: Node, new y: Node, new b: Node?, new p: Node?,
                               new e: Node?, new d: Node?, new dl: bool)
      requires RightRotated(x, y, b, p) && old(Shape())
      requires old(!x.red && y.red) && old(x.right != null && !x.right.red) && old(b != null && !b.red)
      requires e == null || e == old(y.left)
      requires (e == null || e in nodes) && (d == null || d in nodes)
      requires d != y && (d == x ==> dl == false)
      requires old(Balanced(e, d, dl))
      requires x.red && !y.red && x.bh == old(y.bh) && y.bh == old(x.bh)
      requires sentinel.red == old(sentinel.red) && sentinel.bh == old(sentinel.bh)
      requires forall m {:trigger m.red} {:trigger m.bh} :: m in nodes && m != x && m != y ==>
                 m.red == old(m.red) && m.bh == old(m.bh)
      ensures Balanced(null, d, dl)
    {
      assert old(Local(x)) && old(Local(y)) && old(Hue(x, e, d, dl)) && old(Hue(y, e, d, dl));
      if b != sentinel { assert old(Local(b)); }
      if x != old(root) { assert old(Local(p)); }
      forall n | n in nodes ensures Hue(n, null, d, dl) {
        assert old(Local(n)) && old(Hue(n, e, d, dl));
        RightRedEdgeHue(x, y, b, p, n, e, d, dl);
      }
    }

    // black(y); red(node); right_rotate(node): used by the insert fixup and twice by the
    // delete fixup.
    method RecolourAndRotateRight(node: Node, ghost e: Node?, ghost d: Node?, ghost dl: bool)
      requires Shape() && Balanced(e, d, dl)
      requires node in nodes && !node.red && node.left in nodes && node.left.red
      requires node.right != null && !node.right.red
      requires node.left.right != null && !node.left.right.red
      requires e == null || (e in nodes && e == node.left.left)
      requires d == null || d in nodes
      requires d != node.left && (d == node ==> dl == false)
      modifies this`root, nodes`left, nodes`right, nodes`parent, nodes`lo, nodes`hi, nodes`red, nodes`bh
      ensures Shape() && Balanced(null, d, dl)
      ensures var y := old(node.left); var b := old(y.right); var p := old(node.parent);
        && RightRotated(node, y, b, p)
        && node.red && !y.red && y.bh == old(node.bh) && node.bh == old(y.bh)
        && (forall m {:trigger m.red} {:trigger m.bh} :: m in nodes && m != node && m != y ==>
              m.red == old(m.red) && m.bh == old(m.bh))
        && (old(!root.red) ==> !root.red)
    {
      ghost var y, b, p := node.left, node.left.right, node.parent;
      RightNeighbours(node);
      node.left.red := false;
      node.red := true;
      y.bh, node.bh := node.bh, y.bh;
      RightRotate(node, y, b, p);
      RightRotationShape(node, y, b, p);
      RightRedEdge(node, y, b, p, e, d, dl);
    }

    // The inner case of the insert fixup: x and its left child y are both red and y is the
    // excused node; after a right rotation x is.
    twostate lemma RightRedPairHue(new x: Node, new y: Node, new b: Node?, new p: Node?, new n: Node)
      requires RightRotation(x, y, b, p) && n in nodes && old(Local(n))
      requires old(x.red && y.red) && old(x.right != null && b != null && !sentinel.red)
      requires sentinel.red == old(sentinel.red) && sentinel.bh == old(sentinel.bh)
      requires forall m {:trigger m.red} {:trigger m.bh} :: m in nodes ==> m.red == old(m.red) && m.bh == old(m.bh)
      requires old(Hue(n, y, null, true)) && old(Hue(x, y, null, true)) && old(Hue(y, y, null, true))
      requires p in nodes ==> old(Hue(p, y, null, true))
      ensures Hue(n, x, null, true)
    {
    }

    twostate lemma RightRedPair(new x: Node, new y: Node, new b: Node?, new p: Node?)
      requires RightRotated(x, y, b, p) && old(Shape()) && old(Balanced(y, null, true))
      requires old(x.red && y.red)
      requires sentinel.red == old(sentinel.red) && sentinel.bh == old(sentinel.bh)
      requires forall m {:trigger m.red} {:trigger m.bh} :: m in nodes ==> m.red == old(m.red) && m.bh == old(m.bh)
      ensures Balanced(x, null, true)
    {
      assert old(Local(x)) && old(Local(y)) && old(Hue(x, y, null, true)) && old(Hue(y, y, null, true));
      if b != sentinel { assert old(Local(b)); }
      if x != old(root) { assert old(Local(p)) && old(Hue(p, y, null, true)); }
      forall n | n in nodes ensures Hue(n, x, null, true) {
        assert old(Local(n)) && old(Hue(n, y, null, true));
        RightRedPairHue(x, y, b, p, n);
      }
    }

    method RotateRedPairRight(node: Node)
      requires Shape() && Balanced(node.left, null, true)
      requires node in nodes && node.red && node != root && node.left in nodes && node.left.red
      modifies this`root, nodes`left, nodes`right, nodes`parent, nodes`lo, nodes`hi
      ensures Shape() && Balanced(node, null, true) && root == old(root)
      ensures var y := old(node.left); var b := old(y.right); var p := old(node.parent);
        RightRotated(node, y, b, p)
    {
      ghost var y, b, p := node.left, node.left.right, node.parent;
      RightNeighbours(node);
      RightRotate(node, y, b, p);
      RightRotationShape(node, y, b, p);
      RightRedPair(node, y, b, p);
    }

    // The last case of the delete fixup: x is one black node short on its right, and its
    // black left child y has a red left child.
    twostate lemma RightClosedHue(new x: Node, new y: Node, new b: Node?, new p: Node?, new n: Node)
      requires RightRotation(x, y, b, p) && n in nodes && old(Local(n))
      requires old(!y.red && y.left in nodes && y.left.red && Local(y.left))
      requires old(x.right != null && b != null && !sentinel.red && sentinel.bh == 0)
      requires sentinel.red == old(sentinel.red) && sentinel.bh == old(sentinel.bh)
      requires !x.red && y.red == old(x.red) && !y.left.red
      requires x.bh == old(y.bh) && y.bh == old(x.bh) && y.left.bh == old(y.bh)
      requires forall m {:trigger m.red} {:trigger m.bh} :: m in nodes && m != x && m != y && m != y.left ==>
                 m.red == old(m.red) && m.bh == old(m.bh)
      requires old(Hue(n, null, x, false)) && old(Hue(x, null, x, false)) && old(Hue(y, null, x, false))
      requires old(Hue(y.left, null, x, false))
      ensures Hue(n, null, null, true)
    {
    }

    twostate lemma RightClosed(new x: Node, new y: Node, new b: Node?, new p: Node?)
      requires RightRotated(x, y, b, p) && old(Shape()) && old(Balanced(null, x, false))
      requires old(!y.red && y.left in nodes && y.left.red)
      requires sentinel.red == old(sentinel.red) && sentinel.bh == old(sentinel.bh)
      requires !x.red && y.red == old(x.red) && !y.left.red
      requires x.bh == old(y.bh) && y.bh == old(x.bh) && y.left.bh == old(y.bh)
      requires forall m {:trigger m.red} {:trigger m.bh} :: m in nodes && m != x && m != y && m != y.left ==>
                 m.red == old(m.red) && m.bh == old(m.bh)
      ensures Balanced(null, null, true)
    {
      assert old(Local(x)) && old(Local(y)) && old(Hue(x, null, x, false)) && old(Hue(y, null, x, false));
      assert old(Local(y.left)) && old(Hue(y.left, null, x, false));
      if b != sentinel { assert old(Local(b)); }
      if x != old(root) { assert old(Local(p)); }
      forall n | n in nodes ensures Hue(n, null, null, true) {
        assert old(Local(n)) && old(Hue(n, null, x, false));
        RightClosedHue(x, y, b, p, n);
      }
    }

    // copy_color(w, node); black(node); black(w.left); right_rotate(node)
    method CloseShortageRight(node: Node, w: Node)
      requires Shape() && Balanced(null, node, false)
      requires node in nodes && w in nodes && node.left == w && !w.red && w.left in nodes && w.left.red
      modifies this`root, nodes`left, nodes`right, nodes`parent, nodes`lo, nodes`hi, nodes`red, nodes`bh
      ensures Shape() && Balanced(null, null, true)
      ensures root.red == old(root.red)
    {
      ghost var y, b, p := node.left, node.left.right, node.parent;
      RightNeighbours(node);
      assert Local(node) && Local(w) && Local(w.left);
      ClosingColours(node, w, w.left);
      RightRotate(node, y, b, p);
      RightRotationShape(node, y, b, p);
      RightClosed(node, y, b, p);
    }

    // ----- Height -------------------------------------------------------------------

    ghost function Height(n: Node): nat
      requires Shape() && (n in nodes || n == sentinel)
      reads this, nodes
      decreases if n == sentinel then 0 else n.hi - n.lo
    {
      if n == sentinel then 0
      else
        assert Local(n);
        var l, r := Height(n.left), Height(n.right);
        1 + if l > r then l else r
    }

    lemma HeightDrops(n: Node, c: Node)
      requires Shape() && n in nodes && c in nodes && (c == n.left || c == n.right)
      ensures Height(c) + 1 <= Height(n)
    {
      assert Local(n);
    }

    // At most every other node on a path is red, and a subtree of black height b holds at
    // least 2^b - 1 nodes.
    lemma HeightOf(n: Node)
      requires Shape() && Balanced(null, null, true) && (n in nodes || n == sentinel)
      ensures 0 <= n.bh && Height(n) <= 2 * n.bh + (if n.red then 1 else 0)
      ensures Pow2(n.bh) <= 1 + (if n == sentinel then 0 else n.hi - n.lo)
      decreases if n == sentinel then 0 else n.hi - n.lo
    {
      if n != sentinel {
        assert Local(n) && Hue(n, null, null, true);
        HeightOf(n.left);
        HeightOf(n.right);
      }
    }

    // The height is at most 2 log2(n + 1).
    lemma HeightBound()
      requires Valid()
      ensures Pow2(Height(root)) <= (|order| + 1) * (|order| + 1)
    {
      HeightOf(root);
      Pow2Monotone(Height(root), 2 * root.bh);
      Pow2Double(root.bh);
      Product(Pow2(root.bh), |order| + 1);
    }

    // What validity says about one node: order, links and colours.
    lemma Rules(n: Node)
      requires Valid() && n in nodes
      ensures 0 <= n.pos < |order| && order[n.pos] == n && n.key == Wrap(n.time)
      ensures n.left == sentinel || (n.left in nodes && n.left.parent == n && n.left.pos < n.pos && n.left.time <= n.time)
      ensures n.right == sentinel || (n.right in nodes && n.right.parent == n && n.pos < n.right.pos && n.time <= n.right.time)
      ensures n != root ==> n.parent in nodes && (n.parent.left == n || n.parent.right == n)
      ensures !root.red && root in nodes
      ensures n.red ==> (n.left == sentinel || !n.left.red) && (n.right == sentinel || !n.right.red)
      ensures n.left != null && n.right != null && n.left.bh == n.right.bh == n.bh - (if n.red then 0 else 1)
      ensures sentinel.bh == 0
    {
      assert Local(n) && Hue(n, null, null, true);
      assert n.left in nodes ==> Local(n.left);
      assert n.right in nodes ==> Local(n.right);
    }

    // ----- Insert -------------------------------------------------------------------

    ghost function Shift(v: int, q: int, inclusive: bool): int {
      if v > q || (inclusive && v == q) then v + 1 else v
    }

    // Leaf x has been linked below t, on its left (goLeft) or right, at index q.
    twostate predicate LeafLinked(new t: Node, new x: Node, new q: int, new goLeft: bool)
      reads this, nodes
    {
      && nodes == old(nodes) + {x} && x !in old(nodes) && t in old(nodes) && root == old(root)
      && q == old(if goLeft then t.pos else t.pos + 1)
      && old(if goLeft then t.left else t.right) == sentinel
      && 0 <= q <= |old(order)| && order == old(order)[..q] + [x] + old(order)[q..]
      && x.left == sentinel && x.right == sentinel && x.parent == t && x.red && x.bh == 0
      && x.lo == q && x.pos == q && x.hi == q + 1
      && t.left == (if goLeft then x else old(t.left)) && t.right == (if goLeft then old(t.right) else x)
      && (forall n {:trigger n.left} {:trigger n.right} :: n in old(nodes) && n != t ==>
            n.left == old(n.left) && n.right == old(n.right))
      && (forall n {:trigger n.parent} {:trigger n.red} {:trigger n.bh} :: n in old(nodes) ==>
            n.parent == old(n.parent) && n.red == old(n.red) && n.bh == old(n.bh))
      && (forall n {:trigger n.lo} {:trigger n.pos} {:trigger n.hi} :: n in old(nodes) ==>
            && n.lo == Shift(old(n.lo), q, !goLeft) && n.pos == Shift(old(n.pos), q, true)
            && n.hi == Shift(old(n.hi), q, !goLeft))
    }

    twostate lemma LeafLinkedLocal(new t: Node, new x: Node, new q: int, new goLeft: bool, new n: Node)
      requires LeafLinked(t, x, q, goLeft) && sentinel !in nodes
      requires n in old(nodes) && old(Local(n)) && old(Local(t))
      ensures Local(n)
    {
    }

    twostate lemma LeafLinkedOrder(new t: Node, new x: Node, new q: int, new goLeft: bool)
      requires LeafLinked(t, x, q, goLeft) && old(Shape())
      ensures forall i :: 0 <= i < |order| ==> order[i] in nodes && order[i].pos == i
    {
      forall i | 0 <= i < |order| ensures order[i] in nodes && order[i].pos == i {
        if i < q {
          assert order[i] == old(order)[i];
        } else if i > q {
          assert order[i] == old(order)[i - 1];
        }
      }
    }

    twostate lemma LeafLinkedShape(new t: Node, new x: Node, new q: int, new goLeft: bool)
      requires LeafLinked(t, x, q, goLeft) && old(Shape()) && x != sentinel
      ensures Shape()
    {
      assert old(Local(t));
      forall n | n in old(nodes) ensures Local(n) {
        assert old(Local(n));
        LeafLinkedLocal(t, x, q, goLeft, n);
      }
      assert Local(x);
      assert root in old(nodes);
      LeafLinkedOrder(t, x, q, goLeft);
    }

    twostate lemma LeafLinkedBalanced(new t: Node, new x: Node, new q: int, new goLeft: bool)
      requires LeafLinked(t, x, q, goLeft) && old(Shape()) && x != sentinel && old(Balanced(null, null, true))
      requires sentinel.red == old(sentinel.red) && sentinel.bh == old(sentinel.bh)
      ensures Balanced(x, null, true)
    {
      forall n | n in nodes ensures Hue(n, x, null, true) {
        if n != x {
          assert old(Local(n)) && old(Hue(n, null, null, true));
        }
      }
    }

    ghost method MakeRoom(q: int, inclusive: bool)
      modifies nodes`lo, nodes`pos, nodes`hi
      ensures forall n {:trigger n.lo} {:trigger n.pos} {:trigger n.hi} :: n in nodes ==>
                && n.lo == Shift(old(n.lo), q, inclusive) && n.pos == Shift(old(n.pos), q, true)
                && n.hi == Shift(old(n.hi), q, inclusive)
    {
      forall n | n in nodes { n.lo := Shift(n.lo, q, inclusive); }
      forall n | n in nodes { n.pos := Shift(n.pos, q, true); }
      forall n | n in nodes { n.hi := Shift(n.hi, q, inclusive); }
    }

    // The tail of stu_rbtree_insert_timer_value: *p = node and the node's own fields.
    method LinkLeaf(temp: Node, node: Node, goLeft: bool)
      requires Shape() && temp in nodes && node !in nodes
      requires (if goLeft then temp.left else temp.right) == sentinel
      modifies this`nodes, this`order, temp`left, temp`right, nodes`lo, nodes`pos, nodes`hi
      modifies node`left, node`right, node`parent, node`red, node`bh, node`lo, node`pos, node`hi
      ensures LeafLinked(temp, node, old(if goLeft then temp.pos else temp.pos + 1), goLeft)
    {
      assert Local(temp);
      ghost var q := if goLeft then temp.pos else temp.pos + 1;
      MakeRoom(q, !goLeft);
      if goLeft {
        temp.left := node;
      } else {
        temp.right := node;
      }
      node.parent := temp;
      node.left := sentinel;
      node.right := sentinel;
      node.red := true;
      node.bh, node.lo, node.pos, node.hi := 0, q, q, q + 1;
      order := order[..q] + [node] + order[q..];
      nodes := nodes + {node};
    }

    // node->key < temp->key, taking overflow into account
    method Earlier(node: Node, temp: Node) returns (left: bool)
      requires node.key == Wrap(node.time) && temp.key == Wrap(temp.time) && -HALF <= node.time - temp.time < HALF
      ensures left <==> node.time < temp.time
    {
      WrappedDifference(node.time, temp.time);
      left := Signed(Wrap(node.key - temp.key)) < 0;
    }

    // Keys up to lo are not later than t, keys from hi on are.
    ghost predicate Brackets(t: int, lo: int, hi: int)
      reads this, order
    {
      && 0 <= lo <= hi <= |order|
      && (forall i :: 0 <= i < lo ==> order[i].time <= t)
      && (forall i :: hi <= i < |order| ==> t < order[i].time)
    }

    lemma Narrow(t: int, n: Node)
      requires Shape() && Sorted() && n in nodes && Brackets(t, n.lo, n.hi)
      ensures t < n.time ==> Brackets(t, n.lo, n.pos)
      ensures n.time <= t ==> Brackets(t, n.pos + 1, n.hi)
    {
      assert Local(n) && order[n.pos] == n;
    }

    lemma KeyOfTime(n: Node)
      requires Shape() && Sorted() && n in nodes
      ensures n.key == Wrap(n.time)
    {
      assert Local(n) && order[n.pos] == n;
    }

    // The next node of the descent, or the free slot.
    lemma Narrower(t: int, n: Node, left: bool)
      requires Shape() && Sorted() && n in nodes && Brackets(t, n.lo, n.hi) && (left <==> t < n.time)
      ensures var p, q := if left then n.left else n.right, if left then n.pos else n.pos + 1;
        if p == sentinel then Brackets(t, q, q)
        else p in nodes && Brackets(t, p.lo, p.hi) && Height(p) + 1 <= Height(n) && p.hi - p.lo < n.hi - n.lo
    {
      Narrow(t, n);
      assert Local(n);
      var p := if left then n.left else n.right;
      if p != sentinel {
        HeightDrops(n, p);
        assert Local(p);
      }
    }

    // The descent of stu_rbtree_insert_timer_value, with the wraparound comparison: it ends
    // at the free slot after every key that is not later than the new one. `visited` counts
    // the nodes compared with.
    method Descend(temp0: Node, node: Node) returns (temp: Node, left: bool, ghost visited: nat)
      requires Shape() && Sorted() && temp0 in nodes && temp0 == root
      requires node.key == Wrap(node.time)
      requires forall n :: n in nodes ==> -HALF <= node.time - n.time < HALF
      ensures temp in nodes && (if left then temp.left else temp.right) == sentinel && visited <= Height(root)
      ensures var q := if left then temp.pos else temp.pos + 1; Brackets(node.time, q, q)
    {
      temp, visited := temp0, 1;
      while true
        invariant temp in nodes && Brackets(node.time, temp.lo, temp.hi)
        invariant visited + Height(temp) <= Height(root) + 1
        decreases temp.hi - temp.lo
      {
        KeyOfTime(temp);
        left := Earlier(node, temp);
        Narrower(node.time, temp, left);
        var p := if left then temp.left else temp.right;
        if p == sentinel {
          break;
        }
        temp, visited := p, visited + 1;
      }
    }

    method InsertTimerValue(temp0: Node, node: Node) returns (ghost t: Node, ghost q: int, ghost goLeft: bool)
      requires Shape() && Sorted() && temp0 in nodes && temp0 == root
      requires node !in nodes && node.key == Wrap(node.time)
      requires forall n :: n in nodes ==> -HALF <= node.time - n.time < HALF
      modifies this`nodes, this`order, nodes`left, nodes`right, nodes`lo, nodes`pos, nodes`hi
      modifies node`left, node`right, node`parent, node`red, node`bh, node`lo, node`pos, node`hi
      ensures LeafLinked(t, node, q, goLeft)
      ensures forall i :: 0 <= i < q ==> old(order)[i].time <= node.time
      ensures forall i :: q <= i < |old(order)| ==> node.time < old(order)[i].time
    {
      ghost var visited;
      var temp, left;
      temp, left, visited := Descend(temp0, node);
      t, goLeft := temp, left;
      q := if left then temp.pos else temp.pos + 1;
      LinkLeaf(temp, node, left);
    }

    // The state of the insert fixup: only `node` may be a red child of a red parent.
    ghost predicate InsertPending(node: Node)
      reads this, nodes, sentinel
    {
      && Shape() && Balanced(node, null, true) && node in nodes && node.red
      && (root.red ==> root == node)
    }

    ghost function Excess(node: Node): int
      reads this, node, node.parent
    {
      if node != root && node.parent != null && node.parent.red then 1 + |order| - (node.hi - node.lo) else 0
    }

    // Besides the state above: the guard of the fixup loop holds.
    ghost predicate RedParent(node: Node)
      reads this, nodes, sentinel
    {
      && node in nodes && node.parent in nodes && node.parent.red
      && node.parent.parent in nodes && node != node.parent && node != node.parent.parent
      && (node.parent == node.parent.parent.left || node.parent == node.parent.parent.right)
      && node.parent.parent.left != null && node.parent.parent.right != null
      && node.parent.parent.left != node.parent.parent.right
      && node != root && node.parent != root && !node.parent.parent.red
    }

    lemma PendingNeighbours(node: Node)
      requires InsertPending(node) && node != root && node.parent != null && node.parent.red
      ensures RedParent(node)
    {
      assert Local(node) && Local(node.parent) && Hue(node.parent, node, null, true);
      assert Local(node.parent.parent) && Hue(node.parent.parent, node, null, true);
    }

    // Excusing a node allows more, not less.
    lemma Forgive(e: Node)
      requires Balanced(null, null, true)
      ensures Balanced(e, null, true)
    {
      forall n | n in nodes ensures Hue(n, e, null, true) {
        assert Hue(n, null, null, true);
      }
    }

    // black(*root)
    method BlackenRoot(node: Node)
      requires InsertPending(node) && (node != root ==> node.parent in nodes && !node.parent.red)
      modifies root`red, root`bh
      ensures Shape() && Balanced(null, null, true) && !root.red
    {
      assert Local(node) && root != sentinel && Local(root);
      if root.red {
        root.bh := root.bh + 1;
      }
      root.red := false;
      SameLinks();
      forall n | n in nodes ensures Hue(n, null, null, true) {
        assert old(Local(n)) && old(Hue(n, node, null, true));
      }
    }

    method ClosingColours(node: Node, w: Node, c: Node)
      requires node != w && w != c && node != c
      modifies node`red, node`bh, w`red, w`bh, c`red, c`bh
      ensures w.red == old(node.red) && !node.red && !c.red
      ensures w.bh == old(node.bh) && node.bh == old(w.bh) && c.bh == old(w.bh)
    {
      w.red := node.red;
      node.red := false;
      c.red := false;
      c.bh := w.bh;
      w.bh, node.bh := node.bh, w.bh;
    }

    // No link between nodes moved.
    twostate predicate LinksKept()
      requires nodes == old(nodes)
      reads *
    {
      forall m {:trigger m.left} {:trigger m.right} {:trigger m.parent} :: m in nodes ==>
        m.left == old(m.left) && m.right == old(m.right) && m.parent == old(m.parent)
    }

    // Pushing the redness of two siblings up to their parent g.
    twostate lemma RecolouredHue(new g: Node, new p: Node, new u: Node, new x: Node, new n: Node)
      requires g in nodes && p in nodes && u in nodes && n in nodes && nodes == old(nodes) && x in nodes
      requires old(Local(n)) && old(Local(g)) && old(Local(p)) && old(x.parent == p)
      requires (g.left == p && g.right == u) || (g.right == p && g.left == u)
      requires p != u && sentinel !in nodes
      requires old(p.red && u.red && !g.red) && g.red && !p.red && !u.red
      requires g.bh == old(g.bh) && p.bh == old(p.bh) + 1 && u.bh == old(u.bh) + 1
      requires LinksKept()
      requires forall m {:trigger m.red} {:trigger m.bh} :: m in nodes && m != g && m != p && m != u ==>
                 m.red == old(m.red) && m.bh == old(m.bh)
      requires !old(sentinel.red) && sentinel.red == old(sentinel.red) && sentinel.bh == old(sentinel.bh)
      requires old(Hue(n, x, null, true))
      ensures Hue(n, g, null, true)
    {
    }

    twostate lemma Recoloured(new g: Node, new p: Node, new u: Node, new x: Node)
      requires g in nodes && p in nodes && u in nodes && x in nodes && nodes == old(nodes)
      requires old(Shape() && Balanced(x, null, true)) && old(x.parent == p)
      requires (g.left == p && g.right == u) || (g.right == p && g.left == u)
      requires p != u
      requires old(p.red && u.red && !g.red) && g.red && !p.red && !u.red
      requires g.bh == old(g.bh) && p.bh == old(p.bh) + 1 && u.bh == old(u.bh) + 1
      requires LinksKept()
      requires forall m {:trigger m.red} {:trigger m.bh} :: m in nodes && m != g && m != p && m != u ==>
                 m.red == old(m.red) && m.bh == old(m.bh)
      requires sentinel.red == old(sentinel.red) && sentinel.bh == old(sentinel.bh)
      ensures Balanced(g, null, true)
    {
      assert old(Local(g)) && old(Local(p));
      forall n | n in nodes ensures Hue(n, g, null, true) {
        assert old(Local(n)) && old(Hue(n, x, null, true));
        RecolouredHue(g, p, u, x, n);
      }
    }

    // Only colours, black heights and keys changed.
    twostate lemma SameLinks()
      requires nodes == old(nodes) && order == old(order) && root == old(root) && old(Shape())
      requires forall m {:trigger m.left} {:trigger m.right} {:trigger m.parent} {:trigger m.lo} {:trigger m.pos} {:trigger m.hi} ::
                 m in nodes ==>
                   && m.left == old(m.left) && m.right == old(m.right) && m.parent == old(m.parent)
                   && m.lo == old(m.lo) && m.pos == old(m.pos) && m.hi == old(m.hi)
      ensures Shape()
    {
      forall n | n in nodes ensures Local(n) {
        assert old(Local(n));
      }
    }

    // black(p); black(u); red(g): the uncle is red, so the excess moves up to g.
    method PushRednessUp(node: Node, p: Node, u: Node, g: Node)
      requires Shape() && Balanced(node, null, true)
      requires node in nodes && p in nodes && u in nodes && g in nodes && p != u
      requires node.parent == p && p.parent == g
      requires (g.left == p && g.right == u) || (g.right == p && g.left == u)
      requires p.red && u.red && !g.red
      modifies nodes`red, nodes`bh
      ensures Shape() && Balanced(g, null, true)
      ensures g.red && (forall m :: m in nodes && m != g && old(!m.red) ==> !m.red)
    {
      assert Local(g);
      p.red := false;
      u.red := false;
      g.red := true;
      p.bh, u.bh := p.bh + 1, u.bh + 1;
      SameLinks();
      Recoloured(g, p, u, node);
    }

    // The uncle of the excused node is black: one or two rotations end the fixup.
    method InsertRotateLeft(x: Node)
      requires InsertPending(x) && RedParent(x)
      requires x.parent == x.parent.parent.left && !x.parent.parent.right.red
      modifies this`root, nodes`left, nodes`right, nodes`parent, nodes`lo, nodes`hi, nodes`red, nodes`bh
      ensures Shape() && Balanced(null, null, true) && !root.red
      ensures var node := if x == old(x.parent.right) then old(x.parent) else x;
        node.red && node != root && node.parent in nodes && !node.parent.red
    {
      var node := x;
      ghost var g := node.parent.parent;
      assert Local(node) && Local(node.parent) && Local(g);
      assert Hue(node.parent, node, null, true) && Hue(g, node, null, true);
      if node == node.parent.right {
        node := node.parent;
        RotateRedPairLeft(node);
        assert Local(node);
      }
      assert Local(node.parent) && Hue(node.parent, node, null, true);
      RecolourAndRotateRight(node.parent.parent, node, null, true);
    }

    // One turn of the insert fixup when the parent is a left child.
    method InsertStepLeft(x: Node) returns (node: Node)
      requires InsertPending(x) && RedParent(x) && x.parent == x.parent.parent.left
      modifies this`root, nodes`left, nodes`right, nodes`parent, nodes`lo, nodes`hi, nodes`red, nodes`bh
      ensures InsertPending(node) && 0 <= Excess(node) < old(Excess(x))
    {
      node := x;
      assert Local(node) && Local(node.parent) && Local(node.parent.parent);
      assert Hue(node.parent.parent, node, null, true);
      var temp := node.parent.parent.right;
      if temp.red {
        PushRednessUp(node, node.parent, temp, node.parent.parent);
        node := node.parent.parent;
      } else {
        node := if node == node.parent.right then node.parent else node;
        InsertRotateLeft(x);
        Forgive(node);
      }
      assert Local(node);
    }

    // The uncle of the excused node is black: one or two rotations end the fixup.
    method InsertRotateRight(x: Node)
      requires InsertPending(x) && RedParent(x)
      requires x.parent == x.parent.parent.right && !x.parent.parent.left.red
      modifies this`root, nodes`left, nodes`right, nodes`parent, nodes`lo, nodes`hi, nodes`red, nodes`bh
      ensures Shape() && Balanced(null, null, true) && !root.red
      ensures var node := if x == old(x.parent.left) then old(x.parent) else x;
        node.red && node != root && node.parent in nodes && !node.parent.red
    {
      var node := x;
      ghost var g := node.parent.parent;
      assert Local(node) && Local(node.parent) && Local(g);
      assert Hue(node.parent, node, null, true) && Hue(g, node, null, true);
      if node == node.parent.left {
        node := node.parent;
        RotateRedPairRight(node);
        assert Local(node);
      }
      assert Local(node.parent) && Hue(node.parent, node, null, true);
      RecolourAndRotateLeft(node.parent.parent, node, null, true);
    }

    // One turn of the insert fixup when the parent is a right child.
    method InsertStepRight(x: Node) returns (node: Node)
      requires InsertPending(x) && RedParent(x) && x.parent == x.parent.parent.right
      modifies this`root, nodes`left, nodes`right, nodes`parent, nodes`lo, nodes`hi, nodes`red, nodes`bh
      ensures InsertPending(node) && 0 <= Excess(node) < old(Excess(x))
    {
      node := x;
      assert Local(node) && Local(node.parent) && Local(node.parent.parent);
      assert Hue(node.parent.parent, node, null, true);
      var temp := node.parent.parent.left;
      if temp.red {
        PushRednessUp(node, node.parent, temp, node.parent.parent);
        node := node.parent.parent;
      } else {
        node := if node == node.parent.left then node.parent else node;
        InsertRotateRight(x);
        Forgive(node);
      }
      assert Local(node);
    }

    // The empty tree: the node becomes a black root.
    method InsertFirst(node: Node)
      requires Valid() && root == sentinel && node != sentinel && node.key == Wrap(node.time)
      modifies this`root, this`nodes, this`order
      modifies node`left, node`right, node`parent, node`red, node`bh, node`lo, node`pos, node`hi
      ensures Valid() && nodes == {node} && order == [node] && node.pos == 0 && root == node
    {
      node.parent := null;
      node.left := sentinel;
      node.right := sentinel;
      node.red := false;
      root := node;
      node.bh, node.lo, node.pos, node.hi := 1, 0, 0, 1;
      nodes, order := {node}, [node];
      assert Local(node) && Hue(node, null, null, true);
    }

    method InsertFixup(x: Node)
      requires InsertPending(x)
      modifies this`root, nodes`left, nodes`right, nodes`parent, nodes`lo, nodes`hi, nodes`red, nodes`bh
      ensures Shape() && Balanced(null, null, true) && !root.red
    {
      var node := x;
      assert Local(node);
      while node != root && node.parent.red
        invariant InsertPending(node) && (node != root ==> node.parent in nodes)
        decreases Excess(node)
      {
        PendingNeighbours(node);
        if node.parent == node.parent.parent.left {
          node := InsertStepLeft(node);
        } else {
          node := InsertStepRight(node);
        }
        assert Local(node);
      }
      BlackenRoot(node);
    }

    twostate lemma InsertedSorted(new node: Node, new q: int)
      requires old(Sorted()) && 0 <= q <= |old(order)| && node.key == Wrap(node.time)
      requires order == old(order)[..q] + [node] + old(order)[q..]
      requires forall n :: n in old(order) ==> n.time == old(n.time) && n.key == old(n.key)
      requires forall i :: 0 <= i < q ==> old(order)[i].time <= node.time
      requires forall i :: q <= i < |old(order)| ==> node.time < old(order)[i].time
      ensures Sorted()
    {
      forall i, j | 0 <= i < j < |order| ensures order[i].time <= order[j].time {
        var u, v := if i < q then i else i - 1, if j < q then j else j - 1;
        assert i != q ==> order[i] == old(order)[u];
        assert j != q ==> order[j] == old(order)[v];
      }
    }

    method Insert(node: Node)
      requires Valid() && node !in nodes && node != sentinel && node.key == Wrap(node.time)
      requires forall n :: n in nodes ==> -HALF <= node.time - n.time < HALF
      modifies this`root, this`nodes, this`order
      modifies nodes`left, nodes`right, nodes`parent, nodes`red, nodes`bh, nodes`lo, nodes`pos, nodes`hi
      modifies node`left, node`right, node`parent, node`red, node`bh, node`lo, node`pos, node`hi
      ensures Valid() && nodes == old(nodes) + {node}
      ensures 0 <= node.pos <= |old(order)|
      ensures order == old(order)[..node.pos] + [node] + old(order)[node.pos..]
      ensures forall i :: 0 <= i < node.pos ==> old(order)[i].time <= node.time
      ensures forall i :: node.pos <= i < |old(order)| ==> node.time < old(order)[i].time
    {
      if root == sentinel {
        assert forall n :: n in nodes ==> Local(n);
        InsertFirst(node);
        return;
      }
      ghost var t, q, goLeft := InsertTimerValue(root, node);
      LeafLinkedShape(t, node, q, goLeft);
      LeafLinkedBalanced(t, node, q, goLeft);
      InsertFixup(node);
      InsertedSorted(node, q);
    }

    // ----- Delete: taking a node out ------------------------------------------------

    // stu_rbtree_min
    method Min(start: Node) returns (node: Node, ghost visited: nat)
      requires Shape() && start in nodes
      ensures visited <= Height(start)
      ensures node in nodes && node.left == sentinel && node.pos == node.lo == start.lo && node.hi <= start.hi
      ensures 0 <= start.lo < |order| && order[start.lo] == node
    {
      node, visited := start, 1;
      assert Local(node);
      while node.left != sentinel
        invariant node in nodes && visited + Height(node) <= Height(start) + 1
        invariant node in nodes && Local(node) && node.lo == start.lo && node.hi <= start.hi
        decreases node.hi - node.lo
      {
        node, visited := node.left, visited + 1;
        assert Local(node);
      }
    }

    ghost function Drop(v: int, r: int): int {
      if v > r then v - 1 else v
    }

    // Index r leaves the order; subtree bounds beyond k move down.
    ghost method CloseGap(r: int, k: int)
      modifies nodes`lo, nodes`pos, nodes`hi
      ensures forall n {:trigger n.lo} {:trigger n.pos} {:trigger n.hi} :: n in nodes ==>
                && n.lo == Drop(old(n.lo), k) && n.pos == Drop(old(n.pos), r) && n.hi == Drop(old(n.hi), k)
    {
      forall n | n in nodes { n.lo := Drop(n.lo, k); }
      forall n | n in nodes { n.pos := Drop(n.pos, r); }
      forall n | n in nodes { n.hi := Drop(n.hi, k); }
    }

    // z, which had at most one child, is out of the tree: its child (or the sentinel) t has
    // taken its place below q.
    twostate predicate Unlinked(new z: Node, new t: Node, new q: Node)
      reads this, nodes, t
    {
      && z in old(nodes) && nodes == old(nodes) - {z} && root == old(root) != z
      && 0 <= old(z.pos) < |old(order)|
      && order == old(order)[..old(z.pos)] + old(order)[old(z.pos) + 1..]
      && ((old(z.left) == sentinel && t == old(z.right)) || (old(z.right) == sentinel && t == old(z.left)))
      && (t == sentinel || t in nodes)
      && q == old(z.parent) && q in nodes && q != t && t.parent == q
      && q.left == (if old(q.left) == z then t else old(q.left))
      && q.right == (if old(q.left) == z then old(q.right) else t)
      && (forall n {:trigger n.left} {:trigger n.right} :: n in nodes && n != q ==>
            n.left == old(n.left) && n.right == old(n.right))
      && (forall n {:trigger n.parent} :: n in nodes && n != t ==> n.parent == old(n.parent))
      && (forall n {:trigger n.red} {:trigger n.bh} :: n in nodes ==> n.red == old(n.red) && n.bh == old(n.bh))
      && (forall n {:trigger n.lo} {:trigger n.pos} {:trigger n.hi} :: n in nodes ==>
            && n.lo == Drop(old(n.lo), old(z.pos)) && n.pos == Drop(old(n.pos), old(z.pos))
            && n.hi == Drop(old(n.hi), old(z.pos)))
    }

    twostate lemma UnlinkedLinks(new z: Node, new t: Node, new q: Node, new n: Node)
      requires Unlinked(z, t, q) && sentinel !in old(nodes) && n in nodes
      requires old(Local(n)) && old(Local(z)) && old(Local(q)) && (t != sentinel ==> old(Local(t)))
      ensures SpanOk(n) && LeftOk(n) && RightOk(n)
    {
    }

    twostate lemma UnlinkedUp(new z: Node, new t: Node, new q: Node, new n: Node)
      requires Unlinked(z, t, q) && sentinel !in old(nodes) && n in nodes
      requires old(Local(n)) && old(Local(z)) && old(Local(q)) && (t != sentinel ==> old(Local(t)))
      ensures UpOk(n)
    {
    }

    twostate lemma DroppedOrder(new r: int)
      requires 0 <= r < |old(order)| && old(Shape()) && nodes == old(nodes) - {old(order)[r]}
      requires order == old(order)[..r] + old(order)[r + 1..]
      requires forall n {:trigger n.pos} :: n in nodes ==> n.pos == Drop(old(n.pos), r)
      ensures forall i :: 0 <= i < |order| ==> order[i] in nodes && order[i].pos == i
      ensures forall n {:trigger n.pos} :: n in nodes ==> 0 <= n.pos < |order| && order[n.pos] == n
    {
      forall i | 0 <= i < |order| ensures order[i] in nodes && order[i].pos == i {
        assert order[i] == old(order)[if i < r then i else i + 1];
      }
      forall n | n in nodes ensures 0 <= n.pos < |order| && order[n.pos] == n {
        assert old(Local(n));
      }
    }

    twostate lemma UnlinkedShape(new z: Node, new t: Node, new q: Node)
      requires Unlinked(z, t, q) && old(Shape())
      ensures Shape()
    {
      assert old(Local(z)) && old(Local(q));
      if t != sentinel { assert old(Local(t)); }
      DroppedOrder(old(z.pos));
      forall n | n in nodes ensures Local(n) {
        assert old(Local(n));
        UnlinkedLinks(z, t, q, n);
        UnlinkedUp(z, t, q, n);
      }
      assert root in nodes;
    }

    // Taking out a black node leaves its place one black node short, and may put a red node
    // below a red one.
    twostate lemma UnlinkedBalanced(new z: Node, new t: Node, new q: Node)
      requires Unlinked(z, t, q) && old(Shape() && Balanced(null, null, true))
      requires sentinel.red == old(sentinel.red) && sentinel.bh == old(sentinel.bh)
      ensures old(z.red) ==> Balanced(null, null, true)
      ensures old(!z.red) ==> Balanced(if t.red then t else null, q, old(q.left) == z)
    {
      assert old(Local(z)) && old(Local(q)) && old(Hue(z, null, null, true)) && old(Hue(q, null, null, true));
      if t != sentinel { assert old(Local(t)) && old(Hue(t, null, null, true)); }
      forall n | n in nodes
        ensures old(z.red) ==> Hue(n, null, null, true)
        ensures old(!z.red) ==> Hue(n, if t.red then t else null, q, old(q.left) == z)
      {
        assert old(Local(n)) && old(Hue(n, null, null, true));
      }
    }

    method HandOver(node: Node, temp: Node)
      requires node.parent != null && node != node.parent && temp != node && temp != node.parent
      modifies node.parent`left, node.parent`right, temp`parent
      ensures var q := old(node.parent);
        && q.left == (if old(q.left) == node then temp else old(q.left))
        && q.right == (if old(q.left) == node then old(q.right) else temp)
        && temp.parent == q
    {
      if node == node.parent.left {
        node.parent.left := temp;
      } else {
        node.parent.right := temp;
      }
      temp.parent := node.parent;
    }

    method Unlink(node: Node, temp: Node)
      requires Shape() && node in nodes && node != root
      requires (node.left == sentinel && temp == node.right) || (node.right == sentinel && temp == node.left)
      modifies this`nodes, this`order, nodes`left, nodes`right, nodes`parent, nodes`lo, nodes`pos, nodes`hi
      modifies temp`parent, node`key
      ensures var q := old(node.parent); q != null && Unlinked(node, temp, q)
      ensures node.left == node.right == node.parent == null && node.key == 0
    {
      ghost var q, r := node.parent, node.pos;
      assert Local(node) && Local(q);
      if temp != sentinel { assert Local(temp); }
      CloseGap(r, r);
      HandOver(node, temp);
      node.left := null;
      node.right := null;
      node.parent := null;
      node.key := 0;
      order := order[..r] + order[r + 1..];
      nodes := nodes - {node};
    }

    // z, which had two children, is out of the tree: its successor s has taken its place and
    // colour, and s's right child (or the sentinel) t has taken the place of s below q.
    twostate predicate Substituted(new z: Node, new s: Node, new t: Node, new q: Node, new zp: Node?)
      reads this, nodes, t
    {
      && z in old(nodes) && s in nodes && nodes == old(nodes) - {z}
      && old(z.left) in nodes && old(z.right) in nodes && old(z.left) != s
      && old(s.left) == sentinel && t == old(s.right) && (t == sentinel || (t in nodes && t != s && t != old(z.left)))
      && q == old(s.parent) && q in old(nodes) && q != s && q != t && q != old(z.left)
      && (if q == z then old(z.right) == s else old(q.left) == s && old(z.right) != s && t != old(z.right))
      && 0 <= old(z.pos) < |old(order)| && old(s.pos) == old(z.pos) + 1
      && order == old(order)[..old(z.pos)] + old(order)[old(z.pos) + 1..]
      && zp == old(z.parent) && root == (if old(root) == z then s else old(root))
      && (old(root) != z ==> zp in nodes && zp != s && zp != q && zp != t && zp != old(z.left) && zp != old(z.right))
      && s.left == old(z.left) && s.right == (if q == z then t else old(z.right)) && s.parent == zp
      && s.red == old(z.red) && s.bh == old(z.bh)
      && s.lo == old(z.lo) && s.pos == old(z.pos) && s.hi == old(z.hi) - 1
      && t.parent == (if q == z then s else q)
      && old(z.left).parent == s && (q != z ==> old(z.right).parent == s)
      && (old(root) != z ==>
            && zp.left == (if old(zp.left) == z then s else old(zp.left))
            && zp.right == (if old(zp.left) == z then old(zp.right) else s))
      && (q != z ==> q.left == t && q.right == old(q.right))
      && (forall n {:trigger n.left} {:trigger n.right} :: n in nodes && n != s && n != q && (old(root) != z ==> n != zp) ==>
            n.left == old(n.left) && n.right == old(n.right))
      && (forall n {:trigger n.parent} :: n in nodes && n != s && n != t && n != old(z.left) && n != old(z.right) ==>
            n.parent == old(n.parent))
      && (forall n {:trigger n.red} {:trigger n.bh} :: n in nodes && n != s ==> n.red == old(n.red) && n.bh == old(n.bh))
      && (forall n {:trigger n.lo} {:trigger n.hi} :: n in nodes && n != s ==>
            n.lo == Drop(old(n.lo), old(s.pos)) && n.hi == Drop(old(n.hi), old(s.pos)))
      && (forall n {:trigger n.pos} :: n in nodes ==> n.pos == Drop(old(n.pos), old(z.pos)))
    }

    twostate predicate Substitution(new z: Node, new s: Node, new t: Node, new q: Node, new zp: Node?)
      reads this, nodes, t
    {
      && Substituted(z, s, t, q, zp) && sentinel !in old(nodes)
      && (z == old(root) ==> old(z.lo) == 0 && old(z.hi) == |old(order)|)
      && old(Local(z)) && old(Local(s)) && old(Local(q)) && (t != sentinel ==> old(Local(t)))
      && old(Local(z.left)) && old(Local(z.right)) && (z != old(root) ==> old(Local(zp)))
    }

    twostate lemma SubstitutedSpan(new z: Node, new s: Node, new t: Node, new q: Node, new zp: Node?, new n: Node)
      requires Substitution(z, s, t, q, zp) && n in nodes && old(Local(n))
      requires 0 <= n.pos < |order| && order[n.pos] == n
      ensures SpanOk(n)
    {
    }

    twostate lemma SubstitutedLeft(new z: Node, new s: Node, new t: Node, new q: Node, new zp: Node?, new n: Node)
      requires Substitution(z, s, t, q, zp) && n in nodes && old(Local(n))
      ensures LeftOk(n)
    {
    }

    twostate lemma SubstitutedRight(new z: Node, new s: Node, new t: Node, new q: Node, new zp: Node?, new n: Node)
      requires Substitution(z, s, t, q, zp) && n in nodes && old(Local(n))
      ensures RightOk(n)
    {
    }

    twostate lemma SubstitutedUp(new z: Node, new s: Node, new t: Node, new q: Node, new zp: Node?, new n: Node)
      requires Substitution(z, s, t, q, zp) && n in nodes && old(Local(n))
      ensures UpOk(n)
    {
    }

    twostate lemma SubstitutedLocal(new z: Node, new s: Node, new t: Node, new q: Node, new zp: Node?, new n: Node)
      requires Substitution(z, s, t, q, zp) && n in nodes && old(Local(n))
      requires 0 <= n.pos < |order| && order[n.pos] == n
      ensures Local(n)
    {
      SubstitutedSpan(z, s, t, q, zp, n);
      SubstitutedLeft(z, s, t, q, zp, n);
      SubstitutedRight(z, s, t, q, zp, n);
      SubstitutedUp(z, s, t, q, zp, n);
    }

    twostate lemma SubstitutionHolds(new z: Node, new s: Node, new t: Node, new q: Node, new zp: Node?)
      requires Substituted(z, s, t, q, zp) && old(Shape())
      ensures Substitution(z, s, t, q, zp)
    {
      assert old(Local(z)) && old(Local(s)) && old(Local(q)) && old(Local(z.left)) && old(Local(z.right));
      if t != sentinel { assert old(Local(t)); }
      if z != old(root) { assert old(Local(zp)); }
    }

    twostate lemma SubstitutedShape(new z: Node, new s: Node, new t: Node, new q: Node, new zp: Node?)
      requires Substituted(z, s, t, q, zp) && old(Shape())
      ensures Shape()
    {
      SubstitutionHolds(z, s, t, q, zp);
      DroppedOrder(old(z.pos));
      forall n | n in nodes ensures Local(n) {
        assert old(Local(n));
        SubstitutedLocal(z, s, t, q, zp, n);
      }
      assert root in nodes;
    }

    // The nodes around a two-child deletion.
    lemma Successor(z: Node, s: Node)
      requires Shape() && z in nodes && z.left in nodes && z.right in nodes
      requires s in nodes && s.left == sentinel && s.pos == s.lo == z.pos + 1 && s.hi <= z.right.hi
      ensures s != z && s != root && z.left != s && s.parent in nodes && z.right != z.left
      ensures var t, q, zp := s.right, s.parent, z.parent;
        && t != null && (t == sentinel || (t in nodes && t != s && t != z.left && t != z))
        && q != s && q != t && q != z.left && (q == z || q.left == s)
        && (if q == z then z.right == s else z.right != s && t != z.right)
        && (root != z ==> zp in nodes && zp != s && zp != q && zp != t && zp != z && zp != z.left && zp != z.right
                          && (zp.left == z || zp.right == z))
    {
      assert Local(z) && Local(z.left) && Local(z.right) && Local(s) && Local(s.parent);
      if s.right != sentinel { assert Local(s.right); }
      if z != root { assert Local(z.parent); }
    }

    // subst's own place below its parent goes to temp.
    method GiveUpPlace(subst: Node, temp: Node, node: Node)
      requires subst.parent != null && subst != subst.parent && temp != subst && temp != subst.parent
      modifies subst.parent`left, subst.parent`right, temp`parent
      ensures var q := old(subst.parent);
        && q.left == (if old(q.left) == subst then temp else old(q.left))
        && q.right == (if old(q.left) == subst then old(q.right) else temp)
        && temp.parent == (if q == node then subst else q)
    {
      if subst == subst.parent.left {
        subst.parent.left := temp;
      } else {
        subst.parent.right := temp;
      }
      if subst.parent == node {
        temp.parent := subst;
      } else {
        temp.parent := subst.parent;
      }
    }

    // subst takes over node's links and colour.
    method TakePlace(node: Node, subst: Node)
      requires subst != node && node.left != null && node.right != null && node.left != subst && node.right != subst
      requires node.left != sentinel && node.left != node.right
      requires node != root ==>
        node.parent != null && node.parent != subst && node.parent != node && node.parent != node.left && node.parent != node.right
      modifies this`root, subst`left, subst`right, subst`parent, subst`red
      modifies node.left`parent, (if node.right == sentinel then {} else {node.right})`parent
      modifies (if node == root then {} else {node.parent})`left, (if node == root then {} else {node.parent})`right
      ensures subst.left == old(node.left) && subst.right == old(node.right) && subst.parent == old(node.parent)
      ensures subst.red == node.red && root == (if old(root) == node then subst else old(root))
      ensures old(node.left).parent == subst && (old(node.right) != sentinel ==> old(node.right).parent == subst)
      ensures old(root) != node ==> var zp := old(node.parent);
        && zp.left == (if old(zp.left) == node then subst else old(zp.left))
        && zp.right == (if old(zp.left) == node then old(zp.right) else subst)
    {
      subst.left := node.left;
      subst.right := node.right;
      subst.parent := node.parent;
      subst.red := node.red;
      if node == root {
        root := subst;
      } else if node == node.parent.left {
        node.parent.left := subst;
      } else {
        node.parent.right := subst;
      }
      if subst.left != sentinel {
        subst.left.parent := subst;
      }
      if subst.right != sentinel {
        subst.right.parent := subst;
      }
    }

    // The pointer assignments of lines 164-207 for a node with two children.
    method Relink(node: Node, subst: Node, temp: Node)
      requires node.left != null && node.right != null && node.left != node.right
      requires node.left != sentinel && node.right != sentinel
      requires subst.parent != null && temp == subst.right && temp != subst && temp != node && temp != node.left
      requires subst != node && subst != root && node.left != subst && node.left != node && node.right != node
      requires subst.parent != subst && subst.parent != temp && subst.parent != node.left
      requires if subst.parent == node then node.right == subst && node.right != temp && node.left != temp
               else subst.parent.left == subst && node.right != subst && temp != node.right
      requires root != node ==> node.parent != null && node.parent !in {subst, subst.parent, temp, node, node.left, node.right}
      modifies this`root, node`left, node`right, node`parent, node`key, temp`parent
      modifies subst`left, subst`right, subst`parent, subst`red, subst.parent`left, subst.parent`right
      modifies node.left`parent, node.right`parent
      modifies (if node == root then {} else {node.parent})`left, (if node == root then {} else {node.parent})`right
      ensures var q, z, s, t, zp := old(subst.parent), node, subst, temp, old(node.parent);
        && root == (if old(root) == z then s else old(root))
        && s.left == old(z.left) && s.right == (if q == z then t else old(z.right)) && s.parent == zp && s.red == old(z.red)
        && t.parent == (if q == z then s else q)
        && old(z.left).parent == s && (q != z ==> old(z.right).parent == s)
        && (old(root) != z ==>
              && zp.left == (if old(zp.left) == z then s else old(zp.left))
              && zp.right == (if old(zp.left) == z then old(zp.right) else s))
        && (q != z ==> q.left == t && q.right == old(q.right))
        && z.left == z.right == z.parent == null && z.key == 0
    {
      GiveUpPlace(subst, temp, node);
      TakePlace(node, subst);
      node.left := null;
      node.right := null;
      node.parent := null;
      node.key := 0;
    }

    method Substitute(node: Node, subst: Node, temp: Node)
      requires Shape() && node in nodes && node.left in nodes && node.right in nodes
      requires subst in nodes && subst.left == sentinel && subst.pos == subst.lo == node.pos + 1
      requires subst.hi <= node.right.hi && temp == subst.right
      modifies this`root, this`nodes, this`order
      modifies nodes`left, nodes`right, nodes`parent, nodes`lo, nodes`pos, nodes`hi, nodes`red, nodes`bh
      modifies temp`parent, node`key
      ensures var q := old(subst.parent); q != null && Substituted(node, subst, temp, q, old(node.parent))
      ensures node.left == node.right == node.parent == null && node.key == 0
    {
      Successor(node, subst);
      assert Local(node) && Local(subst);
      ghost var r, k, lo, hi := node.pos, subst.pos, node.lo, node.hi;
      Relink(node, subst, temp);
      CloseGap(r, k);
      subst.lo, subst.hi, subst.bh := lo, hi - 1, node.bh;
      order := order[..r] + order[r + 1..];
      nodes := nodes - {node};
    }

    twostate lemma SubstitutedHue(new z: Node, new s: Node, new t: Node, new q: Node, new zp: Node?, new n: Node)
      requires Substitution(z, s, t, q, zp) && n in nodes && old(Local(n))
      requires sentinel.red == old(sentinel.red) && sentinel.bh == old(sentinel.bh) && old(!sentinel.red && sentinel.bh == 0)
      requires old(Hue(n, null, null, true)) && old(Hue(z, null, null, true)) && old(Hue(s, null, null, true))
      requires old(Hue(q, null, null, true)) && (t != sentinel ==> old(Hue(t, null, null, true)))
      ensures old(s.red) ==> Hue(n, null, null, true)
      ensures old(!s.red) ==> Hue(n, if t.red then t else null, if q == z then s else q, q != z)
    {
    }

    twostate lemma SubstitutedBalanced(new z: Node, new s: Node, new t: Node, new q: Node, new zp: Node?)
      requires Substituted(z, s, t, q, zp) && old(Shape() && Balanced(null, null, true))
      requires sentinel.red == old(sentinel.red) && sentinel.bh == old(sentinel.bh)
      ensures old(s.red) ==> Balanced(null, null, true)
      ensures old(!s.red) ==> Balanced(if t.red then t else null, if q == z then s else q, q != z)
    {
      SubstitutionHolds(z, s, t, q, zp);
      assert old(Hue(z, null, null, true)) && old(Hue(s, null, null, true)) && old(Hue(q, null, null, true));
      if t != sentinel { assert old(Hue(t, null, null, true)); }
      forall n | n in nodes
        ensures old(s.red) ==> Hue(n, null, null, true)
        ensures old(!s.red) ==> Hue(n, if t.red then t else null, if q == z then s else q, q != z)
      {
        assert old(Local(n)) && old(Hue(n, null, null, true));
        SubstitutedHue(z, s, t, q, zp, n);
      }
    }

    // ----- Delete: the fixup --------------------------------------------------------

    // After a node of the given colour left its place to temp, below d.
    ghost predicate Removed(temp: Node, red: bool, d: Node?, dl: bool)
      reads this, nodes, sentinel, temp
    {
      Shape() && if red then Balanced(null, null, true) && !root.red
                 else DeletePending(temp, if temp.red then temp else null, d, dl)
    }

    ghost function Slack(temp: Node): int
      reads this, temp
    {
      |order| - (if temp == sentinel then 0 else temp.hi - temp.lo)
    }

    // The guard `temp == temp->parent->left` picks the short side, also for the sentinel.
    lemma ShortSide(temp: Node, d: Node, dl: bool)
      requires DeletePending(temp, null, d, dl) && temp != root && !temp.red
      ensures d in nodes && temp.parent == d && (d.left == temp <==> dl) && (d.right == temp <==> !dl)
    {
      assert Local(d) && Hue(d, null, d, dl);
      if temp != sentinel { assert Local(temp); }
    }

    // The sibling w of the short side became red and d, above both, one lower.
    twostate predicate ShortagePushed(new x: Node, new w: Node, new d: Node, new dl: bool)
      requires d in nodes && w in nodes && nodes == old(nodes)
      reads *
    {
      && order == old(order) && root == old(root) && sentinel !in nodes
      && (d == root ==> old(d.lo) == 0 && old(d.hi) == |order|)
      && (if dl then d.left == x && d.right == w else d.right == x && d.left == w)
      && x != w && !x.red && old(!w.red && w.left != null && !w.left.red && w.right != null && !w.right.red)
      && w.red && w.bh == old(w.bh) - 1 && d.bh == old(d.bh) - 1 && d.red == old(d.red)
      && LinksKept()
      && (forall m {:trigger m.red} {:trigger m.bh} :: m in nodes && m != d && m != w ==>
            m.red == old(m.red) && m.bh == old(m.bh))
      && !old(sentinel.red) && sentinel.red == old(sentinel.red) && sentinel.bh == old(sentinel.bh)
      && x.bh == old(x.bh) && x.bh >= 0
    }

    twostate lemma ShortageHue(new x: Node, new w: Node, new d: Node, new dl: bool, new n: Node)
      requires d in nodes && w in nodes && n in nodes && nodes == old(nodes) && ShortagePushed(x, w, d, dl)
      requires old(Local(n)) && old(Local(d)) && old(Local(w))
      requires old(Hue(n, null, d, dl)) && old(Hue(d, null, d, dl)) && old(Hue(w, null, d, dl))
      ensures Hue(n, if d.red then w else null, if d == root then null else d.parent, d != root && d == d.parent.left)
    {
    }

    twostate lemma ShortageAll(new x: Node, new w: Node, new d: Node, new dl: bool)
      requires d in nodes && w in nodes && nodes == old(nodes) && ShortagePushed(x, w, d, dl)
      requires old(Shape() && Balanced(null, d, dl))
      ensures d != root ==> d.parent != null
      ensures Balanced(if d.red then w else null, if d == root then null else d.parent, d != root && d == d.parent.left)
    {
      assert old(Local(d)) && old(Local(w)) && old(Hue(d, null, d, dl)) && old(Hue(w, null, d, dl));
      forall n | n in nodes
        ensures Hue(n, if d.red then w else null, if d == root then null else d.parent, d != root && d == d.parent.left)
      {
        assert old(Local(n)) && old(Hue(n, null, d, dl));
        ShortageHue(x, w, d, dl, n);
      }
    }

    // red(w): both children of the black sibling w are black, so the shortage moves up to d.
    method PushShortageUp(x: Node, w: Node, ghost dl: bool)
      requires DeletePending(x, null, x.parent, dl) && x != root && !x.red
      requires w in nodes && x != w && (if dl then x.parent.right == w else x.parent.left == w)
      requires !w.red && w.left != null && !w.left.red && w.right != null && !w.right.red
      modifies nodes`red, nodes`bh
      ensures x.parent == old(x.parent) && x.parent in nodes && x.parent.red == old(x.parent.red)
      ensures x.parent != root ==> x.parent.parent != null
      ensures var d := x.parent;
        DeletePending(d, if d.red then w else null, if d == root then null else d.parent, d != root && d == d.parent.left)
      ensures 0 <= Slack(x.parent) < Slack(x)
    {
      ghost var d := x.parent;
      assert Local(d) && Local(w) && Hue(d, null, d, dl) && Hue(w, null, d, dl);
      if x != sentinel { assert Local(x) && Hue(x, null, d, dl); }
      w.red := true;
      w.bh, d.bh := w.bh - 1, d.bh - 1;
      SameLinks();
      ShortageAll(x, w, d, dl);
    }

    // `temp` stands where a black node is missing; e, red below the red temp, or temp itself
    // may be a red child of a red parent.
    ghost predicate DeletePending(temp: Node, e: Node?, d: Node?, dl: bool)
      reads this, nodes, sentinel
    {
      && Shape() && Balanced(e, d, dl) && root != sentinel
      && (temp in nodes || temp == sentinel)
      && (if temp == root then d == null
          else d in nodes && temp.parent == d && (if dl then d.left == temp else d.right == temp))
      && (e != null ==> e in nodes && temp.red && (e == temp || (temp in nodes && e.parent == temp)))
      && (root.red ==> temp == root)
    }

    // The sibling of a short left subtree is a real node.
    lemma SiblingLeft(x: Node, d: Node)
      requires Shape() && Balanced(null, d, true) && d in nodes && d.left == x
      requires x == sentinel || x in nodes
      ensures d.right in nodes && d.right != x && d.right != d
      ensures d.right.left != null && d.right.right != null && (d.right.right.red ==> d.right.right in nodes)
      ensures d.right.red ==> d.right.left in nodes && !d.right.left.red && !d.right.right.red
      ensures d.right.left.red ==> d.right.left in nodes && d.right.left != d
      ensures d.right.left.red ==> d.right.left.right != null && !d.right.left.right.red
    {
      assert Local(d) && Hue(d, null, d, true);
      if x != sentinel { assert Local(x) && Hue(x, null, d, true); }
      assert Local(d.right) && Hue(d.right, null, d, true);
      if d.right.left != sentinel { assert Local(d.right.left) && Hue(d.right.left, null, d, true); }
    }

    // The black sibling w of a short left subtree has a red child: the fixup ends.
    method DeleteRotateLeft(temp: Node, w0: Node)
      requires Shape() && temp.parent in nodes && Balanced(null, temp.parent, true) && (root.red ==> temp == root)
      requires temp.parent.left == temp && (temp == sentinel || temp in nodes) && temp != root
      requires w0 == temp.parent.right && !w0.red && w0.left != null && w0.right != null
      requires w0.left.red || w0.right.red
      modifies this`root, nodes`left, nodes`right, nodes`parent, nodes`lo, nodes`hi, nodes`red, nodes`bh
      ensures Shape() && Balanced(null, null, true) && !root.red
    {
      var w := w0;
      ghost var d := temp.parent;
      SiblingLeft(temp, d);
      assert Local(d) && Local(w);
      if !w.right.red {
        RecolourAndRotateRight(w, null, d, true);
        w := temp.parent.right;
        assert Local(d);
      }
      CloseShortageLeft(temp.parent, w);
    }

    // One turn of the delete fixup for a short left subtree.
    method DeleteStepLeft(x: Node, ghost d: Node) returns (temp: Node, ghost e: Node?, ghost f: Node?, ghost fl: bool)
      requires DeletePending(x, null, d, true) && x != root && !x.red && d == x.parent
      modifies this`root, nodes`left, nodes`right, nodes`parent, nodes`lo, nodes`hi, nodes`red, nodes`bh
      ensures DeletePending(temp, e, f, fl) && 0 <= Slack(temp) < old(Slack(x))
    {
      temp := x;
      var w := temp.parent.right;
      SiblingLeft(x, d);
      if w.red {
        assert Local(d) && Hue(d, null, d, true);
        RecolourAndRotateLeft(temp.parent, null, d, true);
        w := temp.parent.right;
        SiblingLeft(x, d);
      }
      if !w.left.red && !w.right.red {
        PushShortageUp(temp, w, true);
        temp := temp.parent;
        e := if temp.red then w else null;
        f := if temp == root then null else temp.parent;
        fl := temp != root && temp == temp.parent.left;
      } else {
        assert Local(d);
        if x != sentinel { assert Local(x); }
        DeleteRotateLeft(temp, w);
        temp := root;
        e, f, fl := null, null, true;
      }
    }

    // The sibling of a short right subtree is a real node.
    lemma SiblingRight(x: Node, d: Node)
      requires Shape() && Balanced(null, d, false) && d in nodes && d.right == x
      requires x == sentinel || x in nodes
      ensures d.left in nodes && d.left != x && d.left != d
      ensures d.left.right != null && d.left.left != null && (d.left.left.red ==> d.left.left in nodes)
      ensures d.left.red ==> d.left.right in nodes && !d.left.right.red && !d.left.left.red
      ensures d.left.right.red ==> d.left.right in nodes && d.left.right != d
      ensures d.left.right.red ==> d.left.right.left != null && !d.left.right.left.red
    {
      assert Local(d) && Hue(d, null, d, false);
      if x != sentinel { assert Local(x) && Hue(x, null, d, false); }
      assert Local(d.left) && Hue(d.left, null, d, false);
      if d.left.right != sentinel { assert Local(d.left.right) && Hue(d.left.right, null, d, false); }
    }

    // The black sibling w of a short right subtree has a red child: the fixup ends.
    method DeleteRotateRight(temp: Node, w0: Node)
      requires Shape() && temp.parent in nodes && Balanced(null, temp.parent, false) && (root.red ==> temp == root)
      requires temp.parent.right == temp && (temp == sentinel || temp in nodes) && temp != root
      requires w0 == temp.parent.left && !w0.red && w0.right != null && w0.left != null
      requires w0.right.red || w0.left.red
      modifies this`root, nodes`left, nodes`right, nodes`parent, nodes`lo, nodes`hi, nodes`red, nodes`bh
      ensures Shape() && Balanced(null, null, true) && !root.red
    {
      var w := w0;
      ghost var d := temp.parent;
      SiblingRight(temp, d);
      assert Local(d) && Local(w);
      if !w.left.red {
        RecolourAndRotateLeft(w, null, d, false);
        w := temp.parent.left;
        assert Local(d);
      }
      CloseShortageRight(temp.parent, w);
    }

    // One turn of the delete fixup for a short right subtree.
    method DeleteStepRight(x: Node, ghost d: Node) returns (temp: Node, ghost e: Node?, ghost f: Node?, ghost fl: bool)
      requires DeletePending(x, null, d, false) && x != root && !x.red && d == x.parent
      modifies this`root, nodes`left, nodes`right, nodes`parent, nodes`lo, nodes`hi, nodes`red, nodes`bh
      ensures DeletePending(temp, e, f, fl) && 0 <= Slack(temp) < old(Slack(x))
    {
      temp := x;
      var w := temp.parent.left;
      SiblingRight(x, d);
      if w.red {
        assert Local(d) && Hue(d, null, d, false);
        RecolourAndRotateRight(temp.parent, null, d, false);
        w := temp.parent.left;
        SiblingRight(x, d);
      }
      if !w.right.red && !w.left.red {
        PushShortageUp(temp, w, false);
        temp := temp.parent;
        e := if temp.red then w else null;
        f := if temp == root then null else temp.parent;
        fl := temp != root && temp == temp.parent.left;
      } else {
        assert Local(d);
        if x != sentinel { assert Local(x); }
        DeleteRotateRight(temp, w);
        temp := root;
        e, f, fl := null, null, true;
      }
    }

    // black(temp): the missing black node is restored.
    method RestoreBlack(temp: Node, ghost e: Node?, ghost d: Node?, ghost dl: bool)
      requires DeletePending(temp, e, d, dl) && (temp == root || temp.red)
      modifies nodes`red, nodes`bh
      ensures Shape() && Balanced(null, null, true) && !root.red
    {
      assert temp in nodes && Local(temp) && Local(root);
      if e != null { assert Local(e); }
      if temp.red {
        temp.bh := temp.bh + 1;
      }
      temp.red := false;
      SameLinks();
      forall n | n in nodes ensures Hue(n, null, null, true) {
        assert old(Local(n)) && old(Hue(n, e, d, dl));
      }
    }

    method DeleteFixup(x: Node, ghost e0: Node?, ghost d0: Node?, ghost dl0: bool)
      requires DeletePending(x, e0, d0, dl0)
      modifies this`root, nodes`left, nodes`right, nodes`parent, nodes`lo, nodes`hi, nodes`red, nodes`bh
      ensures Shape() && Balanced(null, null, true) && !root.red
    {
      var temp := x;
      ghost var e, d, dl := e0, d0, dl0;
      while temp != root && !temp.red
        invariant DeletePending(temp, e, d, dl)
        decreases Slack(temp)
      {
        ShortSide(temp, d, dl);
        if temp == temp.parent.left {
          temp, e, d, dl := DeleteStepLeft(temp, d);
        } else {
          temp, e, d, dl := DeleteStepRight(temp, d);
        }
      }
      RestoreBlack(temp, e, d, dl);
    }

    // The root has at most one child, which becomes the root.
    method RemoveRoot(node: Node, temp: Node)
      requires Valid() && node == root && node in nodes
      requires (node.left == sentinel && temp == node.right) || (node.right == sentinel && temp == node.left)
      modifies this`root, this`nodes, this`order
      modifies temp`red, temp`lo, temp`pos, temp`hi, temp`bh, node`left, node`right, node`parent, node`key
      ensures Shape() && Balanced(null, null, true) && !root.red && nodes == old(nodes) - {node}
      ensures 0 <= old(node.pos) < |old(order)|
      ensures order == old(order)[..old(node.pos)] + old(order)[old(node.pos) + 1..]
      ensures node.left == node.right == node.parent == null && node.key == 0
    {
      ghost var r := node.pos;
      assert Local(node);
      RootChild(temp);
      root := temp;
      temp.red := false;
      node.left := null;
      node.right := null;
      node.parent := null;
      node.key := 0;
      nodes, order := nodes - {node}, order[..r] + order[r + 1..];
      if temp != sentinel {
        temp.lo, temp.pos, temp.hi, temp.bh := 0, 0, 1, 1;
        assert order == [temp];
      }
      OnlyRoot();
    }

    // A tree of one black node, or none.
    lemma OnlyRoot()
      requires sentinel !in nodes && !sentinel.red && sentinel.bh == 0 && !root.red
      requires root == sentinel ==> nodes == {} && order == []
      requires root != sentinel ==> nodes == {root} && order == [root] && root.left == root.right == sentinel
      requires root != sentinel ==> root.lo == root.pos == 0 && root.hi == root.bh == 1
      ensures Shape() && Balanced(null, null, true)
    {
      assert root != sentinel ==> Local(root) && Hue(root, null, null, true);
    }

    lemma RootChild(t: Node)
      requires Valid() && root != sentinel
      requires (root.left == sentinel && t == root.right) || (root.right == sentinel && t == root.left)
      ensures if t == sentinel then nodes == {root} && order == [root]
              else t in nodes && nodes == {root, t} && |order| == 2 && t.left == sentinel && t.right == sentinel && t != root
    {
      assert Local(root) && Hue(root, null, null, true);
      if t != sentinel {
        assert Local(t) && Hue(t, null, null, true);
        if t.left != sentinel { NoBlackBelow(t.left); }
        if t.right != sentinel { NoBlackBelow(t.right); }
        NoBlackBelow(t);
        assert t.red;
        assert t.left == sentinel && t.right == sentinel;
      }
      assert |order| == if t == sentinel then 1 else 2;
      assert order[root.pos] == root && (t != sentinel ==> order[t.pos] == t);
      forall n | n in nodes ensures n == root || n == t {
        assert Local(n);
      }
      assert order[0] in nodes && (t != sentinel ==> order[1] in nodes);
    }

    // A real black node has a positive black height.
    lemma NoBlackBelow(n: Node)
      requires Shape() && Balanced(null, null, true) && n in nodes
      ensures !n.red ==> n.bh > 0
    {
      assert Local(n) && Hue(n, null, null, true);
      if n.left != sentinel { assert Hue(n.left, null, null, true); }
    }

    twostate lemma DeletedSorted(new r: int)
      requires old(Sorted()) && 0 <= r < |old(order)|
      requires order == old(order)[..r] + old(order)[r + 1..]
      requires forall n :: n in order ==> n.time == old(n.time) && n.key == old(n.key)
      ensures Sorted()
    {
      forall n | n in order ensures n in old(order) {}
      forall i, j | 0 <= i < j < |order| ensures order[i].time <= order[j].time {
        var u, v := if i < r then i else i + 1, if j < r then j else j + 1;
        assert order[i] == old(order)[u] && order[j] == old(order)[v];
      }
    }

    // Lines 164-171: the node itself is unlinked.
    method TakeOut(node: Node, temp: Node)
      requires Valid() && node in nodes && node != root
      requires (node.left == sentinel && temp == node.right) || (node.right == sentinel && temp == node.left)
      modifies this`nodes, this`order, nodes`left, nodes`right, nodes`parent, nodes`lo, nodes`pos, nodes`hi
      modifies temp`parent, node`key
      ensures nodes == old(nodes) - {node} && 0 <= old(node.pos) < |old(order)|
      ensures order == old(order)[..old(node.pos)] + old(order)[old(node.pos) + 1..]
      ensures node.left == node.right == node.parent == null && node.key == 0
      ensures Removed(temp, old(node.red), old(node.parent), old(node.parent != null && node.parent.left == node))
    {
      assert Local(node);
      ghost var q := node.parent;
      Unlink(node, temp);
      UnlinkedShape(node, temp, q);
      UnlinkedBalanced(node, temp, q);
    }

    // Lines 164-201 for a node with two children.
    method TakeOutInner(node: Node, subst: Node, temp: Node)
      requires Valid() && node in nodes && node.left in nodes && node.right in nodes
      requires subst in nodes && subst.left == sentinel && subst.pos == subst.lo == node.pos + 1
      requires subst.hi <= node.right.hi && temp == subst.right
      modifies this`root, this`nodes, this`order
      modifies nodes`left, nodes`right, nodes`parent, nodes`lo, nodes`pos, nodes`hi, nodes`red, nodes`bh
      modifies temp`parent, node`key
      ensures nodes == old(nodes) - {node} && 0 <= old(node.pos) < |old(order)|
      ensures order == old(order)[..old(node.pos)] + old(order)[old(node.pos) + 1..]
      ensures node.left == node.right == node.parent == null && node.key == 0
      ensures Removed(temp, old(subst.red), old(if subst.parent == node then subst else subst.parent), old(subst.parent != node))
    {
      assert Local(node) && Local(subst);
      Successor(node, subst);
      ghost var q, zp := subst.parent, node.parent;
      Substitute(node, subst, temp);
      SubstitutedShape(node, subst, temp, q, zp);
      SubstitutedBalanced(node, subst, temp, q, zp);
    }

    // Lines 132-155: the node that leaves its place, and its only child.
    method FindSubstitute(node: Node) returns (subst: Node, temp: Node)
      requires Valid() && node in nodes
      ensures Substitutes(node, subst, temp) && (temp in nodes || temp == sentinel)
    {
      assert Local(node);
      if node.left == sentinel {
        return node, node.right;
      }
      if node.right == sentinel {
        return node, node.left;
      }
      ghost var visited;
      subst, visited := Min(node.right);
      Successor(node, subst);
      assert subst.left == sentinel;  // so the test of line 142 takes its else branch
      temp := subst.right;
    }

    ghost predicate Substitutes(node: Node, subst: Node, temp: Node)
      reads this, nodes
      requires node in nodes
    {
      if node.left == sentinel then subst == node && temp == node.right
      else if node.right == sentinel then subst == node && temp == node.left
      else
        && node.left in nodes && node.right in nodes && subst in nodes && subst != node && subst != root
        && subst.left == sentinel && subst.pos == subst.lo == node.pos + 1
        && subst.hi <= node.right.hi && temp == subst.right
    }

    // Lines 164-211 below the root.
    method Detach(node: Node, subst: Node, temp: Node) returns (red: bool, ghost d: Node?, ghost dl: bool)
      requires Valid() && node in nodes && Substitutes(node, subst, temp) && subst != root
      modifies this`root, this`nodes, this`order
      modifies nodes`left, nodes`right, nodes`parent, nodes`lo, nodes`pos, nodes`hi, nodes`red, nodes`bh
      modifies temp`parent, node`key
      ensures nodes == old(nodes) - {node} && 0 <= old(node.pos) < |old(order)|
      ensures order == old(order)[..old(node.pos)] + old(order)[old(node.pos) + 1..]
      ensures node.left == node.right == node.parent == null && node.key == 0
      ensures Removed(temp, red, d, dl)
    {
      red := subst.red;
      if subst == node {
        d, dl := node.parent, node.parent != null && node.parent.left == node;
        TakeOut(node, temp);
      } else {
        d, dl := if subst.parent == node then subst else subst.parent, subst.parent != node;
        TakeOutInner(node, subst, temp);
      }
    }

    method Delete(node: Node)
      requires Valid() && node in nodes
      modifies this`root, this`nodes, this`order
      modifies sentinel`parent, sentinel`red, sentinel`lo, sentinel`pos, sentinel`hi, sentinel`bh
      modifies nodes`left, nodes`right, nodes`parent, nodes`red, nodes`bh, nodes`lo, nodes`pos, nodes`hi, node`key
      ensures Valid() && nodes == old(nodes) - {node}
      ensures 0 <= old(node.pos) < |old(order)| && old(order)[old(node.pos)] == node
      ensures order == old(order)[..old(node.pos)] + old(order)[old(node.pos) + 1..]
      ensures node.left == node.right == node.parent == null && node.key == 0
    {
      assert Local(node);
      ghost var r := node.pos;
      var subst, temp := FindSubstitute(node);
      if subst == root {
        RemoveRoot(node, temp);
      } else {
        DeleteBelow(node, subst, temp);
      }
      DeletedSorted(r);
    }

    // Lines 162-270.
    method DeleteBelow(node: Node, subst: Node, temp: Node)
      requires Valid() && node in nodes && Substitutes(node, subst, temp) && subst != root
      requires temp == sentinel || temp in nodes
      modifies this`root, this`nodes, this`order
      modifies sentinel`parent, sentinel`red, sentinel`lo, sentinel`pos, sentinel`hi, sentinel`bh
      modifies nodes`left, nodes`right, nodes`parent, nodes`red, nodes`bh, nodes`lo, nodes`pos, nodes`hi, node`key
      ensures Shape() && Balanced(null, null, true) && !root.red && nodes == old(nodes) - {node}
      ensures 0 <= old(node.pos) < |old(order)|
      ensures order == old(order)[..old(node.pos)] + old(order)[old(node.pos) + 1..]
      ensures node.left == node.right == node.parent == null && node.key == 0
    {
      var red;
      ghost var d, dl;
      red, d, dl := Detach(node, subst, temp);
      if !red {
        DeleteFixup(temp, if temp.red then temp else null, d, dl);
      }
    }
  }
}
