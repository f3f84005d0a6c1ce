/** Walking the red-black tree in order, and how deep a walk can get. */
module RbWalk {
  import opened Basics
  import opened RbShape
  import opened RbPointers

  /** No node occurs twice in a tree spelled by pointers. */
  lemma {:induction false} OrderDistinct(x: Node?, p: Node?, t: Tree<Node>)
    requires Sub(x, p, t)
    ensures Distinct(InOrder(t))
    decreases t
  {
    if t.Bin? {
      OrderDistinct(x.left, x, t.l);
      OrderDistinct(x.right, x, t.r);
      var l, r, q := InOrder(t.l), InOrder(t.r), InOrder(t);
      forall i, j | 0 <= i < j < |q|
        ensures q[i] != q[j]
      {
        if i < |l| { InOrderNodes(t.l, q[i]); }
        if j > |l| { InOrderNodes(t.r, q[j]); assert q[j] == r[j - |l| - 1]; }
        if i > |l| { assert q[i] == r[i - |l| - 1]; }
      }
    }
  }

  lemma DistinctIndex<N>(q: seq<N>, i: nat, j: nat)
    requires Distinct(q) && i < |q| && j < |q| && q[i] == q[j]
    ensures i == j
  {
  }

  /** Leftmost node below `x`. */
  method Leftmost(x: Node, ghost p: Node?, ghost t: Tree<Node>) returns (n: Node)
    requires t.Bin? && Sub(x, p, t)
    ensures InOrder(t) != [] && n == InOrder(t)[0]
  {
    n := x;
    ghost var s, q := t, p;
    assert Sub(n.left, n, s.l);
    while n.left != null
      invariant s.Bin? && Sub(n, q, s)
      invariant InOrder(s) <= InOrder(t)
      decreases s
    {
      q, s := n, s.l;
      n := n.left;
    }
    assert Sub(n.left, n, s.l);
  }

  method First(root: Root) returns (n: Node?)
    requires Valid(root)
    ensures InOrder(root.shape) == [] ==> n == null
    ensures InOrder(root.shape) != [] ==> n == InOrder(root.shape)[0]
  {
    if root.node == null {
      return null;
    }
    n := Leftmost(root.node, null, root.shape);
  }

  /** The climb of `Next`: up as long as we come from the right. */
  method Climb(x: Node, root: Root, ghost k0: Context<Node>, ghost t0: Tree<Node>) returns (parent: Node?)
    requires t0.Bin? && Focus(k0, t0, x, root.node, null)
    ensures After(k0) == [] ==> parent == null
    ensures After(k0) != [] ==> parent == After(k0)[0]
  {
    var node := x;
    ghost var k, t := k0, t0;
    while node.parent != null && node == node.parent.right
      invariant t.Bin? && Focus(k, t, node, root.node, null)
      invariant After(k) == After(k0)
      decreases k
    {
      assert k.InR?;
      UpFocus(k, t, node, root.node, null);
      node := node.parent;
      k, t := k.up, UpTree(k, t);
    }
    parent := node.parent;
  }

  /** The in-order successor of `node`, or null after the last node. */
  method Next(node: Node, root: Root, ghost i: nat) returns (next: Node?)
    requires Valid(root) && i < |InOrder(root.shape)| && InOrder(root.shape)[i] == node
    ensures next == if i + 1 < |InOrder(root.shape)| then InOrder(root.shape)[i + 1] else null
  {
    InOrderNodes(root.shape, node);
    ghost var k, t := FocusOn(node, root);
    ghost var j := |Before(k)| + |InOrder(t.l)|;
    OrderDistinct(root.node, null, root.shape);
    DistinctIndex(InOrder(root.shape), i, j);
    assert Sub(node.right, node, t.r);
    if node.right != null {
      next := Leftmost(node.right, node, t.r);
    } else {
      next := Climb(node, root, k, t);
    }
  }

  /** Following `Next` from `First` visits every node once, in order, and then stops. */
  method Walk(root: Root) returns (visited: seq<Node>)
    requires Valid(root)
    ensures visited == InOrder(root.shape) && Distinct(visited)
    ensures forall n :: n in visited <==> n in Nodes(root.shape)
  {
    visited := [];
    var n := First(root);
    while n != null
      invariant visited <= InOrder(root.shape)
      invariant n == null ==> visited == InOrder(root.shape)
      invariant n != null ==> |visited| < |InOrder(root.shape)| && InOrder(root.shape)[|visited|] == n
      decreases |InOrder(root.shape)| - |visited|
    {
      ghost var i := |visited|;
      visited := visited + [n];
      n := Next(n, root, i);
    }
    OrderDistinct(root.node, null, root.shape);
    forall x ensures x in visited <==> x in Nodes(root.shape) {
      InOrderNodes(root.shape, x);
    }
  }

  /** Every valid tree is shallow. */
  lemma ValidIsShallow(root: Root)
    requires Valid(root)
    ensures Pow2((Height(root.shape) + 1) / 2) <= Size(root.shape) + 1
  {
    HeightBound(root.shape);
  }
}
