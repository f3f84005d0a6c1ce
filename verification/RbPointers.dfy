/** The intrusive red-black tree: nodes with parent, left and right pointers,
    rewritten in place. Ghost arguments say which value of `RbShape` the pointers
    represent; they play no part in what the methods compute. */
module RbPointers {
  import opened RbShape

  class Node {
    var parent: Node?
    var left: Node?
    var right: Node?
    var color: Color

    constructor ()
      ensures parent == null && left == null && right == null && color == Red
    {
      parent, left, right, color := null, null, null, Red;
    }
  }

  /** `shape` is the tree the pointers spell; `region` bounds the nodes it is made of. */
  class Root {
    var node: Node?
    ghost var shape: Tree<Node>
    ghost var region: set<Node>

    constructor ()
      ensures Valid(this) && shape == Leaf && region == {}
    {
      node := null;
      shape := Leaf;
      region := {};
    }
  }

  // ---------------------------------------------------------------------------
  // What the pointers represent
  // ---------------------------------------------------------------------------

  /** The pointers below `x`, whose parent pointer is `p`, spell the tree `t`. */
  ghost predicate Sub(x: Node?, p: Node?, t: Tree<Node>)
    reads Nodes(t)
  {
    match t
    case Leaf => x == null
    case Bin(l, n, c, r) =>
      && x == n && n.parent == p && n.color == c
      && n !in Nodes(l) && n !in Nodes(r) && Nodes(l) !! Nodes(r)
      && Sub(n.left, n, l) && Sub(n.right, n, r)
  }

  /** The parent of the hole of `k`, when the whole tree hangs below `p`. */
  ghost function Above(k: Context<Node>, p: Node?): Node? {
    match k
    case Top => p
    case InL(n, _, _, _) => n
    case InR(_, n, _, _) => n
  }

  /** The pointers around the hole spell the context `k`: `x` sits in the hole, `apex` at the root below `p`. */
  ghost predicate Along(k: Context<Node>, x: Node?, apex: Node?, p: Node?)
    reads ContextNodes(k)
  {
    match k
    case Top => x == apex
    case InL(n, c, r, up) =>
      && n.left == x && n.color == c && n.parent == Above(up, p)
      && n !in Nodes(r) && n !in ContextNodes(up) && Nodes(r) !! ContextNodes(up)
      && Sub(n.right, n, r) && Along(up, n, apex, p)
    case InR(l, n, c, up) =>
      && n.right == x && n.color == c && n.parent == Above(up, p)
      && n !in Nodes(l) && n !in ContextNodes(up) && Nodes(l) !! ContextNodes(up)
      && Sub(n.left, n, l) && Along(up, n, apex, p)
  }

  /** The tree below `p` with root `apex`, looked at with `x` and its subtree `t` in focus. */
  ghost predicate Focus(k: Context<Node>, t: Tree<Node>, x: Node?, apex: Node?, p: Node?)
    reads ContextNodes(k), Nodes(t)
  {
    && Nodes(t) !! ContextNodes(k)
    && Sub(x, Above(k, p), t)
    && Along(k, x, apex, p)
  }

  /** Looking from the root and looking from inside are the same thing. */
  lemma {:induction false} Ascend(k: Context<Node>, t: Tree<Node>, x: Node?, apex: Node?, p: Node?)
    requires Focus(k, t, x, apex, p)
    ensures Sub(apex, p, Plug(k, t))
    decreases k
  {
    match k
    case Top =>
    case InL(n, c, r, up) => Ascend(up, Bin(t, n, c, r), n, apex, p);
    case InR(l, n, c, up) => Ascend(up, Bin(l, n, c, t), n, apex, p);
  }

  /** The pointers spell `root.shape`, which is a red-black tree. */
  ghost predicate Valid(root: Root)
    reads root, root.region
  {
    && Nodes(root.shape) <= root.region
    && Sub(root.node, null, root.shape)
    && RedBlack(root.shape) && IsBlack(root.shape)
  }

  // ---------------------------------------------------------------------------
  // Rotations
  // ---------------------------------------------------------------------------

  function RotL<N>(t: Tree<N>): Tree<N>
    requires t.Bin? && t.r.Bin?
  {
    Bin(Bin(t.l, t.n, t.c, t.r.l), t.r.n, t.r.c, t.r.r)
  }

  function RotR<N>(t: Tree<N>): Tree<N>
    requires t.Bin? && t.l.Bin?
  {
    Bin(t.l.l, t.l.n, t.l.c, Bin(t.l.r, t.n, t.c, t.r))
  }

  /** The nodes of the focused tree lie in the root's footprint. */
  ghost predicate Within(k: Context<Node>, t: Tree<Node>, root: Root)
    reads root
  {
    Nodes(t) <= root.region && ContextNodes(k) <= root.region
  }

  /** Makes the link that holds `child`, in its parent or at the root, hold `x` instead. */
  method Relink(parent: Node?, child: Node, x: Node?, root: Root, ghost k: Context<Node>)
    requires parent == Above(k, null) && child !in ContextNodes(k)
    requires Along(k, child, root.node, null)
    modifies root`node, ContextNodes(k)
    ensures Along(k, x, root.node, null)
  {
    if parent != null {
      if child == parent.left {
        parent.left := x;
      } else {
        parent.right := x;
      }
    } else {
      root.node := x;
    }
  }

  /** The part of a left rotation below the parent link. */
  method TurnLeft(node: Node, ghost p: Node?, ghost t: Tree<Node>) returns (right: Node)
    requires t.Bin? && t.r.Bin? && Sub(node, p, t)
    modifies Nodes(t)
    ensures right == t.r.n && Sub(right, p, RotL(t))
  {
    ghost var a, b, e := t.l, t.r.l, t.r.r;
    assert Sub(node.right, node, t.r);
    right := node.right;
    assert Sub(right.left, right, b) && Sub(right.right, right, e);
    node.right := right.left;
    if right.left != null {
      right.left.parent := node;
    }
    right.left := node;
    right.parent := node.parent;
    node.parent := right;
    assert Sub(node.left, node, a);
    assert Sub(node.right, node, b);
    assert Sub(right.right, right, e);
    assert Sub(node, right, RotL(t).l);
  }

  method RotateLeft(node: Node, root: Root, ghost k: Context<Node>, ghost t: Tree<Node>)
    requires t.Bin? && t.r.Bin?
    requires Focus(k, t, node, root.node, null) && Within(k, t, root)
    modifies root`node, root.region
    ensures Focus(k, RotL(t), t.r.n, root.node, null)
  {
    var parent := node.parent;
    var right := TurnLeft(node, parent, t);
    Relink(parent, node, right, root, k);
  }

  /** The part of a right rotation below the parent link. */
  method TurnRight(node: Node, ghost p: Node?, ghost t: Tree<Node>) returns (left: Node)
    requires t.Bin? && t.l.Bin? && Sub(node, p, t)
    modifies Nodes(t)
    ensures left == t.l.n && Sub(left, p, RotR(t))
  {
    ghost var a, b, e := t.l.l, t.l.r, t.r;
    assert Sub(node.left, node, t.l);
    left := node.left;
    assert Sub(left.left, left, a) && Sub(left.right, left, b);
    node.left := left.right;
    if left.right != null {
      left.right.parent := node;
    }
    left.right := node;
    left.parent := node.parent;
    node.parent := left;
    assert Sub(left.left, left, a);
    assert Sub(node.left, node, b);
    assert Sub(node.right, node, e);
    assert Sub(node, left, RotR(t).r);
  }

  method RotateRight(node: Node, root: Root, ghost k: Context<Node>, ghost t: Tree<Node>)
    requires t.Bin? && t.l.Bin?
    requires Focus(k, t, node, root.node, null) && Within(k, t, root)
    modifies root`node, root.region
    ensures Focus(k, RotR(t), t.l.n, root.node, null)
  {
    var parent := node.parent;
    var left := TurnRight(node, parent, t);
    Relink(parent, node, left, root, k);
  }

  /** Raises the left child above `node` by a right rotation, the child black and `node` red. */
  method RaiseLeft(child: Node, node: Node, root: Root, ghost k: Context<Node>, ghost t: Tree<Node>)
    requires t.Bin? && t.l.Bin? && child == t.l.n
    requires Focus(k, t, node, root.node, null) && Within(k, t, root)
    modifies root`node, root.region
    ensures Focus(k, RotR(t.(c := Red, l := t.l.(c := Black))), child, root.node, null)
  {
    ghost var t' := t.(c := Red, l := t.l.(c := Black));
    assert Sub(node.left, node, t.l);
    child.color := Black;
    node.color := Red;
    assert Sub(node.left, node, t'.l);
    assert Sub(node, Above(k, null), t');
    RotateRight(node, root, k, t');
  }

  method RaiseRight(child: Node, node: Node, root: Root, ghost k: Context<Node>, ghost t: Tree<Node>)
    requires t.Bin? && t.r.Bin? && child == t.r.n
    requires Focus(k, t, node, root.node, null) && Within(k, t, root)
    modifies root`node, root.region
    ensures Focus(k, RotL(t.(c := Red, r := t.r.(c := Black))), child, root.node, null)
  {
    ghost var t' := t.(c := Red, r := t.r.(c := Black));
    assert Sub(node.right, node, t.r);
    child.color := Black;
    node.color := Red;
    assert Sub(node.right, node, t'.r);
    assert Sub(node, Above(k, null), t');
    RotateLeft(node, root, k, t');
  }

  // ---------------------------------------------------------------------------
  // Moving the focus
  // ---------------------------------------------------------------------------

  /** One step of looking up: the parent's subtree, in the parent's context. */
  ghost function UpTree<N>(k: Context<N>, t: Tree<N>): Tree<N>
    requires !k.Top?
  {
    if k.InL? then Bin(t, k.n, k.c, k.r) else Bin(k.l, k.n, k.c, t)
  }

  lemma UpFocus(k: Context<Node>, t: Tree<Node>, x: Node?, apex: Node?, p: Node?)
    requires !k.Top? && Focus(k, t, x, apex, p)
    ensures Focus(k.up, UpTree(k, t), k.n, apex, p)
    ensures Nodes(UpTree(k, t)) + ContextNodes(k.up) == Nodes(t) + ContextNodes(k)
  {
  }

  lemma DownLeft(k: Context<Node>, t: Tree<Node>, x: Node, apex: Node?, p: Node?)
    requires t.Bin? && Focus(k, t, x, apex, p)
    ensures Focus(InL(t.n, t.c, t.r, k), t.l, x.left, apex, p)
    ensures Nodes(t.l) + ContextNodes(InL(t.n, t.c, t.r, k)) == Nodes(t) + ContextNodes(k)
  {
  }

  lemma DownRight(k: Context<Node>, t: Tree<Node>, x: Node, apex: Node?, p: Node?)
    requires t.Bin? && Focus(k, t, x, apex, p)
    ensures Focus(InR(t.l, t.n, t.c, k), t.r, x.right, apex, p)
    ensures Nodes(t.r) + ContextNodes(InR(t.l, t.n, t.c, k)) == Nodes(t) + ContextNodes(k)
  {
  }

  /** The same nodes in the same order, seen from two places. */
  predicate SameOrder<N(==)>(k: Context<N>, t: Tree<N>, k': Context<N>, t': Tree<N>) {
    Before(k') + InOrder(t') + After(k') == Before(k) + InOrder(t) + After(k)
  }

  lemma UpOrder<N>(k: Context<N>, t: Tree<N>)
    requires !k.Top?
    ensures SameOrder(k, t, k.up, UpTree(k, t))
  {
  }

  lemma RotationOrder<N>(t: Tree<N>)
    ensures t.Bin? && t.r.Bin? ==> InOrder(RotL(t)) == InOrder(t)
    ensures t.Bin? && t.l.Bin? ==> InOrder(RotR(t)) == InOrder(t)
  {
  }

  function Depth<N>(k: Context<N>): nat { if k.Top? then 0 else 1 + Depth(k.up) }

  lemma {:induction false} PlugBin<N>(k: Context<N>, t: Tree<N>)
    requires t.Bin?
    ensures Plug(k, t).Bin?
    decreases k
  {
    if !k.Top? { PlugBin(k.up, UpTree(k, t)); }
  }

  /** The context and subtree of node `x` in a tree that itself sits in `k`. */
  ghost function Locate<N>(t: Tree<N>, x: N, k: Context<N>): (Context<N>, Tree<N>)
    requires x in Nodes(t)
  {
    if t.n == x then (k, t)
    else if x in Nodes(t.l) then Locate(t.l, x, InL(t.n, t.c, t.r, k))
    else Locate(t.r, x, InR(t.l, t.n, t.c, k))
  }

  lemma {:induction false} LocateFocus(t: Tree<Node>, x: Node, k: Context<Node>, y: Node?, apex: Node?, p: Node?)
    requires x in Nodes(t) && Focus(k, t, y, apex, p)
    ensures var (k', t') := Locate(t, x, k);
            && t'.Bin? && t'.n == x
            && Focus(k', t', x, apex, p)
            && Plug(k', t') == Plug(k, t)
            && Nodes(t') + ContextNodes(k') == Nodes(t) + ContextNodes(k)
    decreases t
  {
    if t.n != x {
      if x in Nodes(t.l) {
        DownLeft(k, t, t.n, apex, p);
        LocateFocus(t.l, x, InL(t.n, t.c, t.r, k), t.n.left, apex, p);
      } else {
        DownRight(k, t, t.n, apex, p);
        LocateFocus(t.r, x, InR(t.l, t.n, t.c, k), t.n.right, apex, p);
      }
    }
  }

  /** Any node of a valid tree can be put in focus. */
  lemma FocusOn(x: Node, root: Root) returns (k: Context<Node>, t: Tree<Node>)
    requires Valid(root) && x in Nodes(root.shape)
    ensures t.Bin? && t.n == x && Focus(k, t, x, root.node, null) && Within(k, t, root)
    ensures Plug(k, t) == root.shape && InOrder(root.shape) == Before(k) + InOrder(t) + After(k)
    ensures Nodes(t) + ContextNodes(k) == Nodes(root.shape)
  {
    LocateFocus(root.shape, x, Top, root.node, root.node, null);
    var loc := Locate(root.shape, x, Top);
    k, t := loc.0, loc.1;
    PlugInOrder(k, t);
  }
}
