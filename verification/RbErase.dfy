/** Removing a node from the red-black tree. */
module RbErase {
  import opened RbShape
  import opened RbPointers

  // ---------------------------------------------------------------------------
  // The fixup, on values
  // ---------------------------------------------------------------------------

  /** The subtree in focus is one black node short of what its context wants. */
  ghost predicate Short<N>(k: Context<N>, t: Tree<N>) {
    Balanced(t) && Accepts(k, BlackHeight(t) + 1, false)
  }

  /** The sibling of a short black subtree exists. */
  lemma SiblingExists<N>(k: Context<N>, t: Tree<N>)
    requires Short(k, t) && !k.Top?
    ensures k.InL? ==> k.r.Bin?
    ensures k.InR? ==> k.l.Bin?
  {
  }

  /** A red sibling, raised above the parent, leaves a black one. */
  ghost function RedSiblingL<N>(k: Context<N>): Context<N>
    requires k.InL? && k.r.Bin?
  {
    InL(k.n, Red, k.r.l, InL(k.r.n, Black, k.r.r, k.up))
  }

  ghost function RedSiblingR<N>(k: Context<N>): Context<N>
    requires k.InR? && k.l.Bin?
  {
    InR(k.l.r, k.n, Red, InR(k.l.l, k.l.n, Black, k.up))
  }

  lemma RedSiblingLFits<N>(k: Context<N>, t: Tree<N>)
    requires Short(k, t) && k.InL? && k.r.Bin? && k.r.c == Red
    ensures var k' := RedSiblingL(k); Short(k', t) && k'.r.Bin? && IsBlack(k'.r) && SameOrder(k, t, k', t)
  {
    RedSiblingLColors(k, t);
    var s := k.r;
    assert After(k) == [k.n] + (InOrder(s.l) + [s.n] + InOrder(s.r)) + After(k.up);
    assert After(RedSiblingL(k)) == After(k);
  }

  lemma RedSiblingLColors<N>(k: Context<N>, t: Tree<N>)
    requires Short(k, t) && k.InL? && k.r.Bin? && k.r.c == Red
    ensures var k' := RedSiblingL(k); Short(k', t) && k'.r.Bin? && IsBlack(k'.r)
  {
  }

  lemma RedSiblingRFits<N>(k: Context<N>, t: Tree<N>)
    requires Short(k, t) && k.InR? && k.l.Bin? && k.l.c == Red
    ensures var k' := RedSiblingR(k); Short(k', t) && k'.l.Bin? && IsBlack(k'.l) && SameOrder(k, t, k', t)
  {
    RedSiblingRColors(k, t);
    var s := k.l;
    assert Before(k) == Before(k.up) + (InOrder(s.l) + [s.n] + InOrder(s.r)) + [k.n];
    assert Before(RedSiblingR(k)) == Before(k);
  }

  lemma RedSiblingRColors<N>(k: Context<N>, t: Tree<N>)
    requires Short(k, t) && k.InR? && k.l.Bin? && k.l.c == Red
    ensures var k' := RedSiblingR(k); Short(k', t) && k'.l.Bin? && IsBlack(k'.l)
  {
  }

  /** A black sibling with black children turns red; the parent's subtree is short instead. */
  lemma BlackNephewsFit<N>(k: Context<N>, t: Tree<N>)
    requires Short(k, t) && RedBlack(t) && IsBlack(t) && !k.Top?
    requires k.InL? ==> k.r.Bin? && IsBlack(k.r) && IsBlack(k.r.l) && IsBlack(k.r.r)
    requires k.InR? ==> k.l.Bin? && IsBlack(k.l) && IsBlack(k.l.l) && IsBlack(k.l.r)
    ensures var k' := if k.InL? then k.(r := k.r.(c := Red)) else k.(l := k.l.(c := Red));
            Short(k.up, UpTree(k', t)) && SameOrder(k, t, k.up, UpTree(k', t))
  {
    var k' := if k.InL? then k.(r := k.r.(c := Red)) else k.(l := k.l.(c := Red));
    BlackNephewsColors(k, t);
    UpOrder(k', t);
  }

  lemma BlackNephewsColors<N>(k: Context<N>, t: Tree<N>)
    requires Short(k, t) && RedBlack(t) && IsBlack(t) && !k.Top?
    requires k.InL? ==> k.r.Bin? && IsBlack(k.r) && IsBlack(k.r.l) && IsBlack(k.r.r)
    requires k.InR? ==> k.l.Bin? && IsBlack(k.l) && IsBlack(k.l.l) && IsBlack(k.l.r)
    ensures var k' := if k.InL? then k.(r := k.r.(c := Red)) else k.(l := k.l.(c := Red));
            Short(k.up, UpTree(k', t))
  {
    if k.c == Red {
      AcceptsBlackToo(k.up, BlackHeight(t) + 1);
    }
  }

  /** The sibling with its red child on the far side, turned there if need be. */
  ghost function FarRedL<N>(s: Tree<N>): Tree<N>
    requires s.Bin? && (IsBlack(s.r) ==> s.l.Bin?)
  {
    if IsBlack(s.r) then RotR(s.(c := Red, l := s.l.(c := Black))) else s
  }

  ghost function FarRedR<N>(s: Tree<N>): Tree<N>
    requires s.Bin? && (IsBlack(s.l) ==> s.r.Bin?)
  {
    if IsBlack(s.l) then RotL(s.(c := Red, r := s.r.(c := Black))) else s
  }

  /** Parent, short subtree and sibling after the last rotation. */
  ghost function FinishedL<N>(k: Context<N>, t: Tree<N>): Tree<N>
    requires k.InL? && k.r.Bin? && (IsBlack(k.r.r) ==> k.r.l.Bin?)
  {
    var s := FarRedL(k.r);
    RotL(Bin(t, k.n, Black, Bin(s.l, s.n, k.c, if s.r.Bin? then s.r.(c := Black) else Leaf)))
  }

  ghost function FinishedR<N>(k: Context<N>, t: Tree<N>): Tree<N>
    requires k.InR? && k.l.Bin? && (IsBlack(k.l.l) ==> k.l.r.Bin?)
  {
    var s := FarRedR(k.l);
    RotR(Bin(Bin(if s.l.Bin? then s.l.(c := Black) else Leaf, s.n, k.c, s.r), k.n, Black, t))
  }

  lemma FarRedLColors<N>(s: Tree<N>)
    requires s.Bin? && RedBlack(s) && IsBlack(s) && !(IsBlack(s.l) && IsBlack(s.r))
    ensures var z := FarRedL(s);
            && z.Bin? && z.r.Bin? && RedBlack(z.l) && RedBlack(z.r.(c := Black))
            && BlackHeight(z.l) + 1 == BlackHeight(s) && BlackHeight(z.r.(c := Black)) == BlackHeight(s)
  {
    var z := FarRedL(s);
    if IsBlack(s.r) {
      assert RedBlack(s.l);
      assert z.l == s.l.l && z.r == Bin(s.l.r, s.n, Red, s.r);
    } else {
      assert RedBlack(s.r);
    }
  }

  lemma FarRedRColors<N>(s: Tree<N>)
    requires s.Bin? && RedBlack(s) && IsBlack(s) && !(IsBlack(s.l) && IsBlack(s.r))
    ensures var z := FarRedR(s);
            && z.Bin? && z.l.Bin? && RedBlack(z.r) && RedBlack(z.l.(c := Black))
            && BlackHeight(z.r) + 1 == BlackHeight(s) && BlackHeight(z.l.(c := Black)) == BlackHeight(s)
  {
    var z := FarRedR(s);
    if IsBlack(s.l) {
      assert RedBlack(s.r);
      assert z.r == s.r.r && z.l == Bin(s.l, s.n, Red, s.r.l);
    } else {
      assert RedBlack(s.l);
    }
  }

  lemma FinishedLColors<N>(k: Context<N>, t: Tree<N>)
    requires Short(k, t) && RedBlack(t) && IsBlack(t) && k.InL? && k.r.Bin? && IsBlack(k.r)
    requires !(IsBlack(k.r.l) && IsBlack(k.r.r))
    ensures var f := FinishedL(k, t); RedBlack(f) && Accepts(k.up, BlackHeight(f), !IsBlack(f))
  {
    var s, f := FarRedL(k.r), FinishedL(k, t);
    FarRedLColors(k.r);
    assert f == Bin(Bin(t, k.n, Black, s.l), s.n, k.c, s.r.(c := Black));
  }

  lemma FinishedRColors<N>(k: Context<N>, t: Tree<N>)
    requires Short(k, t) && RedBlack(t) && IsBlack(t) && k.InR? && k.l.Bin? && IsBlack(k.l)
    requires !(IsBlack(k.l.l) && IsBlack(k.l.r))
    ensures var f := FinishedR(k, t); RedBlack(f) && Accepts(k.up, BlackHeight(f), !IsBlack(f))
  {
    var s, f := FarRedR(k.l), FinishedR(k, t);
    FarRedRColors(k.l);
    assert f == Bin(s.l.(c := Black), s.n, k.c, Bin(s.r, k.n, Black, t));
  }

  lemma FinishedLOrder<N>(k: Context<N>, t: Tree<N>)
    requires k.InL? && k.r.Bin? && (IsBlack(k.r.r) ==> k.r.l.Bin?)
    ensures SameOrder(k, t, k.up, FinishedL(k, t))
  {
    var s := FarRedL(k.r);
    RotationOrder(k.r.(c := Red, l := if k.r.l.Bin? then k.r.l.(c := Black) else Leaf));
    assert InOrder(s) == InOrder(k.r);
    var u := Bin(t, k.n, Black, Bin(s.l, s.n, k.c, if s.r.Bin? then s.r.(c := Black) else Leaf));
    RotationOrder(u);
    assert InOrder(u.r) == InOrder(s);
    assert InOrder(u) == InOrder(UpTree(k, t));
    UpOrder(k, t);
  }

  lemma FinishedROrder<N>(k: Context<N>, t: Tree<N>)
    requires k.InR? && k.l.Bin? && (IsBlack(k.l.l) ==> k.l.r.Bin?)
    ensures SameOrder(k, t, k.up, FinishedR(k, t))
  {
    var s := FarRedR(k.l);
    RotationOrder(k.l.(c := Red, r := if k.l.r.Bin? then k.l.r.(c := Black) else Leaf));
    assert InOrder(s) == InOrder(k.l);
    var u := Bin(Bin(if s.l.Bin? then s.l.(c := Black) else Leaf, s.n, k.c, s.r), k.n, Black, t);
    RotationOrder(u);
    assert InOrder(u.l) == InOrder(s);
    assert InOrder(u) == InOrder(UpTree(k, t));
    UpOrder(k, t);
  }

  // ---------------------------------------------------------------------------
  // The fixup, on pointers
  // ---------------------------------------------------------------------------

  /** Red sibling on the right: raise it, so that the parent gets a black one. */
  method RaiseSiblingRight(node: Node?, parent: Node, root: Root, ghost k: Context<Node>, ghost t: Tree<Node>)
    returns (sibling: Node)
    requires Focus(k, t, node, root.node, null) && Within(k, t, root)
    requires k.InL? && parent == k.n && k.r.Bin? && k.r.l.Bin?
    modifies root`node, root.region
    ensures Focus(RedSiblingL(k), t, node, root.node, null) && Within(RedSiblingL(k), t, root)
    ensures sibling == k.r.l.n
  {
    UpFocus(k, t, node, root.node, null);
    ghost var tp := UpTree(k, t);
    RaiseRight(parent.right, parent, root, k.up, tp);
    ghost var u := RotL(tp.(c := Red, r := tp.r.(c := Black)));
    DownLeft(k.up, u, u.n, root.node, null);
    ghost var k1 := InL(u.n, u.c, u.r, k.up);
    assert u.n.left == parent;
    DownLeft(k1, u.l, parent, root.node, null);
    assert RedSiblingL(k) == InL(u.l.n, u.l.c, u.l.r, k1);
    assert Sub(parent.right, parent, k.r.l);
    sibling := parent.right;
  }

  method RaiseSiblingLeft(node: Node?, parent: Node, root: Root, ghost k: Context<Node>, ghost t: Tree<Node>)
    returns (sibling: Node)
    requires Focus(k, t, node, root.node, null) && Within(k, t, root)
    requires k.InR? && parent == k.n && k.l.Bin? && k.l.r.Bin?
    modifies root`node, root.region
    ensures Focus(RedSiblingR(k), t, node, root.node, null) && Within(RedSiblingR(k), t, root)
    ensures sibling == k.l.r.n
  {
    UpFocus(k, t, node, root.node, null);
    ghost var tp := UpTree(k, t);
    RaiseLeft(parent.left, parent, root, k.up, tp);
    ghost var u := RotR(tp.(c := Red, l := tp.l.(c := Black)));
    DownRight(k.up, u, u.n, root.node, null);
    ghost var k1 := InR(u.l, u.n, u.c, k.up);
    assert u.n.right == parent;
    DownRight(k1, u.r, parent, root.node, null);
    assert RedSiblingR(k) == InR(u.r.l, u.r.n, u.r.c, k1);
    assert Sub(parent.left, parent, k.l.r);
    sibling := parent.left;
  }

  ghost function PaintedR<N>(t: Tree<N>): Tree<N>
    requires t.Bin? && t.r.Bin?
  {
    t.(c := Black, r := t.r.(c := t.c, r := if t.r.r.Bin? then t.r.r.(c := Black) else Leaf))
  }

  ghost function PaintedL<N>(t: Tree<N>): Tree<N>
    requires t.Bin? && t.l.Bin?
  {
    t.(c := Black, l := t.l.(c := t.c, l := if t.l.l.Bin? then t.l.l.(c := Black) else Leaf))
  }

  /** Colors for the last rotation: sibling takes the parent's, parent and far nephew turn black. */
  method PaintRight(parent: Node, sibling: Node, ghost p: Node?, ghost t: Tree<Node>)
    requires t.Bin? && t.r.Bin? && Sub(parent, p, t) && sibling == t.r.n
    modifies Nodes(t)
    ensures Sub(parent, p, PaintedR(t))
  {
    ghost var t' := PaintedR(t);
    assert Sub(sibling, parent, t.r) && Sub(sibling.right, sibling, t.r.r);
    sibling.color := parent.color;
    parent.color := Black;
    if sibling.right != null {
      sibling.right.color := Black;
    }
    assert Sub(sibling.left, sibling, t'.r.l);
    assert Sub(sibling.right, sibling, t'.r.r);
    assert Sub(sibling, parent, t'.r);
  }

  method PaintLeft(parent: Node, sibling: Node, ghost p: Node?, ghost t: Tree<Node>)
    requires t.Bin? && t.l.Bin? && Sub(parent, p, t) && sibling == t.l.n
    modifies Nodes(t)
    ensures Sub(parent, p, PaintedL(t))
  {
    ghost var t' := PaintedL(t);
    assert Sub(sibling, parent, t.l) && Sub(sibling.left, sibling, t.l.l);
    sibling.color := parent.color;
    parent.color := Black;
    if sibling.left != null {
      sibling.left.color := Black;
    }
    assert Sub(sibling.left, sibling, t'.l.l);
    assert Sub(sibling.right, sibling, t'.l.r);
    assert Sub(sibling, parent, t'.l);
  }

  /** Turns the red nephew to the far side, when it is on the near one. */
  method TurnNephewRight(parent: Node, sibling0: Node, root: Root, ghost k: Context<Node>, ghost s: Tree<Node>)
    returns (sibling: Node)
    requires Focus(k, s, sibling0, root.node, null) && Within(k, s, root)
    requires s.Bin? && k.InR? && parent == k.n && (IsBlack(s.r) ==> s.l.Bin?)
    modifies root`node, root.region
    ensures sibling == FarRedL(s).n && Focus(k, FarRedL(s), sibling, root.node, null) && Within(k, FarRedL(s), root)
  {
    sibling := sibling0;
    assert Sub(sibling.left, sibling, s.l) && Sub(sibling.right, sibling, s.r);
    if sibling.right == null || sibling.right.color == Black {
      // the near nephew is red, hence not null
      RaiseLeft(sibling.left, sibling, root, k, s);
      sibling := parent.right;
    }
  }

  method TurnNephewLeft(parent: Node, sibling0: Node, root: Root, ghost k: Context<Node>, ghost s: Tree<Node>)
    returns (sibling: Node)
    requires Focus(k, s, sibling0, root.node, null) && Within(k, s, root)
    requires s.Bin? && k.InL? && parent == k.n && (IsBlack(s.l) ==> s.r.Bin?)
    modifies root`node, root.region
    ensures sibling == FarRedR(s).n && Focus(k, FarRedR(s), sibling, root.node, null) && Within(k, FarRedR(s), root)
  {
    sibling := sibling0;
    assert Sub(sibling.left, sibling, s.l) && Sub(sibling.right, sibling, s.r);
    if sibling.left == null || sibling.left.color == Black {
      // the near nephew is red, hence not null
      RaiseRight(sibling.right, sibling, root, k, s);
      sibling := parent.left;
    }
  }

  /** Black sibling on the right with a red child: at most two rotations end the fixup. */
  method FinishLeft(node: Node?, parent: Node, sibling0: Node, root: Root, ghost k: Context<Node>, ghost t: Tree<Node>)
    requires Focus(k, t, node, root.node, null) && Within(k, t, root)
    requires k.InL? && parent == k.n && k.r.Bin? && sibling0 == k.r.n
    requires IsBlack(k.r.r) ==> k.r.l.Bin?
    modifies root`node, root.region
    ensures var f := FinishedL(k, t);
            Focus(k.up, f, f.n, root.node, null) && Within(k.up, f, root)
  {
    UpFocus(k, t, node, root.node, null);
    DownRight(k.up, UpTree(k, t), parent, root.node, null);
    ghost var ks := InR(t, k.n, k.c, k.up);
    var sibling := TurnNephewRight(parent, sibling0, root, ks, k.r);
    ghost var s := FarRedL(k.r);
    UpFocus(ks, s, sibling, root.node, null);
    ghost var u := UpTree(ks, s);
    PaintRight(parent, sibling, parent.parent, u);
    RotateLeft(parent, root, k.up, PaintedR(u));
  }

  method FinishRight(node: Node?, parent: Node, sibling0: Node, root: Root, ghost k: Context<Node>, ghost t: Tree<Node>)
    requires Focus(k, t, node, root.node, null) && Within(k, t, root)
    requires k.InR? && parent == k.n && k.l.Bin? && sibling0 == k.l.n
    requires IsBlack(k.l.l) ==> k.l.r.Bin?
    modifies root`node, root.region
    ensures var f := FinishedR(k, t);
            Focus(k.up, f, f.n, root.node, null) && Within(k.up, f, root)
  {
    UpFocus(k, t, node, root.node, null);
    DownLeft(k.up, UpTree(k, t), parent, root.node, null);
    ghost var ks := InL(k.n, k.c, t, k.up);
    var sibling := TurnNephewLeft(parent, sibling0, root, ks, k.l);
    ghost var s := FarRedR(k.l);
    UpFocus(ks, s, sibling, root.node, null);
    ghost var u := UpTree(ks, s);
    PaintLeft(parent, sibling, parent.parent, u);
    RotateRight(parent, root, k.up, PaintedL(u));
  }

  ghost function RedSiblingOf<N>(k: Context<N>): Context<N>
    requires k.InL? ==> k.r.Bin?
    requires k.InR? ==> k.l.Bin?
  {
    match k
    case Top => k
    case InL(_, _, s, _) => k.(r := s.(c := Red))
    case InR(s, _, _, _) => k.(l := s.(c := Red))
  }

  /** Black sibling, black nephews: the sibling turns red and the parent becomes the short one. */
  method ReddenSibling(node: Node?, parent: Node, sibling: Node, root: Root, ghost k: Context<Node>, ghost t: Tree<Node>)
    requires Focus(k, t, node, root.node, null) && Within(k, t, root)
    requires !k.Top? && parent == k.n
    requires k.InL? ==> k.r.Bin? && sibling == k.r.n
    requires k.InR? ==> k.l.Bin? && sibling == k.l.n
    modifies root.region
    ensures var t' := UpTree(RedSiblingOf(k), t);
            Focus(k.up, t', parent, root.node, null) && Within(k.up, t', root)
  {
    UpFocus(k, t, node, root.node, null);
    sibling.color := Red;
    ghost var t' := UpTree(RedSiblingOf(k), t);
    assert Sub(parent.left, parent, t'.l);
    assert Sub(parent.right, parent, t'.r);
  }

  /** How far a short subtree can still climb: not at all once red or at the root. */
  ghost function Climb<N>(k: Context<N>, t: Tree<N>): nat {
    if k.Top? || !IsBlack(t) then 0 else Depth(k)
  }

  /** Looking at the whole tree from its root, once it is legal. */
  lemma WholeTree(k: Context<Node>, t: Tree<Node>, x: Node, root: Root)
    returns (k': Context<Node>, t': Tree<Node>)
    requires Focus(k, t, x, root.node, null) && Within(k, t, root)
    requires RedBlack(t) && Accepts(k, BlackHeight(t), !IsBlack(t))
    ensures k' == Top && t' == Plug(k, t) && Focus(k', t', root.node, root.node, null) && Within(k', t', root)
    ensures RedBlack(t') && IsBlack(t') && Short(k', t') && SameOrder(k, t, k', t')
  {
    k', t' := Top, Plug(k, t);
    Ascend(k, t, x, root.node, null);
    PlugNodes(k, t);
    PlugRedBlack(k, t);
    PlugInOrder(k, t);
  }

  /** The round once the right sibling is black. */
  method BlackSiblingLeft(node0: Node?, parent0: Node, sibling: Node, root: Root, ghost k: Context<Node>, ghost t: Tree<Node>)
    returns (node: Node?, parent: Node?, ghost k': Context<Node>, ghost t': Tree<Node>)
    requires Focus(k, t, node0, root.node, null) && Within(k, t, root)
    requires Short(k, t) && IsBlack(t) && k.InL? && parent0 == k.n
    requires k.r.Bin? && IsBlack(k.r) && sibling == k.r.n
    modifies root`node, root.region
    ensures Focus(k', t', node, root.node, null) && Within(k', t', root) && parent == Above(k', null)
    ensures Short(k', t') && SameOrder(k, t, k', t')
    ensures k'.Top? || (k' == k.up && t'.Bin? && t'.c == k.c)
  {
    assert Sub(sibling, parent0, k.r);
    assert Sub(sibling.left, sibling, k.r.l) && Sub(sibling.right, sibling, k.r.r);
    if (sibling.left == null || sibling.left.color == Black) && (sibling.right == null || sibling.right.color == Black) {
      BlackNephewsFit(k, t);
      ReddenSibling(node0, parent0, sibling, root, k, t);
      node, k', t' := parent0, k.up, UpTree(RedSiblingOf(k), t);
      parent := parent0.parent;
    } else {
      FinishedLColors(k, t);
      FinishedLOrder(k, t);
      FinishLeft(node0, parent0, sibling, root, k, t);
      k', t' := WholeTree(k.up, FinishedL(k, t), FinishedL(k, t).n, root);
      node, parent := root.node, null;
    }
  }

  method EraseRoundLeft(node0: Node?, parent0: Node, root: Root, ghost k: Context<Node>, ghost t: Tree<Node>)
    returns (node: Node?, parent: Node?, ghost k': Context<Node>, ghost t': Tree<Node>)
    requires Focus(k, t, node0, root.node, null) && Within(k, t, root)
    requires Short(k, t) && IsBlack(t) && k.InL? && parent0 == k.n
    modifies root`node, root.region
    ensures Focus(k', t', node, root.node, null) && Within(k', t', root) && parent == Above(k', null)
    ensures Short(k', t') && SameOrder(k, t, k', t') && Climb(k', t') < Climb(k, t)
  {
    ghost var kk := k;
    SiblingExists(k, t);
    var sibling := parent0.right;
    assert Sub(sibling, parent0, k.r);
    if sibling.color == Red {
      RedSiblingLFits(k, t);
      sibling := RaiseSiblingRight(node0, parent0, root, k, t);
      kk := RedSiblingL(k);
    }
    node, parent, k', t' := BlackSiblingLeft(node0, parent0, sibling, root, kk, t);
  }

  /** The round once the left sibling is black. */
  method BlackSiblingRight(node0: Node?, parent0: Node, sibling: Node, root: Root, ghost k: Context<Node>, ghost t: Tree<Node>)
    returns (node: Node?, parent: Node?, ghost k': Context<Node>, ghost t': Tree<Node>)
    requires Focus(k, t, node0, root.node, null) && Within(k, t, root)
    requires Short(k, t) && IsBlack(t) && k.InR? && parent0 == k.n
    requires k.l.Bin? && IsBlack(k.l) && sibling == k.l.n
    modifies root`node, root.region
    ensures Focus(k', t', node, root.node, null) && Within(k', t', root) && parent == Above(k', null)
    ensures Short(k', t') && SameOrder(k, t, k', t')
    ensures k'.Top? || (k' == k.up && t'.Bin? && t'.c == k.c)
  {
    assert Sub(sibling, parent0, k.l);
    assert Sub(sibling.left, sibling, k.l.l) && Sub(sibling.right, sibling, k.l.r);
    if (sibling.left == null || sibling.left.color == Black) && (sibling.right == null || sibling.right.color == Black) {
      BlackNephewsFit(k, t);
      ReddenSibling(node0, parent0, sibling, root, k, t);
      node, k', t' := parent0, k.up, UpTree(RedSiblingOf(k), t);
      parent := parent0.parent;
    } else {
      FinishedRColors(k, t);
      FinishedROrder(k, t);
      FinishRight(node0, parent0, sibling, root, k, t);
      k', t' := WholeTree(k.up, FinishedR(k, t), FinishedR(k, t).n, root);
      node, parent := root.node, null;
    }
  }

  method EraseRoundRight(node0: Node?, parent0: Node, root: Root, ghost k: Context<Node>, ghost t: Tree<Node>)
    returns (node: Node?, parent: Node?, ghost k': Context<Node>, ghost t': Tree<Node>)
    requires Focus(k, t, node0, root.node, null) && Within(k, t, root)
    requires Short(k, t) && IsBlack(t) && k.InR? && parent0 == k.n
    modifies root`node, root.region
    ensures Focus(k', t', node, root.node, null) && Within(k', t', root) && parent == Above(k', null)
    ensures Short(k', t') && SameOrder(k, t, k', t') && Climb(k', t') < Climb(k, t)
  {
    ghost var kk := k;
    SiblingExists(k, t);
    var sibling := parent0.left;
    assert Sub(sibling, parent0, k.l);
    if sibling.color == Red {
      RedSiblingRFits(k, t);
      sibling := RaiseSiblingLeft(node0, parent0, root, k, t);
      kk := RedSiblingR(k);
    }
    node, parent, k', t' := BlackSiblingRight(node0, parent0, sibling, root, kk, t);
  }

  /** Which child of its parent a short subtree is can be read off the left pointer, even if it is null. */
  lemma FocusSide(node: Node?, root: Root, k: Context<Node>, t: Tree<Node>)
    requires Focus(k, t, node, root.node, null) && Short(k, t)
    requires node != root.node
    ensures !k.Top? && (k.InL? <==> node == k.n.left)
  {
    SiblingExists(k, t);
    UpFocus(k, t, node, root.node, null);
  }

  /** Restores the red-black rules after a black node was taken out above `node0`, which may be null. */
  method EraseFixup(node0: Node?, parent0: Node?, root: Root, ghost k0: Context<Node>, ghost t0: Tree<Node>)
    returns (ghost t': Tree<Node>)
    requires Focus(k0, t0, node0, root.node, null) && Within(k0, t0, root) && parent0 == Above(k0, null)
    requires Short(k0, t0)
    modifies root`node, root.region
    ensures Sub(root.node, null, t') && Nodes(t') <= root.region
    ensures RedBlack(t') && IsBlack(t')
    ensures InOrder(t') == Before(k0) + InOrder(t0) + After(k0)
  {
    var node, parent := node0, parent0;
    ghost var k, t := k0, t0;
    while (node == null || node.color == Black) && node != root.node
      invariant Focus(k, t, node, root.node, null) && Within(k, t, root) && parent == Above(k, null)
      invariant Short(k, t) && SameOrder(k0, t0, k, t)
      decreases Climb(k, t)
    {
      FocusSide(node, root, k, t);
      if node == parent.left {
        node, parent, k, t := EraseRoundLeft(node, parent, root, k, t);
      } else {
        node, parent, k, t := EraseRoundRight(node, parent, root, k, t);
      }
    }
    if !k.Top? { ApexInContext(k, node, root.node, null); }
    t' := BlackenFocus(node, root, k, t);
  }

  lemma {:induction false} ApexInContext(k: Context<Node>, x: Node?, apex: Node?, p: Node?)
    requires Along(k, x, apex, p) && !k.Top?
    ensures apex != null && apex in ContextNodes(k)
    decreases k
  {
    if !k.up.Top? { ApexInContext(k.up, k.n, apex, p); }
  }

  /** The last store of the fixup: the node in focus turns black, if it is there. */
  method BlackenFocus(node: Node?, root: Root, ghost k: Context<Node>, ghost t: Tree<Node>)
    returns (ghost t': Tree<Node>)
    requires Focus(k, t, node, root.node, null) && Within(k, t, root) && Short(k, t)
    requires k.Top? || !IsBlack(t)
    modifies root.region
    ensures Sub(root.node, null, t') && Nodes(t') <= root.region
    ensures RedBlack(t') && IsBlack(t')
    ensures InOrder(t') == Before(k) + InOrder(t) + After(k)
  {
    ghost var b := if t.Bin? then t.(c := Black) else t;
    if node != null {
      node.color := Black;
    }
    assert Focus(k, b, node, root.node, null);
    Ascend(k, b, node, root.node, null);
    BlackenedShape(k, t, b);
    t' := Plug(k, b);
  }

  lemma BlackenedShape(k: Context<Node>, t: Tree<Node>, b: Tree<Node>)
    requires Short(k, t) && (k.Top? || !IsBlack(t)) && b == if t.Bin? then t.(c := Black) else t
    ensures RedBlack(Plug(k, b)) && IsBlack(Plug(k, b))
    ensures InOrder(Plug(k, b)) == Before(k) + InOrder(t) + After(k)
    ensures Nodes(Plug(k, b)) == Nodes(t) + ContextNodes(k)
  {
    PlugNodes(k, b);
    PlugInOrder(k, b);
    PlugRedBlack(k, b);
  }

  // ---------------------------------------------------------------------------
  // Taking a node with at most one child out
  // ---------------------------------------------------------------------------

  ghost function OnlyChild<N>(t: Tree<N>): Tree<N>
    requires t.Bin?
  {
    if t.l.Leaf? then t.r else t.l
  }

  /** What taking out the root of `t`, which has a child missing, does to the rules. */
  lemma TakenOut<N>(k: Context<N>, t: Tree<N>)
    requires t.Bin? && (t.l.Leaf? || t.r.Leaf?)
    requires RedBlack(t) && Accepts(k, BlackHeight(t), !IsBlack(t))
    ensures t.c == Black ==> Short(k, OnlyChild(t))
    ensures t.c == Red ==> OnlyChild(t).Leaf? && Accepts(k, 0, false)
  {
    if t.c == Red {
      AcceptsBlackToo(k, BlackHeight(t));
    }
  }

  method SpliceOut(node: Node, child: Node?, parent: Node?, root: Root, ghost k: Context<Node>, ghost t: Tree<Node>)
    requires Focus(k, t, node, root.node, null) && Within(k, t, root)
    requires t.Bin? && (t.l.Leaf? || t.r.Leaf?) && parent == node.parent
    requires child == if node.left == null then node.right else node.left
    modifies root`node, root.region
    ensures Focus(k, OnlyChild(t), child, root.node, null) && Within(k, OnlyChild(t), root)
  {
    assert Sub(node.left, node, t.l) && Sub(node.right, node, t.r);
    if child != null {
      child.parent := parent;
    }
    assert Sub(child, parent, OnlyChild(t));
    Relink(parent, node, child, root, k);
  }

  /** The tail of erase: fix up unless the node taken out was red. */
  method Settle(color: Color, child: Node?, parent: Node?, root: Root, ghost k: Context<Node>, ghost t: Tree<Node>)
    returns (ghost t': Tree<Node>)
    requires Focus(k, t, child, root.node, null) && Within(k, t, root) && parent == Above(k, null)
    requires color == Black ==> Short(k, t)
    requires color == Red ==> t.Leaf? && Accepts(k, 0, false)
    modifies root`node, root.region
    ensures Sub(root.node, null, t') && Nodes(t') <= root.region
    ensures RedBlack(t') && IsBlack(t')
    ensures InOrder(t') == Before(k) + InOrder(t) + After(k)
  {
    if color == Black {
      t' := EraseFixup(child, parent, root, k, t);
    } else {
      Ascend(k, t, child, root.node, null);
      PlugNodes(k, t);
      PlugInOrder(k, t);
      PlugRedBlack(k, t);
      t' := Plug(k, t);
    }
  }

  // ---------------------------------------------------------------------------
  // Taking a node with two children out: its successor takes its place
  // ---------------------------------------------------------------------------

  /** The way from a node down to its successor: once right, then only left. */
  ghost predicate Spine<N>(k: Context<N>, l: Tree<N>, n: N, c: Color) {
    match k
    case Top => false
    case InL(_, _, _, up) => Spine(up, l, n, c)
    case InR(l', n', c', up) => l' == l && n' == n && c' == c && up == Top
  }

  /** The spine `k` with the node at its top replaced by `n` and the whole hung into `up`. */
  ghost function Graft<N>(k: Context<N>, n: N, up: Context<N>): Context<N> {
    match k
    case Top => up
    case InL(m, c, r, k') => InL(m, c, r, Graft(k', n, up))
    case InR(l, _, c, _) => InR(l, n, c, up)
  }

  lemma {:induction false} SpinePlug<N>(k: Context<N>, x: Tree<N>, l: Tree<N>, n: N, c: Color)
    requires Spine(k, l, n, c)
    ensures var t := Plug(k, x); t.Bin? && t.l == l && t.n == n && t.c == c
    ensures k.InL? ==> Plug(k, x).r.Bin?
    ensures k.InR? ==> Plug(k, x).r == x
    decreases k
  {
    if k.InL? {
      SpinePlug(k.up, Bin(x, k.n, k.c, k.r), l, n, c);
    }
  }

  lemma {:induction false} GraftPlug<N>(k: Context<N>, x: Tree<N>, l: Tree<N>, n: N, c: Color, m: N, up: Context<N>)
    requires Spine(k, l, n, c)
    ensures Plug(k, x).Bin? && Plug(Graft(k, m, up), x) == Plug(up, Plug(k, x).(n := m))
    decreases k
  {
    if k.InL? {
      GraftPlug(k.up, Bin(x, k.n, k.c, k.r), l, n, c, m, up);
    }
  }

  /** Who sits at the top of the spine makes no difference to the rules. */
  lemma {:induction false} GraftAccepts<N>(k: Context<N>, m: N, m': N, up: Context<N>, h: nat, red: bool)
    ensures Accepts(Graft(k, m, up), h, red) <==> Accepts(Graft(k, m', up), h, red)
    decreases k
  {
    if k.InL? {
      GraftAccepts(k.up, m, m', up, h + Weight(k.c), k.c == Red);
    }
  }

  lemma {:induction false} GraftOrder<N>(k: Context<N>, l: Tree<N>, n: N, c: Color, m: N, up: Context<N>)
    requires Spine(k, l, n, c)
    ensures Before(Graft(k, m, up)) == Before(up) + InOrder(l) + [m]
    ensures After(Graft(k, m, up)) == After(k) + After(up)
    ensures Before(k) == InOrder(l) + [n]
    decreases k
  {
    if k.InL? {
      GraftOrder(k.up, l, n, c, m, up);
      JoinAfter(k.n, InOrder(k.r), After(k.up), After(up));
    } else {
      assert Before(k) == [] + InOrder(l) + [n] == InOrder(l) + [n];
    }
  }

  lemma JoinAfter<N>(n: N, r: seq<N>, a: seq<N>, b: seq<N>)
    ensures [n] + r + (a + b) == ([n] + r + a) + b
  {
  }

  ghost function RootOf(t: Tree<Node>): Node? { if t.Leaf? then null else t.n }

  /** From the replaced node down the spine to where the successor was taken out. */
  lemma {:induction false} GraftFocus(k: Context<Node>, x: Tree<Node>, l: Tree<Node>, n: Node, c: Color, m: Node, up: Context<Node>, apex: Node?)
    requires Spine(k, l, n, c) && Plug(k, x).Bin?
    requires Focus(up, Plug(k, x).(n := m), m, apex, null)
    ensures Focus(Graft(k, m, up), x, RootOf(x), apex, null)
    ensures Nodes(x) + ContextNodes(Graft(k, m, up)) == Nodes(Plug(k, x).(n := m)) + ContextNodes(up)
    decreases k
  {
    if k.InL? {
      var x' := Bin(x, k.n, k.c, k.r);
      GraftFocus(k.up, x', l, n, c, m, up, apex);
      DownLeft(Graft(k.up, m, up), x', k.n, apex, null);
    } else {
      DownRight(up, Plug(k, x).(n := m), m, apex, null);
    }
  }

  lemma LeftFirst<N>(t: Tree<N>)
    requires t.Bin?
    ensures InOrder(t.l) <= InOrder(t)
  {
  }

  /** Walks from the right child of `top` to the leftmost node below it, the next one in order. */
  method FindSuccessor(top: Node, ghost p: Node?, ghost t: Tree<Node>)
    returns (node: Node, ghost k: Context<Node>, ghost s: Tree<Node>)
    requires t.Bin? && t.r.Bin? && Sub(top, p, t)
    ensures Spine(k, t.l, top, t.c) && Focus(k, s, node, top, p) && Plug(k, s) == t
    ensures s.Bin? && s.l.Leaf? && Nodes(s) + ContextNodes(k) == Nodes(t)
    ensures InOrder(t.r) != [] && node == InOrder(t.r)[0]
  {
    assert Sub(top.right, top, t.r);
    DownRight(Top, t, top, top, p);
    node := top.right;
    k, s := InR(t.l, top, t.c, Top), t.r;
    assert Sub(node.left, node, s.l);
    while node.left != null
      invariant Spine(k, t.l, top, t.c) && Focus(k, s, node, top, p) && Plug(k, s) == t
      invariant s.Bin? && Nodes(s) + ContextNodes(k) == Nodes(t) && InOrder(s) <= InOrder(t.r)
      decreases s
    {
      DownLeft(k, s, node, top, p);
      LeftFirst(s);
      node := node.left;
      k, s := InL(s.n, s.c, s.r, k), s.l;
    }
    assert Sub(node.left, node, s.l);
  }

  /** Takes the successor, the left child of `parent`, out of the spine. */
  method DetachSuccessor(node: Node, child: Node?, parent: Node, ghost top: Node, ghost p: Node?, ghost k: Context<Node>, ghost s: Tree<Node>)
    requires Focus(k, s, node, top, p) && s.Bin? && s.l.Leaf? && k.InL? && parent == k.n && child == node.right
    modifies Nodes(s.r), parent
    ensures Focus(k, s.r, child, top, p)
  {
    assert Sub(node.right, node, s.r);
    if child != null {
      child.parent := parent;
    }
    parent.left := child;
    assert Sub(child, parent, s.r);
  }

  /** `node` takes over the left subtree, the parent and the color of `top`. */
  method Inherit(top: Node, node: Node, ghost l: Tree<Node>, ghost r: Tree<Node>)
    requires l.Bin? && Sub(top.left, top, l) && Sub(node.right, node, r)
    requires top != node && node !in Nodes(l) && node !in Nodes(r) && top !in Nodes(l) && Nodes(l) !! Nodes(r)
    modifies node`parent, node`color, node`left, Nodes(l)
    ensures Sub(node, top.parent, Bin(l, node, top.color, r))
    ensures top.parent == old(top.parent) && top.color == old(top.color)
  {
    node.parent := top.parent;
    node.color := top.color;
    node.left := top.left;
    top.left.parent := node;
    assert Sub(node.left, node, l);
  }

  /** Hangs the right subtree of `top`, from which the successor is gone, below `node`. */
  method AdoptRight(top: Node, node: Node, ghost p: Node?, ghost t: Tree<Node>)
    requires t.Bin? && t.r.Bin? && Sub(top, p, t) && node !in Nodes(t)
    modifies node`right, Nodes(t.r)
    ensures Sub(top.left, top, t.l) && Sub(node.right, node, t.r)
    ensures top.parent == p && top.color == t.c
  {
    assert Sub(top.left, top, t.l) && Sub(top.right, top, t.r);
    node.right := top.right;
    top.right.parent := node;
    assert Sub(node.right, node, t.r);
  }

  /** Below the parent link: the successor `node` leaves the spine and takes the place of `top`. */
  method Exchange(top: Node, node: Node, ghost p: Node?, ghost k: Context<Node>, ghost s: Tree<Node>, ghost t: Tree<Node>)
    returns (child: Node?, parent: Node)
    requires t.Bin? && t.l.Bin? && t.n == top && Spine(k, t.l, top, t.c) && Plug(k, s) == t
    requires Focus(k, s, node, top, p) && s.Bin? && s.l.Leaf?
    modifies Nodes(t)
    ensures child == RootOf(s.r) && parent == if k.InL? then k.n else node
    ensures Plug(k, s.r).Bin? && Sub(node, p, Plug(k, s.r).(n := node))
    ensures Nodes(Plug(k, s.r).(n := node)) <= Nodes(t)
  {
    Ascend(k, s, node, top, p);
    PlugNodes(k, s);
    PlugNodes(k, s.r);
    SpinePlug(k, s, t.l, top, t.c);
    SpinePlug(k, s.r, t.l, top, t.c);
    ghost var t' := Plug(k, s.r);
    assert Sub(node.right, node, s.r);
    child := node.right;
    parent := node.parent;
    if parent == top {
      parent := node;
    } else {
      DetachSuccessor(node, child, parent, top, p, k, s);
      Ascend(k, s.r, child, top, p);
      AdoptRight(top, node, p, t');
    }
    Inherit(top, node, t.l, t'.r);
  }

  /** The successor in the whole tree: a legal subtree in a legal context. */
  lemma SuccessorLegal<N>(k: Context<N>, s: Tree<N>, up: Context<N>, t: Tree<N>)
    requires t.Bin? && Spine(k, t.l, t.n, t.c) && Plug(k, s) == t
    requires RedBlack(Plug(up, t)) && IsBlack(Plug(up, t))
    ensures RedBlack(s) && Accepts(Graft(k, t.n, up), BlackHeight(s), !IsBlack(s))
  {
    GraftPlug(k, s, t.l, t.n, t.c, t.n, up);
    assert t.(n := t.n) == t;
    PlugRedBlack(Graft(k, t.n, up), s);
  }

  /** Taking the successor out and putting it in the place of `n`: what is left to fix. */
  lemma ExchangeFits<N>(k: Context<N>, s: Tree<N>, up: Context<N>, n: N)
    requires s.Bin? && s.l.Leaf?
    requires RedBlack(s) && Accepts(Graft(k, n, up), BlackHeight(s), !IsBlack(s))
    ensures var g := Graft(k, s.n, up);
            && (s.c == Black ==> Short(g, s.r))
            && (s.c == Red ==> s.r.Leaf? && Accepts(g, 0, false))
  {
    TakenOut(Graft(k, n, up), s);
    GraftAccepts(k, n, s.n, up, BlackHeight(s.r) + 1, false);
    GraftAccepts(k, n, s.n, up, 0, false);
  }

  /** `order'` is `order` without its `i`-th element, which is `x`. */
  predicate Removed<N(==)>(order: seq<N>, order': seq<N>, x: N, i: nat) {
    i < |order| && order[i] == x && order' == order[..i] + order[i + 1..]
  }

  lemma RemovedBetween<N>(a: seq<N>, l: seq<N>, x: N, r: seq<N>, z: seq<N>)
    ensures Removed(a + (l + [x] + r) + z, a + (l + r) + z, x, |a + l|)
  {
    var order := a + (l + [x] + r) + z;
    assert order[..|a + l|] == a + l;
    assert order[|a + l| + 1..] == r + z;
  }

  lemma Reassociate<N>(a: seq<N>, l: seq<N>, m: N, sr: seq<N>, ak: seq<N>, z: seq<N>)
    ensures (a + l + [m]) + sr + (ak + z) == a + (l + ([m] + sr + ak)) + z
  {
  }

  lemma ExchangeOrder<N>(k: Context<N>, s: Tree<N>, up: Context<N>, t: Tree<N>)
    requires t.Bin? && Spine(k, t.l, t.n, t.c) && Plug(k, s) == t && s.Bin? && s.l.Leaf?
    ensures var g := Graft(k, s.n, up);
            Removed(Before(up) + InOrder(t) + After(up), Before(g) + InOrder(s.r) + After(g), t.n, |Before(up) + InOrder(t.l)|)
  {
    var a, l, sr, ak, z := Before(up), InOrder(t.l), InOrder(s.r), After(k), After(up);
    SpinePlug(k, s, t.l, t.n, t.c);
    GraftOrder(k, t.l, t.n, t.c, s.n, up);
    SpineOrder(k, s, t);
    Reassociate(a, l, s.n, sr, ak, z);
    RemovedBetween(a, l, t.n, [s.n] + sr + ak, z);
  }

  lemma SpineOrder<N>(k: Context<N>, s: Tree<N>, t: Tree<N>)
    requires t.Bin? && Spine(k, t.l, t.n, t.c) && Plug(k, s) == t && s.Bin? && s.l.Leaf?
    ensures InOrder(t) == InOrder(t.l) + [t.n] + ([s.n] + InOrder(s.r) + After(k))
  {
    PlugInOrder(k, s);
    GraftOrder(k, t.l, t.n, t.c, t.n, Top);
    LeftmostOrder(s);
    Regroup(InOrder(t.l), t.n, s.n, InOrder(s.r), After(k));
  }

  lemma LeftmostOrder<N>(s: Tree<N>)
    requires s.Bin? && s.l.Leaf?
    ensures InOrder(s) == [s.n] + InOrder(s.r)
  {
    assert InOrder(s.l) == [];
  }

  lemma Regroup<N>(l: seq<N>, n: N, m: N, sr: seq<N>, ak: seq<N>)
    ensures (l + [n]) + ([m] + sr) + ak == l + [n] + ([m] + sr + ak)
  {
  }

  lemma TakenOutOrder<N>(k: Context<N>, t: Tree<N>)
    requires t.Bin? && (t.l.Leaf? || t.r.Leaf?)
    ensures Removed(Before(k) + InOrder(t) + After(k), Before(k) + InOrder(OnlyChild(t)) + After(k), t.n, |Before(k) + InOrder(t.l)|)
  {
    assert InOrder(OnlyChild(t)) == InOrder(t.l) + InOrder(t.r);
    RemovedBetween(Before(k), InOrder(t.l), t.n, InOrder(t.r), After(k));
  }

  /** Everything about rules and order that the exchange needs. */
  lemma ExchangePlan<N>(k: Context<N>, s: Tree<N>, up: Context<N>, t: Tree<N>)
    requires t.Bin? && Spine(k, t.l, t.n, t.c) && Plug(k, s) == t && s.Bin? && s.l.Leaf?
    requires RedBlack(Plug(up, t)) && IsBlack(Plug(up, t))
    ensures var g := Graft(k, s.n, up);
            && (s.c == Black ==> Short(g, s.r))
            && (s.c == Red ==> s.r.Leaf? && Accepts(g, 0, false))
            && Removed(Before(up) + InOrder(t) + After(up), Before(g) + InOrder(s.r) + After(g), t.n, |Before(up) + InOrder(t.l)|)
  {
    SuccessorLegal(k, s, up, t);
    ExchangeFits(k, s, up, t.n);
    ExchangeOrder(k, s, up, t);
  }

  /** Relinks the parent of `node` to its successor and lets the successor take its place. */
  method ReplaceBySuccessor(node: Node, successor: Node, root: Root, ghost up: Context<Node>, ghost t: Tree<Node>,
                            ghost k: Context<Node>, ghost s: Tree<Node>)
    returns (child: Node?, parent: Node?)
    requires Focus(up, t, node, root.node, null) && Within(up, t, root)
    requires t.Bin? && t.l.Bin? && Spine(k, t.l, node, t.c) && Plug(k, s) == t
    requires Focus(k, s, successor, node, node.parent) && s.Bin? && s.l.Leaf?
    requires Nodes(s) + ContextNodes(k) == Nodes(t)
    modifies root`node, root.region
    ensures var g := Graft(k, successor, up);
            Focus(g, s.r, child, root.node, null) && Within(g, s.r, root) && parent == Above(g, null)
  {
    var above := node.parent;
    Relink(above, node, successor, root, up);
    child, parent := Exchange(node, successor, above, k, s, t);
    Grafted(k, s.r, t.l, node, t.c, successor, up, root, child, parent);
  }

  /** Seen from where the successor was taken out. */
  lemma Grafted(k: Context<Node>, x: Tree<Node>, l: Tree<Node>, n: Node, c: Color, m: Node, up: Context<Node>, root: Root,
                child: Node?, parent: Node?)
    requires Spine(k, l, n, c) && Plug(k, x).Bin?
    requires Focus(up, Plug(k, x).(n := m), m, root.node, null) && Within(up, Plug(k, x).(n := m), root)
    requires child == RootOf(x) && parent == if k.InL? then k.n else m
    ensures var g := Graft(k, m, up);
            Focus(g, x, child, root.node, null) && Within(g, x, root) && parent == Above(g, null)
  {
    GraftFocus(k, x, l, n, c, m, up, root.node);
  }

  method EraseTwoChildren(node: Node, root: Root, ghost up: Context<Node>, ghost t: Tree<Node>)
    returns (ghost t': Tree<Node>, ghost i: nat)
    requires Focus(up, t, node, root.node, null) && Within(up, t, root)
    requires t.Bin? && t.l.Bin? && t.r.Bin?
    requires RedBlack(Plug(up, t)) && IsBlack(Plug(up, t))
    modifies root`node, root.region
    ensures Sub(root.node, null, t') && Nodes(t') <= root.region
    ensures RedBlack(t') && IsBlack(t')
    ensures Removed(Before(up) + InOrder(t) + After(up), InOrder(t'), node, i)
  {
    var successor, k, s := FindSuccessor(node, node.parent, t);
    ExchangePlan(k, s, up, t);
    var color := successor.color;
    var child, parent := ReplaceBySuccessor(node, successor, root, up, t, k, s);
    t' := Settle(color, child, parent, root, Graft(k, successor, up), s.r);
    i := |Before(up) + InOrder(t.l)|;
  }

  method EraseOneChild(node: Node, root: Root, ghost k: Context<Node>, ghost t: Tree<Node>)
    returns (ghost t': Tree<Node>, ghost i: nat)
    requires Focus(k, t, node, root.node, null) && Within(k, t, root)
    requires t.Bin? && (t.l.Leaf? || t.r.Leaf?)
    requires RedBlack(Plug(k, t)) && IsBlack(Plug(k, t))
    modifies root`node, root.region
    ensures Sub(root.node, null, t') && Nodes(t') <= root.region
    ensures RedBlack(t') && IsBlack(t')
    ensures Removed(Before(k) + InOrder(t) + After(k), InOrder(t'), node, i)
  {
    PlugRedBlack(k, t);
    TakenOut(k, t);
    TakenOutOrder(k, t);
    i := |Before(k) + InOrder(t.l)|;
    assert Sub(node.left, node, t.l) && Sub(node.right, node, t.r);
    var child := if node.left == null then node.right else node.left;
    var parent := node.parent;
    var color := node.color;
    SpliceOut(node, child, parent, root, k, t);
    t' := Settle(color, child, parent, root, k, OnlyChild(t));
  }

  /** Removes any node from any valid tree: what is left is a valid tree with the other
      nodes in the same order. */
  method Erase(node: Node, root: Root)
    requires Valid(root) && node in Nodes(root.shape)
    modifies root, root.region
    ensures Valid(root) && root.region == old(root.region)
    ensures exists i: nat :: Removed(old(InOrder(root.shape)), InOrder(root.shape), node, i)
  {
    ghost var k, t := FocusOn(node, root);
    assert Sub(node.left, node, t.l) && Sub(node.right, node, t.r);
    ghost var i: nat, shape: Tree<Node>;
    if node.left != null && node.right != null {
      shape, i := EraseTwoChildren(node, root, k, t);
    } else {
      shape, i := EraseOneChild(node, root, k, t);
    }
    root.shape := shape;
  }
}
