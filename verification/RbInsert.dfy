/** Linking a node into the red-black tree and restoring the rules around it. */
module RbInsert {
  import opened RbShape
  import opened RbPointers

  /** A black node with two red children passes its blackness down to them. */
  function Flip<N>(t: Tree<N>): Tree<N>
    requires t.Bin? && t.l.Bin? && t.r.Bin?
  {
    Bin(t.l.(c := Black), t.n, Red, t.r.(c := Black))
  }

  method FlipColors(parent: Node, uncle: Node, gparent: Node, ghost p: Node?, ghost t: Tree<Node>)
    requires t.Bin? && t.l.Bin? && t.r.Bin? && Sub(gparent, p, t)
    requires {parent, uncle} == {t.l.n, t.r.n}
    modifies Nodes(t)
    ensures Sub(gparent, p, Flip(t))
  {
    assert Sub(gparent.left, gparent, t.l) && Sub(gparent.right, gparent, t.r);
    uncle.color := Black;
    parent.color := Black;
    gparent.color := Red;
    assert Sub(gparent.left, gparent, t.l.(c := Black));
    assert Sub(gparent.right, gparent, t.r.(c := Black));
  }

  /** A red node whose context is legal but for a possibly red parent. */
  ghost predicate RedSpot<N>(k: Context<N>, t: Tree<N>) {
    t.Bin? && t.c == Red && RedBlack(t) && AcceptsRed(k, BlackHeight(t))
  }

  /** What one or two turns make of a red node below a red left child with a black uncle. */
  ghost function SettledL<N>(k: Context<N>, t: Tree<N>): Tree<N>
    requires t.Bin? && !k.Top? && k.up.InL?
  {
    var tp := if k.InR? then RotL(UpTree(k, t)) else UpTree(k, t);
    var tg := UpTree(k.up, tp);
    RotR(tg.(c := Red, l := tp.(c := Black)))
  }

  ghost function SettledR<N>(k: Context<N>, t: Tree<N>): Tree<N>
    requires t.Bin? && !k.Top? && k.up.InR?
  {
    var tp := if k.InL? then RotR(UpTree(k, t)) else UpTree(k, t);
    var tg := UpTree(k.up, tp);
    RotL(tg.(c := Red, r := tp.(c := Black)))
  }

  lemma SettledLColors<N>(k: Context<N>, t: Tree<N>)
    requires RedSpot(k, t) && !k.Top? && k.c == Red && k.up.InL? && IsBlack(k.up.r)
    ensures var s := SettledL(k, t); s.c == Black && RedSpot(InL(s.n, s.c, s.r, k.up.up), s.l)
  {
    var s := SettledL(k, t);
    assert Accepts(k.up, BlackHeight(t), true);
    if k.InL? {
      assert s == Bin(t, k.n, Black, Bin(k.r, k.up.n, Red, k.up.r));
    } else {
      assert s == Bin(Bin(k.l, k.n, Red, t.l), t.n, Black, Bin(t.r, k.up.n, Red, k.up.r));
    }
  }

  lemma SettledRColors<N>(k: Context<N>, t: Tree<N>)
    requires RedSpot(k, t) && !k.Top? && k.c == Red && k.up.InR? && IsBlack(k.up.l)
    ensures var s := SettledR(k, t); s.c == Black && RedSpot(InR(s.l, s.n, s.c, k.up.up), s.r)
  {
    var s := SettledR(k, t);
    assert Accepts(k.up, BlackHeight(t), true);
    if k.InR? {
      assert s == Bin(Bin(k.up.l, k.up.n, Red, k.l), k.n, Black, t);
    } else {
      assert s == Bin(Bin(k.up.l, k.up.n, Red, t.l), t.n, Black, Bin(t.r, k.n, Red, k.r));
    }
  }

  lemma SettledLOrder<N>(k: Context<N>, t: Tree<N>)
    requires t.Bin? && !k.Top? && k.up.InL?
    ensures var s := SettledL(k, t); SameOrder(k, t, InL(s.n, s.c, s.r, k.up.up), s.l)
  {
    var s := SettledL(k, t);
    var tp := UpTree(k, t);
    UpOrder(k, t);
    RotationOrder(tp);
    var tp' := if k.InR? then RotL(tp) else tp;
    UpOrder(k.up, tp');
    var tg := UpTree(k.up, tp').(c := Red, l := tp'.(c := Black));
    RotationOrder(tg);
    UpOrder(InL(s.n, s.c, s.r, k.up.up), s.l);
  }

  lemma SettledROrder<N>(k: Context<N>, t: Tree<N>)
    requires t.Bin? && !k.Top? && k.up.InR?
    ensures var s := SettledR(k, t); SameOrder(k, t, InR(s.l, s.n, s.c, k.up.up), s.r)
  {
    var s := SettledR(k, t);
    var tp := UpTree(k, t);
    UpOrder(k, t);
    RotationOrder(tp);
    var tp' := if k.InL? then RotR(tp) else tp;
    UpOrder(k.up, tp');
    var tg := UpTree(k.up, tp').(c := Red, r := tp'.(c := Black));
    RotationOrder(tg);
    UpOrder(InR(s.l, s.n, s.c, k.up.up), s.r);
  }

  /** Red node below a red left child with a black uncle: one or two turns settle it. */
  method SettleLeftSide(node0: Node, root: Root, ghost k: Context<Node>, ghost t: Tree<Node>)
    returns (node: Node, ghost k': Context<Node>, ghost t': Tree<Node>)
    requires Focus(k, t, node0, root.node, null) && Within(k, t, root)
    requires t.Bin? && !k.Top? && k.up.InL?
    modifies root`node, root.region
    ensures var s := SettledL(k, t);
            k' == InL(s.n, s.c, s.r, k.up.up) && t' == s.l
    ensures t'.Bin? && Focus(k', t', node, root.node, null) && Within(k', t', root)
  {
    node := node0;
    var parent := node.parent;
    var gparent := parent.parent;
    ghost var tp, up := UpTree(k, t), k.up;
    UpFocus(k, t, node, root.node, null);
    assert k.InR? <==> node == parent.right;
    if node == parent.right {
      RotateLeft(parent, root, up, tp);
      tp := RotL(tp);
      assert Sub(tp.n.left, tp.n, tp.l);
      node := parent;
      parent := node.parent;
    }
    UpFocus(up, tp, parent, root.node, null);
    ghost var tg := UpTree(up, tp);
    RaiseLeft(parent, gparent, root, up.up, tg);
    ghost var s := SettledL(k, t);
    DownLeft(up.up, s, parent, root.node, null);
    k', t' := InL(s.n, s.c, s.r, up.up), s.l;
    assert Sub(parent.left, parent, t');
  }

  method SettleRightSide(node0: Node, root: Root, ghost k: Context<Node>, ghost t: Tree<Node>)
    returns (node: Node, ghost k': Context<Node>, ghost t': Tree<Node>)
    requires Focus(k, t, node0, root.node, null) && Within(k, t, root)
    requires t.Bin? && !k.Top? && k.up.InR?
    modifies root`node, root.region
    ensures var s := SettledR(k, t);
            k' == InR(s.l, s.n, s.c, k.up.up) && t' == s.r
    ensures t'.Bin? && Focus(k', t', node, root.node, null) && Within(k', t', root)
  {
    node := node0;
    var parent := node.parent;
    var gparent := parent.parent;
    ghost var tp, up := UpTree(k, t), k.up;
    UpFocus(k, t, node, root.node, null);
    assert k.InL? <==> node == parent.left;
    if node == parent.left {
      RotateRight(parent, root, up, tp);
      tp := RotR(tp);
      assert Sub(tp.n.right, tp.n, tp.r);
      node := parent;
      parent := node.parent;
    }
    UpFocus(up, tp, parent, root.node, null);
    ghost var tg := UpTree(up, tp);
    RaiseRight(parent, gparent, root, up.up, tg);
    ghost var s := SettledR(k, t);
    DownRight(up.up, s, parent, root.node, null);
    k', t' := InR(s.l, s.n, s.c, up.up), s.r;
    assert Sub(parent.right, parent, t');
  }

  /** Red parent and red uncle: blackness moves down from the grandparent, the red spot up to it. */
  lemma FlipFits<N>(k: Context<N>, t: Tree<N>)
    requires RedSpot(k, t) && !k.Top? && k.c == Red && !k.up.Top?
    requires var tg := UpTree(k.up, UpTree(k, t));
             tg.l.Bin? && tg.r.Bin? && !IsBlack(tg.l) && !IsBlack(tg.r)
    ensures RedSpot(k.up.up, Flip(UpTree(k.up, UpTree(k, t))))
  {
    assert Accepts(k.up, BlackHeight(t), true);
    assert Accepts(k.up.up, BlackHeight(t) + 1, false);
  }

  lemma FlipOrder<N>(k: Context<N>, t: Tree<N>)
    requires !k.Top? && !k.up.Top?
    requires var tg := UpTree(k.up, UpTree(k, t)); tg.l.Bin? && tg.r.Bin?
    ensures SameOrder(k, t, k.up.up, Flip(UpTree(k.up, UpTree(k, t))))
  {
    UpOrder(k, t);
    UpOrder(k.up, UpTree(k, t));
  }

  /** How far a red spot can still climb: not at all below a black parent. */
  function Climb<N>(k: Context<N>): nat { if k.Top? || k.c == Black then 0 else 1 + Depth(k) }

  lemma ClimbsDown<N>(k: Context<N>)
    requires !k.Top? && k.c == Red && !k.up.Top?
    ensures Climb(k.up.up) < Climb(k)
  {
    assert Depth(k) == 2 + Depth(k.up.up);
  }

  /** The red-uncle round of the fixup loop. */
  method FlipRound(parent: Node, uncle: Node, gparent: Node, root: Root, ghost k: Context<Node>, ghost t: Tree<Node>)
    returns (ghost t': Tree<Node>)
    requires RedSpot(k, t) && !k.Top? && k.c == Red && !k.up.Top?
    requires var tg := UpTree(k.up, UpTree(k, t));
             && tg.l.Bin? && tg.r.Bin? && !IsBlack(tg.l) && !IsBlack(tg.r)
             && {parent, uncle} == {tg.l.n, tg.r.n}
             && Focus(k.up.up, tg, gparent, root.node, null) && Within(k.up.up, tg, root)
    modifies root.region
    ensures Focus(k.up.up, t', gparent, root.node, null) && Within(k.up.up, t', root) && RedSpot(k.up.up, t')
    ensures SameOrder(k, t, k.up.up, t')
  {
    ghost var tg := UpTree(k.up, UpTree(k, t));
    FlipFits(k, t);
    FlipOrder(k, t);
    FlipColors(parent, uncle, gparent, gparent.parent, tg);
    t' := Flip(tg);
  }

  method RoundLeft(node0: Node, parent: Node, gparent: Node, root: Root, ghost k: Context<Node>, ghost t: Tree<Node>)
    returns (node: Node, ghost k': Context<Node>, ghost t': Tree<Node>)
    requires Focus(k, t, node0, root.node, null) && Within(k, t, root) && RedSpot(k, t)
    requires !k.Top? && k.c == Red && k.up.InL? && parent == k.n && gparent == k.up.n
    modifies root`node, root.region
    ensures Focus(k', t', node, root.node, null) && Within(k', t', root) && RedSpot(k', t')
    ensures SameOrder(k, t, k', t') && Climb(k') < Climb(k)
  {
    var uncle := gparent.right;
    UpFocus(k, t, node0, root.node, null);
    UpFocus(k.up, UpTree(k, t), parent, root.node, null);
    assert Sub(uncle, gparent, k.up.r);
    if uncle != null && uncle.color == Red {
      ClimbsDown(k);
      node, k' := gparent, k.up.up;
      t' := FlipRound(parent, uncle, gparent, root, k, t);
    } else {
      SettledLColors(k, t);
      SettledLOrder(k, t);
      node, k', t' := SettleLeftSide(node0, root, k, t);
    }
  }

  method RoundRight(node0: Node, parent: Node, gparent: Node, root: Root, ghost k: Context<Node>, ghost t: Tree<Node>)
    returns (node: Node, ghost k': Context<Node>, ghost t': Tree<Node>)
    requires Focus(k, t, node0, root.node, null) && Within(k, t, root) && RedSpot(k, t)
    requires !k.Top? && k.c == Red && k.up.InR? && parent == k.n && gparent == k.up.n
    modifies root`node, root.region
    ensures Focus(k', t', node, root.node, null) && Within(k', t', root) && RedSpot(k', t')
    ensures SameOrder(k, t, k', t') && Climb(k') < Climb(k)
  {
    var uncle := gparent.left;
    UpFocus(k, t, node0, root.node, null);
    UpFocus(k.up, UpTree(k, t), parent, root.node, null);
    assert Sub(uncle, gparent, k.up.l);
    ClimbsDown(k);
    if uncle != null && uncle.color == Red {
      node, k' := gparent, k.up.up;
      t' := FlipRound(parent, uncle, gparent, root, k, t);
    } else {
      assert IsBlack(k.up.l);
      SettledRColors(k, t);
      SettledROrder(k, t);
      node, k', t' := SettleRightSide(node0, root, k, t);
    }
  }

  /** A red parent is not the root, so there is a grandparent. */
  lemma RedParent(node: Node, root: Root, k: Context<Node>, t: Tree<Node>)
    requires Focus(k, t, node, root.node, null) && RedSpot(k, t)
    requires node.parent != null && node.parent.color == Red
    ensures !k.Top? && k.c == Red && !k.up.Top?
    ensures node.parent == k.n && node.parent.parent == k.up.n
    ensures k.up.InL? <==> node.parent == k.up.n.left
  {
    assert Accepts(k.up, BlackHeight(t), true);
    UpFocus(k, t, node, root.node, null);
  }

  /** Restores the red-black rules around a freshly linked red node. */
  method InsertFixup(node0: Node, root: Root, ghost k0: Context<Node>, ghost t0: Tree<Node>)
    returns (ghost t': Tree<Node>)
    requires Focus(k0, t0, node0, root.node, null) && Within(k0, t0, root) && RedSpot(k0, t0)
    modifies root`node, root.region
    ensures Sub(root.node, null, t') && Nodes(t') <= root.region
    ensures RedBlack(t') && IsBlack(t')
    ensures InOrder(t') == Before(k0) + InOrder(t0) + After(k0)
  {
    var node := node0;
    ghost var k, t := k0, t0;
    while node.parent != null && node.parent.color == Red
      invariant Focus(k, t, node, root.node, null) && Within(k, t, root) && RedSpot(k, t)
      invariant SameOrder(k0, t0, k, t)
      decreases Climb(k)
    {
      RedParent(node, root, k, t);
      var parent := node.parent;
      var gparent := parent.parent;
      if parent == gparent.left {
        node, k, t := RoundLeft(node, parent, gparent, root, k, t);
      } else {
        node, k, t := RoundRight(node, parent, gparent, root, k, t);
      }
    }
    t' := BlackenRoot(node, root, k, t);
  }

  /** `root->node->color = BLACK`, once only the root can be wrongly red. */
  method BlackenRoot(node: Node, root: Root, ghost k: Context<Node>, ghost t: Tree<Node>)
    returns (ghost t': Tree<Node>)
    requires Focus(k, t, node, root.node, null) && Within(k, t, root)
    requires RedSpot(k, t) && (k.Top? || k.c == Black)
    modifies root.region
    ensures Sub(root.node, null, t') && Nodes(t') <= root.region
    ensures RedBlack(t') && IsBlack(t')
    ensures InOrder(t') == Before(k) + InOrder(t) + After(k)
  {
    Ascend(k, t, node, root.node, null);
    BlackRoot(k, t);
    ghost var w := Plug(k, t);
    root.node.color := Black;
    t' := w.(c := Black);
  }

  lemma BlackRoot<N>(k: Context<N>, t: Tree<N>)
    requires RedSpot(k, t) && (k.Top? || k.c == Black)
    ensures var w := Plug(k, t);
            && w.Bin? && RedBlack(w.(c := Black)) && Nodes(w) == Nodes(t) + ContextNodes(k)
            && InOrder(w.(c := Black)) == Before(k) + InOrder(t) + After(k)
  {
    PlugBin(k, t);
    PlugNodes(k, t);
    PlugInOrder(k, t);
    if !k.Top? {
      PlugRedBlack(k, t);
    }
  }

  /** The pointer a new node is stored into. */
  datatype Link = RootLink | LeftLink(parent: Node) | RightLink(parent: Node)

  function ParentOf(link: Link): Node? {
    if link.RootLink? then null else link.parent
  }

  ghost predicate Matches(k: Context<Node>, link: Link) {
    match link
    case RootLink => k.Top?
    case LeftLink(p) => k.InL? && k.n == p
    case RightLink(p) => k.InR? && k.n == p
  }

  method LinkNode(node: Node, link: Link, root: Root, ghost k: Context<Node>)
    requires Matches(k, link)
    requires node !in ContextNodes(k) && ContextNodes(k) <= root.region
    requires Along(k, null, root.node, null)
    modifies node, root`node, root`region, root.region
    ensures root.region == old(root.region) + {node}
    ensures Focus(k, Bin(Leaf, node, Red, Leaf), node, root.node, null)
  {
    node.parent := ParentOf(link);
    node.left, node.right := null, null;
    node.color := Red;
    StoreLink(node, link, root, k);
    root.region := root.region + {node};
  }

  /** `*link = node`. */
  method StoreLink(node: Node, link: Link, root: Root, ghost k: Context<Node>)
    requires Matches(k, link) && Along(k, null, root.node, null)
    modifies root`node, ContextNodes(k)
    ensures Along(k, node, root.node, null)
  {
    match link {
      case RootLink => root.node := node;
      case LeftLink(parent) => parent.left := node;
      case RightLink(parent) => parent.right := node;
    }
  }

  /** The tree the callers may link into: the link is theirs and holds null. */
  ghost predicate Vacant(link: Link, root: Root)
    reads root, root.region
    requires Nodes(root.shape) <= root.region
  {
    match link
    case RootLink => root.node == null
    case LeftLink(p) => p in Nodes(root.shape) && p.left == null
    case RightLink(p) => p in Nodes(root.shape) && p.right == null
  }

  /** The node sequence after linking `node`: alone, just before or just after its parent. */
  ghost predicate InsertedAt(order: seq<Node>, order': seq<Node>, node: Node, link: Link) {
    match link
    case RootLink => order == [] && order' == [node]
    case LeftLink(p) => exists i :: 0 <= i < |order| && order[i] == p && order' == order[..i] + [node] + order[i..]
    case RightLink(p) => exists i :: 0 <= i < |order| && order[i] == p && order' == order[..i + 1] + [node] + order[i + 1..]
  }

  /** Where a vacant link sits, as a context whose hole is that link. */
  lemma FindHole(link: Link, root: Root, node: Node) returns (k: Context<Node>)
    requires Valid(root) && Vacant(link, root)
    ensures Matches(k, link) && Focus(k, Leaf, null, root.node, null) && ContextNodes(k) == Nodes(root.shape)
    ensures AcceptsRed(k, 0)
    ensures InsertedAt(InOrder(root.shape), Before(k) + [node] + After(k), node, link)
  {
    k := Top;
    if !link.RootLink? {
      var p := link.parent;
      var up, t := FocusOn(p, root);
      if link.LeftLink? {
        DownLeft(up, t, p, root.node, null);
        k := InL(p, t.c, t.r, up);
      } else {
        DownRight(up, t, p, root.node, null);
        k := InR(t.l, p, t.c, up);
      }
      HoleColors(up, t);
      HoleOrder(up, t, link, node);
    }
  }

  lemma HoleColors<N>(up: Context<N>, t: Tree<N>)
    requires t.Bin? && RedBlack(Plug(up, t)) && IsBlack(Plug(up, t))
    ensures t.l.Leaf? ==> AcceptsRed(InL(t.n, t.c, t.r, up), 0)
    ensures t.r.Leaf? ==> AcceptsRed(InR(t.l, t.n, t.c, up), 0)
  {
    PlugRedBlack(up, t);
  }

  lemma NewSpot<N>(k: Context<N>, node: N)
    requires AcceptsRed(k, 0)
    ensures var t := Bin(Leaf, node, Red, Leaf);
            RedSpot(k, t) && InOrder(t) == [node] && Nodes(t) == {node}
  {
    assert Nodes<N>(Leaf) == {};
  }

  lemma HoleOrder(up: Context<Node>, t: Tree<Node>, link: Link, node: Node)
    requires t.Bin? && !link.RootLink? && t.n == link.parent
    requires link.LeftLink? ==> t.l.Leaf?
    requires link.RightLink? ==> t.r.Leaf?
    ensures var k := if link.LeftLink? then InL(t.n, t.c, t.r, up) else InR(t.l, t.n, t.c, up);
            InsertedAt(Before(up) + InOrder(t) + After(up), Before(k) + [node] + After(k), node, link)
  {
    var order := Before(up) + InOrder(t) + After(up);
    if link.LeftLink? {
      var k, i := InL(t.n, t.c, t.r, up), |Before(up)|;
      assert order[..i] == Before(up);
      assert order[i..] == [t.n] + InOrder(t.r) + After(up);
      assert order[i] == t.n && Before(k) + [node] + After(k) == order[..i] + [node] + order[i..];
    } else {
      var k, i := InR(t.l, t.n, t.c, up), |Before(up) + InOrder(t.l)|;
      assert InOrder(t.r) == [];
      assert order == (Before(up) + InOrder(t.l) + [t.n]) + After(up);
      assert order[..i + 1] == Before(up) + InOrder(t.l) + [t.n];
      assert order[i + 1..] == After(up);
      assert order[i] == t.n && Before(k) + [node] + After(k) == order[..i + 1] + [node] + order[i + 1..];
    }
  }

  /** The callers' protocol: store the node in a vacant link and run the fixup. The tree
      stays red-black and the node takes its place next to its parent in order. */
  method Insert(node: Node, link: Link, root: Root)
    requires Valid(root) && node !in Nodes(root.shape) && Vacant(link, root)
    modifies node, root, root.region
    ensures Valid(root) && root.region == old(root.region) + {node}
    ensures InsertedAt(old(InOrder(root.shape)), InOrder(root.shape), node, link)
  {
    ghost var k := FindHole(link, root, node);
    ghost var t := Bin(Leaf, node, Red, Leaf);
    NewSpot(k, node);
    LinkNode(node, link, root, k);
    ghost var shape := InsertFixup(node, root, k, t);
    root.shape := shape;
  }
}
