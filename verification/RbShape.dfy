/** Red-black trees as values: what the pointers of `RbPointers` represent.
    A tree is seen either whole or as a subtree `t` inside a context `k`, the
    path of ancestors from the subtree up to the root. */
module RbShape {

  datatype Color = Red | Black

  datatype Tree<N> = Leaf | Bin(l: Tree<N>, n: N, c: Color, r: Tree<N>)

  /** A tree with a hole: the hole is the left or the right child of `n`, and so on upwards. */
  datatype Context<N> =
    | Top
    | InL(n: N, c: Color, r: Tree<N>, up: Context<N>)
    | InR(l: Tree<N>, n: N, c: Color, up: Context<N>)

  function Plug<N>(k: Context<N>, t: Tree<N>): Tree<N>
    decreases k
  {
    match k
    case Top => t
    case InL(n, c, r, up) => Plug(up, Bin(t, n, c, r))
    case InR(l, n, c, up) => Plug(up, Bin(l, n, c, t))
  }

  // ---------------------------------------------------------------------------
  // Nodes and order
  // ---------------------------------------------------------------------------

  ghost function Nodes<N>(t: Tree<N>): set<N> {
    match t
    case Leaf => {}
    case Bin(l, n, _, r) => Nodes(l) + {n} + Nodes(r)
  }

  ghost function ContextNodes<N>(k: Context<N>): set<N> {
    match k
    case Top => {}
    case InL(n, _, r, up) => {n} + Nodes(r) + ContextNodes(up)
    case InR(l, n, _, up) => {n} + Nodes(l) + ContextNodes(up)
  }

  function InOrder<N>(t: Tree<N>): seq<N> {
    match t
    case Leaf => []
    case Bin(l, n, _, r) => InOrder(l) + [n] + InOrder(r)
  }

  /** In-order nodes before the hole. */
  function Before<N>(k: Context<N>): seq<N> {
    match k
    case Top => []
    case InL(_, _, _, up) => Before(up)
    case InR(l, n, _, up) => Before(up) + InOrder(l) + [n]
  }

  /** In-order nodes after the hole. */
  function After<N>(k: Context<N>): seq<N> {
    match k
    case Top => []
    case InL(n, _, r, up) => [n] + InOrder(r) + After(up)
    case InR(_, _, _, up) => After(up)
  }

  lemma {:induction false} PlugInOrder<N>(k: Context<N>, t: Tree<N>)
    ensures InOrder(Plug(k, t)) == Before(k) + InOrder(t) + After(k)
    decreases k
  {
    match k
    case Top =>
    case InL(n, c, r, up) => PlugInOrder(up, Bin(t, n, c, r));
    case InR(l, n, c, up) => PlugInOrder(up, Bin(l, n, c, t));
  }

  lemma {:induction false} PlugNodes<N>(k: Context<N>, t: Tree<N>)
    ensures Nodes(Plug(k, t)) == ContextNodes(k) + Nodes(t)
    decreases k
  {
    match k
    case Top =>
    case InL(n, c, r, up) => PlugNodes(up, Bin(t, n, c, r));
    case InR(l, n, c, up) => PlugNodes(up, Bin(l, n, c, t));
  }

  lemma {:induction false} InOrderNodes<N>(t: Tree<N>, x: N)
    ensures x in InOrder(t) <==> x in Nodes(t)
  {
    if t.Bin? {
      InOrderNodes(t.l, x);
      InOrderNodes(t.r, x);
    }
  }

  // ---------------------------------------------------------------------------
  // The red-black rules
  // ---------------------------------------------------------------------------

  predicate IsBlack<N>(t: Tree<N>) { t.Leaf? || t.c == Black }

  function Weight(c: Color): nat { if c == Black then 1 else 0 }

  /** Black nodes on the leftmost path; on every path, when the tree is balanced. */
  function BlackHeight<N>(t: Tree<N>): nat {
    if t.Leaf? then 0 else BlackHeight(t.l) + Weight(t.c)
  }

  /** No red node has a red child, and all paths to a leaf have the same number of black nodes. */
  predicate RedBlack<N>(t: Tree<N>) {
    t.Bin? ==>
      && RedBlack(t.l) && RedBlack(t.r) && BlackHeight(t.l) == BlackHeight(t.r)
      && (t.c == Red ==> IsBlack(t.l) && IsBlack(t.r))
  }

  /** As `RedBlack`, except that a red root may have red children. */
  predicate Balanced<N>(t: Tree<N>) {
    t.Bin? ==> RedBlack(t.l) && RedBlack(t.r) && BlackHeight(t.l) == BlackHeight(t.r)
  }

  /** The context completes any legal tree of black height `h`, red-rooted if `red`,
      to a legal tree with a black root. */
  predicate Accepts<N>(k: Context<N>, h: nat, red: bool) {
    match k
    case Top => !red
    case InL(_, c, s, up) => AcceptsBeside(s, c, h) && (c == Red ==> !red) && Accepts(up, h + Weight(c), c == Red)
    case InR(s, _, c, up) => AcceptsBeside(s, c, h) && (c == Red ==> !red) && Accepts(up, h + Weight(c), c == Red)
  }

  /** `s` is a fit sibling, under a parent of color `c`, for a tree of black height `h`. */
  predicate AcceptsBeside<N>(s: Tree<N>, c: Color, h: nat) {
    RedBlack(s) && BlackHeight(s) == h && (c == Red ==> IsBlack(s))
  }

  /** `Accepts` up to the color of the hole: its parent may be red although the hole is red, and so may the root. */
  predicate AcceptsRed<N>(k: Context<N>, h: nat) {
    match k
    case Top => true
    case InL(_, c, s, up) => AcceptsBeside(s, c, h) && Accepts(up, h + Weight(c), c == Red)
    case InR(s, _, c, up) => AcceptsBeside(s, c, h) && Accepts(up, h + Weight(c), c == Red)
  }

  /** Moving the focus one step up does not change whether everything is legal. */
  lemma LegalFromAbove<N>(k: Context<N>, t: Tree<N>)
    requires !k.Top?
    ensures var u := if k.InL? then Bin(t, k.n, k.c, k.r) else Bin(k.l, k.n, k.c, t);
            RedBlack(u) && Accepts(k.up, BlackHeight(u), !IsBlack(u)) <==>
            RedBlack(t) && Accepts(k, BlackHeight(t), !IsBlack(t))
  {
    var u := if k.InL? then Bin(t, k.n, k.c, k.r) else Bin(k.l, k.n, k.c, t);
    var s := if k.InL? then k.r else k.l;
    assert RedBlack(u) <==> RedBlack(t) && AcceptsBeside(s, k.c, BlackHeight(t)) && (k.c == Red ==> IsBlack(t));
    assert RedBlack(u) ==> BlackHeight(u) == BlackHeight(t) + Weight(k.c);
  }

  lemma {:induction false} PlugRedBlack<N>(k: Context<N>, t: Tree<N>)
    ensures RedBlack(Plug(k, t)) && IsBlack(Plug(k, t)) <==>
            RedBlack(t) && Accepts(k, BlackHeight(t), !IsBlack(t))
    decreases k
  {
    match k
    case Top =>
    case InL(n, c, r, up) => LegalFromAbove(k, t); PlugRedBlack(up, Bin(t, n, c, r));
    case InR(l, n, c, up) => LegalFromAbove(k, t); PlugRedBlack(up, Bin(l, n, c, t));
  }

  lemma AcceptsBlackToo<N>(k: Context<N>, h: nat)
    requires Accepts(k, h, true)
    ensures Accepts(k, h, false)
  {
  }

  // ---------------------------------------------------------------------------
  // Height
  // ---------------------------------------------------------------------------

  function Size<N>(t: Tree<N>): nat { |InOrder(t)| }

  function Height<N>(t: Tree<N>): nat {
    if t.Leaf? then 0
    else 1 + if Height(t.l) > Height(t.r) then Height(t.l) else Height(t.r)
  }

  function Pow2(e: nat): nat { if e == 0 then 1 else 2 * Pow2(e - 1) }

  lemma {:induction false} BlackHeightBounds<N>(t: Tree<N>)
    requires RedBlack(t)
    ensures Pow2(BlackHeight(t)) <= Size(t) + 1
    ensures Height(t) <= 2 * BlackHeight(t) + if IsBlack(t) then 0 else 1
  {
    if t.Bin? {
      BlackHeightBounds(t.l);
      BlackHeightBounds(t.r);
    }
  }

  lemma {:induction false} Pow2Monotone(a: nat, b: nat)
    requires a <= b
    ensures Pow2(a) <= Pow2(b)
    decreases b
  {
    if a < b { Pow2Monotone(a, b - 1); }
  }

  /** Height is at most twice the logarithm: 2 to the power ceil(height / 2) does not exceed n + 1. */
  lemma HeightBound<N>(t: Tree<N>)
    requires RedBlack(t) && IsBlack(t)
    ensures Pow2((Height(t) + 1) / 2) <= Size(t) + 1
  {
    BlackHeightBounds(t);
    Pow2Monotone((Height(t) + 1) / 2, BlackHeight(t));
  }
}
