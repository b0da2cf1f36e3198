/** The shape of the red-black tree: nodes as heap objects, and a mathematical
    tree and zipper that describe how those nodes are linked. Colours and links
    are described here; keys and values stay in the nodes, so that copying them
    from one node to another does not change the shape. */
module RbShape {

  datatype Color = Red | Black

  class Node {
    var color: Color
    var parent: Node?
    var left: Node?
    var right: Node?
    var key: int
    var value: int

    constructor (k: int, v: int)
      ensures key == k && value == v
    {
      key, value := k, v;
      color := Red;
      parent, left, right := null, null, null;
    }
  }

  datatype Tree = Leaf | Tree(c: Color, l: Tree, n: Node, r: Tree)

  /** A path from the fake root down to a hole, innermost frame first. */
  datatype Ctx =
    | Top
    | InLeft(c: Color, n: Node, r: Tree, up: Ctx)
    | InRight(c: Color, l: Tree, n: Node, up: Ctx)

  // ----- nodes and in-order sequence -----

  ghost function Nodes(t: Tree): set<Node> {
    if t.Leaf? then {} else Nodes(t.l) + {t.n} + Nodes(t.r)
  }

  ghost function CtxNodes(ctx: Ctx): set<Node> {
    match ctx
    case Top => {}
    case InLeft(_, n, r, up) => {n} + Nodes(r) + CtxNodes(up)
    case InRight(_, l, n, up) => {n} + Nodes(l) + CtxNodes(up)
  }

  ghost function Order(t: Tree): seq<Node> {
    if t.Leaf? then [] else Order(t.l) + [t.n] + Order(t.r)
  }

  ghost function Before(ctx: Ctx): seq<Node> {
    match ctx
    case Top => []
    case InLeft(_, n, r, up) => Before(up)
    case InRight(_, l, n, up) => Before(up) + Order(l) + [n]
  }

  ghost function After(ctx: Ctx): seq<Node> {
    match ctx
    case Top => []
    case InLeft(_, n, r, up) => [n] + Order(r) + After(up)
    case InRight(_, l, n, up) => After(up)
  }

  ghost function Plug(ctx: Ctx, t: Tree): Tree {
    match ctx
    case Top => t
    case InLeft(c, n, r, up) => Plug(up, Tree(c, t, n, r))
    case InRight(c, l, n, up) => Plug(up, Tree(c, l, n, t))
  }

  ghost function Depth(ctx: Ctx): nat {
    match ctx
    case Top => 0
    case InLeft(_, _, _, up) => 1 + Depth(up)
    case InRight(_, _, _, up) => 1 + Depth(up)
  }

  lemma {:induction false} Regroup<T>(a: seq<T>, b: seq<T>, c: seq<T>, d: seq<T>, e: seq<T>)
    ensures a + (b + c + d) + e == (a + b + c) + d + e == a + b + (c + d + e)
  {
  }

  lemma {:induction false} PlugOrder(ctx: Ctx, t: Tree)
    ensures Order(Plug(ctx, t)) == Before(ctx) + Order(t) + After(ctx)
  {
    match ctx
    case Top =>
    case InLeft(c, n, r, up) =>
      PlugOrder(up, Tree(c, t, n, r));
      Regroup(Before(up), Order(t), [n], Order(r), After(up));
    case InRight(c, l, n, up) =>
      PlugOrder(up, Tree(c, l, n, t));
      Regroup(Before(up), Order(l), [n], Order(t), After(up));
  }

  lemma {:induction false} OrderNodes(t: Tree)
    ensures forall m :: m in Order(t) <==> m in Nodes(t)
  {
    if t.Tree? {
      OrderNodes(t.l);
      OrderNodes(t.r);
    }
  }

  // ----- every node occurs once -----

  ghost predicate Distinct(t: Tree) {
    t.Tree? ==>
      && t.n !in Nodes(t.l) && t.n !in Nodes(t.r) && Nodes(t.l) !! Nodes(t.r)
      && Distinct(t.l) && Distinct(t.r)
  }

  ghost predicate CtxDistinct(ctx: Ctx) {
    match ctx
    case Top => true
    case InLeft(_, n, r, up) =>
      && n !in Nodes(r) && n !in CtxNodes(up) && Nodes(r) !! CtxNodes(up)
      && Distinct(r) && CtxDistinct(up)
    case InRight(_, l, n, up) =>
      && n !in Nodes(l) && n !in CtxNodes(up) && Nodes(l) !! CtxNodes(up)
      && Distinct(l) && CtxDistinct(up)
  }

  // ----- colour discipline -----

  ghost function BlackHeight(t: Tree): nat {
    if t.Leaf? then 0 else BlackHeight(t.l) + (if t.c.Black? then 1 else 0)
  }

  ghost predicate Balanced(t: Tree) {
    t.Tree? ==> Balanced(t.l) && Balanced(t.r) && BlackHeight(t.l) == BlackHeight(t.r)
  }

  ghost predicate IsRed(t: Tree) {
    t.Tree? && t.c.Red?
  }

  ghost predicate NoRedRed(t: Tree) {
    t.Tree? ==> NoRedRed(t.l) && NoRedRed(t.r) && (t.c.Red? ==> !IsRed(t.l) && !IsRed(t.r))
  }

  ghost predicate RedBlack(t: Tree) {
    Balanced(t) && NoRedRed(t) && !IsRed(t)
  }

  /** The hole of ctx expects a subtree of black height h. */
  ghost predicate CtxBalanced(ctx: Ctx, h: nat) {
    match ctx
    case Top => true
    case InLeft(c, n, r, up) =>
      Balanced(r) && BlackHeight(r) == h && CtxBalanced(up, h + if c.Black? then 1 else 0)
    case InRight(c, l, n, up) =>
      Balanced(l) && BlackHeight(l) == h && CtxBalanced(up, h + if c.Black? then 1 else 0)
  }

  /** The colour of the node above the hole; the fake root is black. */
  ghost predicate ParentRed(ctx: Ctx) {
    ctx != Top && ctx.c.Red?
  }

  ghost predicate CtxNoRedRed(ctx: Ctx) {
    match ctx
    case Top => true
    case InLeft(c, n, r, up) =>
      NoRedRed(r) && CtxNoRedRed(up) && (c.Red? ==> !IsRed(r) && !ParentRed(up))
    case InRight(c, l, n, up) =>
      NoRedRed(l) && CtxNoRedRed(up) && (c.Red? ==> !IsRed(l) && !ParentRed(up))
  }

  /** Colours, apart from the colour of the root. */
  lemma {:induction false} PlugColors(ctx: Ctx, t: Tree)
    requires Balanced(t) && NoRedRed(t) && CtxBalanced(ctx, BlackHeight(t)) && CtxNoRedRed(ctx)
    requires IsRed(t) ==> !ParentRed(ctx)
    ensures Balanced(Plug(ctx, t)) && NoRedRed(Plug(ctx, t))
  {
    match ctx
    case Top =>
    case InLeft(c, n, r, up) => PlugColors(up, Tree(c, t, n, r));
    case InRight(c, l, n, up) => PlugColors(up, Tree(c, l, n, t));
  }

  lemma {:induction false} UnplugColors(ctx: Ctx, t: Tree)
    requires Balanced(Plug(ctx, t)) && NoRedRed(Plug(ctx, t))
    ensures Balanced(t) && NoRedRed(t) && CtxBalanced(ctx, BlackHeight(t)) && CtxNoRedRed(ctx)
    ensures IsRed(t) ==> !ParentRed(ctx)
  {
    match ctx
    case Top =>
    case InLeft(c, n, r, up) => UnplugColors(up, Tree(c, t, n, r));
    case InRight(c, l, n, up) => UnplugColors(up, Tree(c, l, n, t));
  }

  // ----- links in the heap -----

  /** The link and colour fields of one node. */
  datatype Links = Links(color: Color, parent: Node?, left: Node?, right: Node?)

  /** The links of a set of nodes, as a value: the recursive predicates below
      speak about this value, so they are not affected by the heap changing. */
  ghost function Snap(ns: set<Node>): map<Node, Links>
    reads ns`color, ns`parent, ns`left, ns`right
  {
    map n: Node | n in ns :: Links(n.color, n.parent, n.left, n.right)
  }

  ghost function Root(t: Tree, nill: Node): Node {
    if t.Leaf? then nill else t.n
  }

  ghost function Parent(ctx: Ctx, rootPtr: Node): Node {
    if ctx == Top then rootPtr else ctx.n
  }

  ghost predicate Linked(t: Tree, parent: Node, nill: Node, m: map<Node, Links>) {
    t.Tree? ==>
      && t.n in m && m[t.n] == Links(t.c, parent, Root(t.l, nill), Root(t.r, nill))
      && Linked(t.l, t.n, nill, m) && Linked(t.r, t.n, nill, m)
  }

  ghost predicate CtxLinked(ctx: Ctx, hole: Node, rootPtr: Node, nill: Node, m: map<Node, Links>) {
    match ctx
    case Top => rootPtr in m && m[rootPtr].left == hole && m[rootPtr].right == nill
    case InLeft(c, n, r, up) =>
      && n in m && m[n] == Links(c, Parent(up, rootPtr), hole, Root(r, nill))
      && Linked(r, n, nill, m) && CtxLinked(up, n, rootPtr, nill, m)
    case InRight(c, l, n, up) =>
      && n in m && m[n] == Links(c, Parent(up, rootPtr), Root(l, nill), hole)
      && Linked(l, n, nill, m) && CtxLinked(up, n, rootPtr, nill, m)
  }

  ghost predicate Separate(ctx: Ctx, t: Tree, rootPtr: Node, nill: Node) {
    && Distinct(t) && CtxDistinct(ctx) && Nodes(t) !! CtxNodes(ctx)
    && rootPtr != nill
    && rootPtr !in Nodes(t) && nill !in Nodes(t)
    && rootPtr !in CtxNodes(ctx) && nill !in CtxNodes(ctx)
  }

  /** The nodes of the tree t in the hole of ctx are linked as m says. */
  ghost predicate ZippedIn(ctx: Ctx, t: Tree, rootPtr: Node, nill: Node, m: map<Node, Links>) {
    && Separate(ctx, t, rootPtr, nill)
    && CtxLinked(ctx, Root(t, nill), rootPtr, nill, m)
    && Linked(t, Parent(ctx, rootPtr), nill, m)
  }

  ghost function Footprint(ctx: Ctx, t: Tree, rootPtr: Node): set<Node> {
    Nodes(t) + CtxNodes(ctx) + {rootPtr}
  }

  lemma {:induction false} LinkedFrame(t: Tree, p: Node, nill: Node, m: map<Node, Links>, m': map<Node, Links>)
    requires Linked(t, p, nill, m)
    requires forall n :: n in Nodes(t) && n in m ==> n in m' && m'[n] == m[n]
    ensures Linked(t, p, nill, m')
  {
    if t.Tree? {
      LinkedFrame(t.l, t.n, nill, m, m');
      LinkedFrame(t.r, t.n, nill, m, m');
    }
  }

  lemma {:induction false} CtxFrame(ctx: Ctx, h: Node, rootPtr: Node, nill: Node, m: map<Node, Links>, m': map<Node, Links>)
    requires CtxLinked(ctx, h, rootPtr, nill, m)
    requires forall n :: n in CtxNodes(ctx) && n in m ==> n in m' && m'[n] == m[n]
    requires rootPtr in m ==> rootPtr in m' && m'[rootPtr].left == m[rootPtr].left && m'[rootPtr].right == m[rootPtr].right
    ensures CtxLinked(ctx, h, rootPtr, nill, m')
  {
    match ctx
    case Top =>
    case InLeft(_, n, r, up) =>
      LinkedFrame(r, n, nill, m, m');
      CtxFrame(up, n, rootPtr, nill, m, m');
    case InRight(_, l, n, up) =>
      LinkedFrame(l, n, nill, m, m');
      CtxFrame(up, n, rootPtr, nill, m, m');
  }

  /** The subtree gets another parent p', nothing else in it changes. */
  lemma {:induction false} Reparented(t: Tree, p: Node, p': Node, nill: Node, m: map<Node, Links>, m': map<Node, Links>)
    requires Linked(t, p, nill, m) && Distinct(t)
    requires forall n :: n in Nodes(t) && n != Root(t, nill) && n in m ==> n in m' && m'[n] == m[n]
    requires t.Tree? && t.n in m ==> t.n in m' && m'[t.n] == m[t.n].(parent := p')
    ensures Linked(t, p', nill, m')
  {
    if t.Tree? {
      LinkedFrame(t.l, t.n, nill, m, m');
      LinkedFrame(t.r, t.n, nill, m, m');
    }
  }

  /** The links of the node above the hole when h' becomes the hole's root. */
  ghost function Refill(ctx: Ctx, h': Node, links: Links): Links {
    if ctx.InRight? then links.(right := h') else links.(left := h')
  }

  lemma {:induction false} Refilled(ctx: Ctx, h: Node, h': Node, rootPtr: Node, nill: Node, m: map<Node, Links>, m': map<Node, Links>)
    requires CtxLinked(ctx, h, rootPtr, nill, m) && CtxDistinct(ctx) && rootPtr !in CtxNodes(ctx)
    requires m.Keys == m'.Keys
    requires forall n :: n in m && n in CtxNodes(ctx) + {rootPtr} && n != Parent(ctx, rootPtr) ==> m'[n] == m[n]
    requires Parent(ctx, rootPtr) in m && m'[Parent(ctx, rootPtr)] == Refill(ctx, h', m[Parent(ctx, rootPtr)])
    ensures CtxLinked(ctx, h', rootPtr, nill, m')
  {
    match ctx
    case Top =>
    case InLeft(_, n, r, up) =>
      LinkedFrame(r, n, nill, m, m');
      CtxFrame(up, n, rootPtr, nill, m, m');
    case InRight(_, l, n, up) =>
      LinkedFrame(l, n, nill, m, m');
      CtxFrame(up, n, rootPtr, nill, m, m');
  }

  /** Moving the focus to the top of the tree. */
  lemma {:induction false} ZipUp(ctx: Ctx, t: Tree, rootPtr: Node, nill: Node, m: map<Node, Links>)
    requires ZippedIn(ctx, t, rootPtr, nill, m)
    ensures ZippedIn(Top, Plug(ctx, t), rootPtr, nill, m)
    ensures Nodes(Plug(ctx, t)) == Nodes(t) + CtxNodes(ctx)
  {
    match ctx
    case Top =>
    case InLeft(c, n, r, up) => ZipUp(up, Tree(c, t, n, r), rootPtr, nill, m);
    case InRight(c, l, n, up) => ZipUp(up, Tree(c, l, n, t), rootPtr, nill, m);
  }
}
