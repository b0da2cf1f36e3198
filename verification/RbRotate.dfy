module RbRotate {
  import opened RbShape

  ghost function RotatedLeft(t: Tree): Tree
    requires t.Tree? && t.r.Tree?
  {
    Tree(t.r.c, Tree(t.c, t.l, t.n, t.r.l), t.r.n, t.r.r)
  }

  ghost function RotatedRight(t: Tree): Tree
    requires t.Tree? && t.l.Tree?
  {
    Tree(t.l.c, t.l.l, t.l.n, Tree(t.c, t.l.r, t.n, t.r))
  }

  lemma {:induction false} SameOrderLeft(t: Tree)
    requires t.Tree? && t.r.Tree?
    ensures Order(RotatedLeft(t)) == Order(t) && Nodes(RotatedLeft(t)) == Nodes(t)
  {
    var a, b, c := Order(t.l), Order(t.r.l), Order(t.r.r);
    assert a + [t.n] + (b + [t.r.n] + c) == (a + [t.n] + b) + [t.r.n] + c;
  }

  lemma {:induction false} SameOrderRight(t: Tree)
    requires t.Tree? && t.l.Tree?
    ensures Order(RotatedRight(t)) == Order(t) && Nodes(RotatedRight(t)) == Nodes(t)
  {
    var a, b, c := Order(t.l.l), Order(t.l.r), Order(t.r);
    assert (a + [t.l.n] + b) + [t.n] + c == a + [t.l.n] + (b + [t.n] + c);
  }

  lemma {:induction false} RotateLeftSeparate(ctx: Ctx, t: Tree, rootPtr: Node, nill: Node)
    requires t.Tree? && t.r.Tree? && Separate(ctx, t, rootPtr, nill)
    ensures Separate(ctx, RotatedLeft(t), rootPtr, nill)
  {
    SameOrderLeft(t);
    assert Distinct(t.r) && Distinct(RotatedLeft(t).l);
    assert Distinct(RotatedLeft(t));
  }

  lemma {:induction false} RotateRightSeparate(ctx: Ctx, t: Tree, rootPtr: Node, nill: Node)
    requires t.Tree? && t.l.Tree? && Separate(ctx, t, rootPtr, nill)
    ensures Separate(ctx, RotatedRight(t), rootPtr, nill)
  {
    SameOrderRight(t);
    assert Distinct(t.l) && Distinct(RotatedRight(t).r);
    assert Distinct(RotatedRight(t));
  }

  // ----- the updates the code makes, as updates of the link map -----

  ghost function Paint(m: map<Node, Links>, n: Node, c: Color): map<Node, Links>
    requires n in m
  {
    m[n := m[n].(color := c)]
  }

  /** A rotation reads and writes only nodes of m, and they are distinct. */
  ghost predicate CanRotate(m: map<Node, Links>, nill: Node, x: Node, y: Node?, b: Node?) {
    && nill !in m && x in m && y in m && m[x].parent in m
    && (b == nill || b in m)
    && x != y && x != b && y != b && m[x].parent !in {x, y, b}
  }

  ghost function Relink(links: Links, x: Node, y: Node): Links {
    if links.left == x then links.(left := y) else links.(right := y)
  }

  ghost function LeftRotated(m: map<Node, Links>, nill: Node, x: Node): map<Node, Links>
    requires x in m && m[x].right in m && CanRotate(m, nill, x, m[x].right, m[m[x].right].left)
  {
    var y, p := m[x].right, m[x].parent;
    var b := m[y].left;
    var m1 := if b == nill then m else m[b := m[b].(parent := x)];
    m1[p := Relink(m[p], x, y)][y := m[y].(parent := p, left := x)][x := m[x].(parent := y, right := b)]
  }

  ghost function RightRotated(m: map<Node, Links>, nill: Node, x: Node): map<Node, Links>
    requires x in m && m[x].left in m && CanRotate(m, nill, x, m[x].left, m[m[x].left].right)
  {
    var y, p := m[x].left, m[x].parent;
    var b := m[y].right;
    var m1 := if b == nill then m else m[b := m[b].(parent := x)];
    m1[p := Relink(m[p], x, y)][y := m[y].(parent := p, right := x)][x := m[x].(parent := y, left := b)]
  }

  /** Makes x the left child of its right child. */
  method LeftRotate(nill: Node, x: Node, ghost s: set<Node>)
    requires x in s && x.right in s && CanRotate(Snap(s), nill, x, x.right, x.right.left)
    modifies s`left, s`right, s`parent
    ensures Snap(s) == LeftRotated(old(Snap(s)), nill, x)
  {
    var y := x.right;
    if y.left != nill {
      y.left.parent := x;
    }
    if x == x.parent.left {
      x.parent.left := y;
    } else {
      x.parent.right := y;
    }
    y.parent := x.parent;
    x.parent := y;
    x.right := y.left;
    y.left := x;
  }

  /** Makes x the right child of its left child. */
  method RightRotate(nill: Node, x: Node, ghost s: set<Node>)
    requires x in s && x.left in s && CanRotate(Snap(s), nill, x, x.left, x.left.right)
    modifies s`left, s`right, s`parent
    ensures Snap(s) == RightRotated(old(Snap(s)), nill, x)
  {
    var y := x.left;
    if y.right != nill {
      y.right.parent := x;
    }
    if x == x.parent.left {
      x.parent.left := y;
    } else {
      x.parent.right := y;
    }
    y.parent := x.parent;
    x.parent := y;
    x.left := y.right;
    y.right := x;
  }

  // ----- moving the focus of a zipper -----

  ghost function Filled(ctx: Ctx, t: Tree): Tree
    requires ctx != Top
  {
    if ctx.InLeft? then Tree(ctx.c, t, ctx.n, ctx.r) else Tree(ctx.c, ctx.l, ctx.n, t)
  }

  lemma {:induction false} Up(ctx: Ctx, t: Tree, rootPtr: Node, nill: Node, m: map<Node, Links>)
    requires ctx != Top && ZippedIn(ctx, t, rootPtr, nill, m)
    ensures ZippedIn(ctx.up, Filled(ctx, t), rootPtr, nill, m)
    ensures Footprint(ctx.up, Filled(ctx, t), rootPtr) == Footprint(ctx, t, rootPtr)
    ensures Plug(ctx.up, Filled(ctx, t)) == Plug(ctx, t)
  {
  }

  ghost function LeftOf(ctx: Ctx, t: Tree): Ctx
    requires t.Tree?
  {
    InLeft(t.c, t.n, t.r, ctx)
  }

  ghost function RightOf(ctx: Ctx, t: Tree): Ctx
    requires t.Tree?
  {
    InRight(t.c, t.l, t.n, ctx)
  }

  lemma {:induction false} Down(ctx: Ctx, t: Tree, rootPtr: Node, nill: Node, m: map<Node, Links>)
    requires t.Tree? && ZippedIn(ctx, t, rootPtr, nill, m)
    ensures ZippedIn(LeftOf(ctx, t), t.l, rootPtr, nill, m)
    ensures ZippedIn(RightOf(ctx, t), t.r, rootPtr, nill, m)
    ensures Footprint(LeftOf(ctx, t), t.l, rootPtr) == Footprint(ctx, t, rootPtr)
    ensures Footprint(RightOf(ctx, t), t.r, rootPtr) == Footprint(ctx, t, rootPtr)
  {
  }

  /** The links at and just above the focus. */
  lemma {:induction false} Look(ctx: Ctx, t: Tree, rootPtr: Node, nill: Node, m: map<Node, Links>)
    requires ZippedIn(ctx, t, rootPtr, nill, m)
    ensures t.Tree? ==>
      && t.n in m && m[t.n] == Links(t.c, Parent(ctx, rootPtr), Root(t.l, nill), Root(t.r, nill))
      && t.n !in {nill, rootPtr, Parent(ctx, rootPtr)}
    ensures ctx == Top ==> rootPtr in m && m[rootPtr].left == Root(t, nill)
    ensures ctx != Top ==>
      && ctx.n in m && ctx.n !in {nill, rootPtr, Root(t, nill)}
      && m[ctx.n].color == ctx.c && m[ctx.n].parent == Parent(ctx.up, rootPtr)
    ensures ctx.InLeft? ==> m[ctx.n].left == Root(t, nill) && m[ctx.n].right == Root(ctx.r, nill)
    ensures ctx.InRight? ==> m[ctx.n].left == Root(ctx.l, nill) && m[ctx.n].right == Root(t, nill)
  {
  }

  lemma {:induction false} Members(ctx: Ctx, t: Tree, rootPtr: Node, nill: Node, m: map<Node, Links>)
    requires ZippedIn(ctx, t, rootPtr, nill, m)
    ensures var s := Footprint(ctx, t, rootPtr);
      nill !in s && rootPtr in s && Parent(ctx, rootPtr) in s && (t.Tree? ==> t.n in s)
    ensures ctx == Top <==> Parent(ctx, rootPtr) == rootPtr
  {
  }

  /** The two children of the node above the focus differ, unless both are nill. */
  lemma {:induction false} Sibling(ctx: Ctx, t: Tree, rootPtr: Node, nill: Node, m: map<Node, Links>)
    requires ZippedIn(ctx, t, rootPtr, nill, m) && ctx != Top
    ensures ctx.InLeft? && ctx.r.Tree? ==>
      ctx.r.n in m && ctx.r.n !in {nill, rootPtr, ctx.n, Root(t, nill)} && m[ctx.r.n].color == ctx.r.c
    ensures ctx.InRight? && ctx.l.Tree? ==>
      ctx.l.n in m && ctx.l.n !in {nill, rootPtr, ctx.n, Root(t, nill)} && m[ctx.l.n].color == ctx.l.c
  {
  }

  // ----- the updates, seen through the zipper -----

  lemma {:induction false} PaintIn(ctx: Ctx, t: Tree, c: Color, rootPtr: Node, nill: Node, m: map<Node, Links>)
    requires t.Tree? && ZippedIn(ctx, t, rootPtr, nill, m) && t.n in m
    ensures ZippedIn(ctx, t.(c := c), rootPtr, nill, Paint(m, t.n, c))
    ensures Nodes(t.(c := c)) == Nodes(t) && Order(t.(c := c)) == Order(t)
  {
    var m' := Paint(m, t.n, c);
    LinkedFrame(t.l, t.n, nill, m, m');
    LinkedFrame(t.r, t.n, nill, m, m');
    CtxFrame(ctx, t.n, rootPtr, nill, m, m');
  }

  lemma {:induction false} PaintLeftIn(ctx: Ctx, t: Tree, c: Color, rootPtr: Node, nill: Node, m: map<Node, Links>)
    requires t.Tree? && t.l.Tree? && ZippedIn(ctx, t, rootPtr, nill, m)
    ensures t.l.n in m && t.l.n !in {t.n, rootPtr, nill}
    ensures ZippedIn(ctx, t.(l := t.l.(c := c)), rootPtr, nill, Paint(m, t.l.n, c))
    ensures Nodes(t.(l := t.l.(c := c))) == Nodes(t) && Order(t.(l := t.l.(c := c))) == Order(t)
  {
    Down(ctx, t, rootPtr, nill, m);
    Look(LeftOf(ctx, t), t.l, rootPtr, nill, m);
    PaintIn(LeftOf(ctx, t), t.l, c, rootPtr, nill, m);
    Up(LeftOf(ctx, t), t.l.(c := c), rootPtr, nill, Paint(m, t.l.n, c));
  }

  lemma {:induction false} PaintRightIn(ctx: Ctx, t: Tree, c: Color, rootPtr: Node, nill: Node, m: map<Node, Links>)
    requires t.Tree? && t.r.Tree? && ZippedIn(ctx, t, rootPtr, nill, m)
    ensures t.r.n in m && t.r.n !in {t.n, rootPtr, nill}
    ensures ZippedIn(ctx, t.(r := t.r.(c := c)), rootPtr, nill, Paint(m, t.r.n, c))
    ensures Nodes(t.(r := t.r.(c := c))) == Nodes(t) && Order(t.(r := t.r.(c := c))) == Order(t)
  {
    Down(ctx, t, rootPtr, nill, m);
    Look(RightOf(ctx, t), t.r, rootPtr, nill, m);
    PaintIn(RightOf(ctx, t), t.r, c, rootPtr, nill, m);
    Up(RightOf(ctx, t), t.r.(c := c), rootPtr, nill, Paint(m, t.r.n, c));
  }

  lemma {:induction false} CanRotateLeft(ctx: Ctx, t: Tree, rootPtr: Node, nill: Node, m: map<Node, Links>)
    requires ZippedIn(ctx, t, rootPtr, nill, m) && t.Tree? && t.r.Tree?
    requires m.Keys == Footprint(ctx, t, rootPtr)
    ensures t.n in m && m[t.n].right == t.r.n && t.r.n in m && m[t.r.n].left == Root(t.r.l, nill)
    ensures CanRotate(m, nill, t.n, m[t.n].right, m[m[t.n].right].left)
  {
    var b := t.r.l;
    assert Linked(t.r, t.n, nill, m) && Distinct(t.r);
    assert Parent(ctx, rootPtr) in CtxNodes(ctx) + {rootPtr};
    assert b.Tree? ==> b.n in Nodes(t.r) && b.n in Nodes(b);
  }

  lemma {:induction false} CanRotateRight(ctx: Ctx, t: Tree, rootPtr: Node, nill: Node, m: map<Node, Links>)
    requires ZippedIn(ctx, t, rootPtr, nill, m) && t.Tree? && t.l.Tree?
    requires m.Keys == Footprint(ctx, t, rootPtr)
    ensures t.n in m && m[t.n].left == t.l.n && t.l.n in m && m[t.l.n].right == Root(t.l.r, nill)
    ensures CanRotate(m, nill, t.n, m[t.n].left, m[m[t.n].left].right)
  {
    var b := t.l.r;
    assert Linked(t.l, t.n, nill, m) && Distinct(t.l);
    assert Parent(ctx, rootPtr) in CtxNodes(ctx) + {rootPtr};
    assert b.Tree? ==> b.n in Nodes(t.l) && b.n in Nodes(b);
  }

  lemma {:induction false} RotateLeftIn(ctx: Ctx, t: Tree, rootPtr: Node, nill: Node, m: map<Node, Links>)
    requires ZippedIn(ctx, t, rootPtr, nill, m) && t.Tree? && t.r.Tree?
    requires t.n in m && m[t.n].right == t.r.n && t.r.n in m && m[t.r.n].left == Root(t.r.l, nill)
    requires CanRotate(m, nill, t.n, m[t.n].right, m[m[t.n].right].left)
    ensures ZippedIn(ctx, RotatedLeft(t), rootPtr, nill, LeftRotated(m, nill, t.n))
  {
    RotateLeftSeparate(ctx, t, rootPtr, nill);
    var a, b, c, x, y, p := t.l, t.r.l, t.r.r, t.n, t.r.n, Parent(ctx, rootPtr);
    var m' := LeftRotated(m, nill, x);
    Look(ctx, t, rootPtr, nill, m);
    assert Nodes(t) == Nodes(a) + {x} + (Nodes(b) + {y} + Nodes(c));
    assert Distinct(t.r) && Linked(t.r, x, nill, m);
    assert p in CtxNodes(ctx) + {rootPtr} && (b.Tree? ==> b.n in Nodes(b));
    assert Linked(a, x, nill, m') by { LinkedFrame(a, x, nill, m, m'); }
    assert Linked(b, x, nill, m') by { Reparented(b, y, x, nill, m, m'); }
    assert Linked(c, y, nill, m') by { LinkedFrame(c, y, nill, m, m'); }
    assert CtxLinked(ctx, y, rootPtr, nill, m') by { Refilled(ctx, x, y, rootPtr, nill, m, m'); }
    assert Linked(Tree(t.c, a, x, b), y, nill, m');
  }

  lemma {:induction false} RotateRightIn(ctx: Ctx, t: Tree, rootPtr: Node, nill: Node, m: map<Node, Links>)
    requires ZippedIn(ctx, t, rootPtr, nill, m) && t.Tree? && t.l.Tree?
    requires t.n in m && m[t.n].left == t.l.n && t.l.n in m && m[t.l.n].right == Root(t.l.r, nill)
    requires CanRotate(m, nill, t.n, m[t.n].left, m[m[t.n].left].right)
    ensures ZippedIn(ctx, RotatedRight(t), rootPtr, nill, RightRotated(m, nill, t.n))
  {
    RotateRightSeparate(ctx, t, rootPtr, nill);
    var a, b, c, x, y, p := t.l.l, t.l.r, t.r, t.n, t.l.n, Parent(ctx, rootPtr);
    var m' := RightRotated(m, nill, x);
    Look(ctx, t, rootPtr, nill, m);
    assert Nodes(t) == (Nodes(a) + {y} + Nodes(b)) + {x} + Nodes(c);
    assert Distinct(t.l) && Linked(t.l, x, nill, m);
    assert p in CtxNodes(ctx) + {rootPtr} && (b.Tree? ==> b.n in Nodes(b));
    assert Linked(a, y, nill, m') by { LinkedFrame(a, y, nill, m, m'); }
    assert Linked(b, x, nill, m') by { Reparented(b, y, x, nill, m, m'); }
    assert Linked(c, x, nill, m') by { LinkedFrame(c, x, nill, m, m'); }
    assert CtxLinked(ctx, y, rootPtr, nill, m') by { Refilled(ctx, x, y, rootPtr, nill, m, m'); }
    assert Linked(Tree(t.c, b, x, c), y, nill, m');
  }
}
