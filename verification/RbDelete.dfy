/** The fix-up after a black node has been unlinked. */
module RbDelete {
  import opened RbShape
  import opened RbRotate
  import opened RbInsert

  ghost function Blackened(t: Tree): Tree {
    if t.Leaf? then t else t.(c := Black)
  }

  /** The subtree in focus is one black node short of what its context expects;
      apart from that, and from the colour of its root, all is red-black. */
  ghost predicate Short(ctx: Ctx, t: Tree) {
    && Balanced(t) && NoRedRed(Blackened(t))
    && CtxBalanced(ctx, BlackHeight(t) + 1) && CtxNoRedRed(ctx) && RootBlack(ctx)
  }

  /** The tree is red-black again. */
  ghost predicate Mended(ctx: Ctx, t: Tree) {
    && Balanced(t) && NoRedRed(t)
    && CtxBalanced(ctx, BlackHeight(t)) && CtxNoRedRed(ctx) && RootBlack(ctx)
    && (IsRed(t) ==> ctx != Top && !ParentRed(ctx))
  }

  lemma {:induction false} MendedRedBlack(ctx: Ctx, t: Tree)
    requires Mended(ctx, t)
    ensures RedBlack(Plug(ctx, t))
  {
    PlugColors(ctx, t);
    BlackRoot(ctx, t);
  }

  lemma {:induction false} BlackRoot(ctx: Ctx, t: Tree)
    requires RootBlack(ctx) && (ctx == Top ==> !IsRed(t))
    ensures !IsRed(Plug(ctx, t))
  {
    match ctx
    case Top =>
    case InLeft(c, n, r, up) => BlackRoot(up, Tree(c, t, n, r));
    case InRight(c, l, n, up) => BlackRoot(up, Tree(c, l, n, t));
  }

  /** Painting the focus black when it is red, or at the top, ends the fix-up. */
  lemma {:induction false} PaintedMended(ctx: Ctx, t: Tree)
    requires Short(ctx, t) && (IsRed(t) || ctx == Top)
    ensures Mended(ctx, Blackened(t))
    ensures Order(Plug(ctx, Blackened(t))) == Order(Plug(ctx, t))
  {
    SameOrder(ctx, t, Blackened(t));
  }

  // ----- case 1: a red sibling -----

  ghost function NearLeft(ctx: Ctx): Ctx
    requires ctx.InLeft? && ctx.r.Tree?
  {
    InLeft(Red, ctx.n, ctx.r.l, InLeft(Black, ctx.r.n, ctx.r.r, ctx.up))
  }

  lemma {:induction false} RedSiblingLeft(ctx: Ctx, t: Tree)
    requires Short(ctx, t) && !IsRed(t) && ctx.InLeft?
    ensures ctx.r.Tree?
    ensures IsRed(ctx.r) ==>
      && Short(NearLeft(ctx), t) && ctx.c.Black? && ctx.r.l.Tree? && !IsRed(ctx.r.l)
      && Order(Plug(NearLeft(ctx), t)) == Order(Plug(ctx, t))
  {
    if IsRed(ctx.r) {
      var p := Filled(ctx, t);
      SameOrderLeft(p);
      SameOrder(ctx.up, p, RotatedLeft(p));
      assert Order(Filled(NearLeft(ctx).up, Filled(NearLeft(ctx), t))) == Order(RotatedLeft(p));
      SameOrder(ctx.up, RotatedLeft(p), Filled(NearLeft(ctx).up, Filled(NearLeft(ctx), t)));
    }
  }

  lemma {:induction false} RedSiblingLeftIn(ctx: Ctx, t: Tree, rootPtr: Node, nill: Node, m: map<Node, Links>)
    requires ZippedIn(ctx, t, rootPtr, nill, m) && m.Keys == Footprint(ctx, t, rootPtr)
    requires ctx.InLeft? && ctx.r.Tree?
    ensures ctx.n in m && ctx.r.n in m && ctx.n != ctx.r.n && rootPtr in m && rootPtr !in {ctx.n, ctx.r.n}
    ensures var m2 := Paint(Paint(m, ctx.r.n, Black), ctx.n, Red);
      && m2[ctx.n].right == ctx.r.n
      && CanRotate(m2, nill, ctx.n, m2[ctx.n].right, m2[m2[ctx.n].right].left)
      && ZippedIn(NearLeft(ctx), t, rootPtr, nill, LeftRotated(m2, nill, ctx.n))
      && LeftRotated(m2, nill, ctx.n)[rootPtr].color == m[rootPtr].color
    ensures Footprint(NearLeft(ctx), t, rootPtr) == Footprint(ctx, t, rootPtr)
  {
    var p := Filled(ctx, t);
    Look(ctx, t, rootPtr, nill, m);
    Up(ctx, t, rootPtr, nill, m);
    PaintRightIn(ctx.up, p, Black, rootPtr, nill, m);
    var m1, p1 := Paint(m, ctx.r.n, Black), p.(r := p.r.(c := Black));
    PaintIn(ctx.up, p1, Red, rootPtr, nill, m1);
    var m2, p2 := Paint(m1, ctx.n, Red), p1.(c := Red);
    CanRotateLeft(ctx.up, p2, rootPtr, nill, m2);
    RotateLeftIn(ctx.up, p2, rootPtr, nill, m2);
    SameOrderLeft(p2);
    var q, m3 := RotatedLeft(p2), LeftRotated(m2, nill, ctx.n);
    Down(ctx.up, q, rootPtr, nill, m3);
    Down(LeftOf(ctx.up, q), q.l, rootPtr, nill, m3);
  }

  // ----- case 2: both nephews black -----

  ghost function Reddened(ctx: Ctx, t: Tree): Tree
    requires ctx != Top && (if ctx.InLeft? then ctx.r.Tree? else ctx.l.Tree?)
  {
    if ctx.InLeft? then Filled(ctx.(r := ctx.r.(c := Red)), t) else Filled(ctx.(l := ctx.l.(c := Red)), t)
  }

  lemma {:induction false} BlackNephewsLeft(ctx: Ctx, t: Tree)
    requires Short(ctx, t) && !IsRed(t) && ctx.InLeft? && ctx.r.Tree? && ctx.r.c.Black? && !IsRed(ctx.r.l) && !IsRed(ctx.r.r)
    ensures Short(ctx.up, Reddened(ctx, t)) && Order(Plug(ctx.up, Reddened(ctx, t))) == Order(Plug(ctx, t))
  {
    var w := ctx.r.(c := Red);
    assert Balanced(w) && NoRedRed(w) && BlackHeight(ctx.r) == BlackHeight(w) + 1 == BlackHeight(t) + 1;
    assert NoRedRed(t) && Balanced(Reddened(ctx, t));
    assert Order(Reddened(ctx, t)) == Order(Filled(ctx, t)) by { assert Order(ctx.r.(c := Red)) == Order(ctx.r); }
    SameOrder(ctx.up, Filled(ctx, t), Reddened(ctx, t));
  }

  lemma {:induction false} BlackNephewsLeftIn(ctx: Ctx, t: Tree, rootPtr: Node, nill: Node, m: map<Node, Links>)
    requires ZippedIn(ctx, t, rootPtr, nill, m) && ctx.InLeft? && ctx.r.Tree?
    ensures ctx.r.n in m && ctx.r.n != rootPtr
    ensures ZippedIn(ctx.up, Reddened(ctx, t), rootPtr, nill, Paint(m, ctx.r.n, Red))
    ensures Footprint(ctx.up, Reddened(ctx, t), rootPtr) == Footprint(ctx, t, rootPtr)
  {
    Up(ctx, t, rootPtr, nill, m);
    PaintRightIn(ctx.up, Filled(ctx, t), Red, rootPtr, nill, m);
  }

  // ----- case 3: only the near nephew is red -----

  ghost function LeanedLeft(w: Tree): Tree
    requires w.Tree? && w.l.Tree?
  {
    RotatedRight(w.(c := Red, l := w.l.(c := Black)))
  }

  lemma {:induction false} NearNephewLeft(ctx: Ctx, t: Tree)
    requires Short(ctx, t) && !IsRed(t) && ctx.InLeft? && ctx.r.Tree? && ctx.r.c.Black? && IsRed(ctx.r.l) && !IsRed(ctx.r.r)
    ensures var w := LeanedLeft(ctx.r);
      && Short(ctx.(r := w), t) && w.c.Black? && IsRed(w.r)
      && Order(Plug(ctx.(r := w), t)) == Order(Plug(ctx, t))
  {
    var w := ctx.r.(c := Red, l := ctx.r.l.(c := Black));
    var near, v := ctx.r.l, LeanedLeft(ctx.r);
    assert Balanced(near) && NoRedRed(near) && BlackHeight(near) == BlackHeight(t);
    assert Balanced(v.r) && NoRedRed(v.r) && BlackHeight(v.r) == BlackHeight(t);
    assert Balanced(v) && NoRedRed(v) && BlackHeight(v) == BlackHeight(t) + 1;
    SameOrderRight(w);
    assert Order(w) == Order(ctx.r) by { assert Order(w.l) == Order(ctx.r.l); }
    SameOrder(ctx.up, Filled(ctx, t), Filled(ctx.(r := LeanedLeft(ctx.r)), t));
  }

  lemma {:induction false} NearNephewLeftIn(ctx: Ctx, t: Tree, rootPtr: Node, nill: Node, m: map<Node, Links>)
    requires ZippedIn(ctx, t, rootPtr, nill, m) && m.Keys == Footprint(ctx, t, rootPtr)
    requires ctx.InLeft? && ctx.r.Tree? && ctx.r.l.Tree?
    ensures ctx.r.n in m && ctx.r.l.n in m && ctx.r.n != ctx.r.l.n && rootPtr in m && rootPtr !in {ctx.r.n, ctx.r.l.n}
    ensures var m2 := Paint(Paint(m, ctx.r.l.n, Black), ctx.r.n, Red);
      && m2[ctx.r.n].left == ctx.r.l.n
      && CanRotate(m2, nill, ctx.r.n, m2[ctx.r.n].left, m2[m2[ctx.r.n].left].right)
      && ZippedIn(ctx.(r := LeanedLeft(ctx.r)), t, rootPtr, nill, RightRotated(m2, nill, ctx.r.n))
      && RightRotated(m2, nill, ctx.r.n)[rootPtr].color == m[rootPtr].color
    ensures Footprint(ctx.(r := LeanedLeft(ctx.r)), t, rootPtr) == Footprint(ctx, t, rootPtr)
  {
    var p, w := Filled(ctx, t), ctx.r;
    Look(ctx, t, rootPtr, nill, m);
    Up(ctx, t, rootPtr, nill, m);
    Down(ctx.up, p, rootPtr, nill, m);
    var wc := RightOf(ctx.up, p);
    Look(wc, w, rootPtr, nill, m);
    PaintLeftIn(wc, w, Black, rootPtr, nill, m);
    var m1, w1 := Paint(m, w.l.n, Black), w.(l := w.l.(c := Black));
    PaintIn(wc, w1, Red, rootPtr, nill, m1);
    var m2, w2 := Paint(m1, w.n, Red), w1.(c := Red);
    CanRotateRight(wc, w2, rootPtr, nill, m2);
    RotateRightIn(wc, w2, rootPtr, nill, m2);
    SameOrderRight(w2);
    var m3 := RightRotated(m2, nill, w.n);
    Up(wc, RotatedRight(w2), rootPtr, nill, m3);
    Down(ctx.up, Filled(wc, RotatedRight(w2)), rootPtr, nill, m3);
  }

  // ----- case 4: the far nephew is red -----

  ghost function FarLeft(ctx: Ctx, t: Tree): Tree
    requires ctx.InLeft? && ctx.r.Tree? && ctx.r.r.Tree?
  {
    Tree(ctx.c, Tree(Black, t, ctx.n, ctx.r.l), ctx.r.n, ctx.r.r.(c := Black))
  }

  lemma {:induction false} FarNephewLeft(ctx: Ctx, t: Tree)
    requires Short(ctx, t) && !IsRed(t) && ctx.InLeft? && ctx.r.Tree? && ctx.r.c.Black? && IsRed(ctx.r.r)
    ensures Mended(ctx.up, FarLeft(ctx, t))
    ensures Order(Plug(ctx.up, FarLeft(ctx, t))) == Order(Plug(ctx, t))
  {
    var p := Filled(ctx, t);
    var w := ctx.r.r.(c := Black);
    assert Balanced(ctx.r.r) && NoRedRed(ctx.r.r);
    assert NoRedRed(t) && NoRedRed(ctx.r.l) && Balanced(ctx.r.l) && NoRedRed(w) && Balanced(w);
    assert BlackHeight(w) == BlackHeight(t) + 1 && BlackHeight(ctx.r.l) == BlackHeight(t);
    var f := FarLeft(ctx, t);
    assert !IsRed(f.l) && !IsRed(f.r) && NoRedRed(f.l) && NoRedRed(f.r);
    assert Balanced(f.l) && Balanced(f.r) && BlackHeight(f.l) == BlackHeight(f.r);
    assert Balanced(f) && NoRedRed(f);
    SameOrderLeft(p);
    assert Order(FarLeft(ctx, t)) == Order(RotatedLeft(p)) by { assert Order(ctx.r.r.(c := Black)) == Order(ctx.r.r); }
    SameOrder(ctx.up, p, FarLeft(ctx, t));
  }

  lemma {:induction false} FarNephewLeftIn(ctx: Ctx, t: Tree, rootPtr: Node, nill: Node, m: map<Node, Links>)
    requires ZippedIn(ctx, t, rootPtr, nill, m) && m.Keys == Footprint(ctx, t, rootPtr)
    requires ctx.InLeft? && ctx.r.Tree? && ctx.r.r.Tree?
    ensures ctx.n in m && ctx.r.n in m && ctx.r.r.n in m && rootPtr in m && rootPtr !in {ctx.n, ctx.r.n, ctx.r.r.n}
    ensures ctx.n !in {ctx.r.n, ctx.r.r.n} && ctx.r.n != ctx.r.r.n
    ensures var m3 := Paint(Paint(Paint(m, ctx.r.n, ctx.c), ctx.n, Black), ctx.r.r.n, Black);
      && m3[ctx.n].right == ctx.r.n
      && CanRotate(m3, nill, ctx.n, m3[ctx.n].right, m3[m3[ctx.n].right].left)
      && ZippedIn(ctx.up, FarLeft(ctx, t), rootPtr, nill, LeftRotated(m3, nill, ctx.n))
      && LeftRotated(m3, nill, ctx.n)[rootPtr].color == m[rootPtr].color
      && LeftRotated(m3, nill, ctx.n)[ctx.n].color == Black
    ensures Footprint(ctx.up, FarLeft(ctx, t), rootPtr) == Footprint(ctx, t, rootPtr)
  {
    var p, up := Filled(ctx, t), ctx.up;
    Look(ctx, t, rootPtr, nill, m);
    Up(ctx, t, rootPtr, nill, m);
    PaintRightIn(up, p, ctx.c, rootPtr, nill, m);
    var m1, p1 := Paint(m, ctx.r.n, ctx.c), p.(r := p.r.(c := ctx.c));
    PaintIn(up, p1, Black, rootPtr, nill, m1);
    var m2, p2 := Paint(m1, ctx.n, Black), p1.(c := Black);
    Down(up, p2, rootPtr, nill, m2);
    PaintRightIn(RightOf(up, p2), p2.r, Black, rootPtr, nill, m2);
    var m3, w3 := Paint(m2, ctx.r.r.n, Black), p2.r.(r := p2.r.r.(c := Black));
    Up(RightOf(up, p2), w3, rootPtr, nill, m3);
    var p3 := p2.(r := w3);
    assert Nodes(w3) == Nodes(p2.r) && Nodes(p3) == Nodes(p);
    CanRotateLeft(up, p3, rootPtr, nill, m3);
    RotateLeftIn(up, p3, rootPtr, nill, m3);
    SameOrderLeft(p3);
  }

  // ----- the same cases for a right child -----

  ghost function NearRight(ctx: Ctx): Ctx
    requires ctx.InRight? && ctx.l.Tree?
  {
    InRight(Red, ctx.l.r, ctx.n, InRight(Black, ctx.l.l, ctx.l.n, ctx.up))
  }

  lemma {:induction false} RedSiblingRight(ctx: Ctx, t: Tree)
    requires Short(ctx, t) && !IsRed(t) && ctx.InRight?
    ensures ctx.l.Tree?
    ensures IsRed(ctx.l) ==>
      && Short(NearRight(ctx), t) && ctx.c.Black? && ctx.l.r.Tree? && !IsRed(ctx.l.r)
      && Order(Plug(NearRight(ctx), t)) == Order(Plug(ctx, t))
  {
    if IsRed(ctx.l) {
      var p := Filled(ctx, t);
      SameOrderRight(p);
      SameOrder(ctx.up, p, RotatedRight(p));
      assert Order(Filled(NearRight(ctx).up, Filled(NearRight(ctx), t))) == Order(RotatedRight(p));
      SameOrder(ctx.up, RotatedRight(p), Filled(NearRight(ctx).up, Filled(NearRight(ctx), t)));
    }
  }

  lemma {:induction false} RedSiblingRightIn(ctx: Ctx, t: Tree, rootPtr: Node, nill: Node, m: map<Node, Links>)
    requires ZippedIn(ctx, t, rootPtr, nill, m) && m.Keys == Footprint(ctx, t, rootPtr)
    requires ctx.InRight? && ctx.l.Tree?
    ensures ctx.n in m && ctx.l.n in m && ctx.n != ctx.l.n && rootPtr in m && rootPtr !in {ctx.n, ctx.l.n}
    ensures var m2 := Paint(Paint(m, ctx.l.n, Black), ctx.n, Red);
      && m2[ctx.n].left == ctx.l.n
      && CanRotate(m2, nill, ctx.n, m2[ctx.n].left, m2[m2[ctx.n].left].right)
      && ZippedIn(NearRight(ctx), t, rootPtr, nill, RightRotated(m2, nill, ctx.n))
      && RightRotated(m2, nill, ctx.n)[rootPtr].color == m[rootPtr].color
    ensures Footprint(NearRight(ctx), t, rootPtr) == Footprint(ctx, t, rootPtr)
  {
    var p := Filled(ctx, t);
    Look(ctx, t, rootPtr, nill, m);
    Up(ctx, t, rootPtr, nill, m);
    PaintLeftIn(ctx.up, p, Black, rootPtr, nill, m);
    var m1, p1 := Paint(m, ctx.l.n, Black), p.(l := p.l.(c := Black));
    PaintIn(ctx.up, p1, Red, rootPtr, nill, m1);
    var m2, p2 := Paint(m1, ctx.n, Red), p1.(c := Red);
    CanRotateRight(ctx.up, p2, rootPtr, nill, m2);
    RotateRightIn(ctx.up, p2, rootPtr, nill, m2);
    SameOrderRight(p2);
    var q, m3 := RotatedRight(p2), RightRotated(m2, nill, ctx.n);
    Down(ctx.up, q, rootPtr, nill, m3);
    Down(RightOf(ctx.up, q), q.r, rootPtr, nill, m3);
  }

  lemma {:induction false} BlackNephewsRight(ctx: Ctx, t: Tree)
    requires Short(ctx, t) && !IsRed(t) && ctx.InRight? && ctx.l.Tree? && ctx.l.c.Black? && !IsRed(ctx.l.r) && !IsRed(ctx.l.l)
    ensures Short(ctx.up, Reddened(ctx, t)) && Order(Plug(ctx.up, Reddened(ctx, t))) == Order(Plug(ctx, t))
  {
    var w := ctx.l.(c := Red);
    assert Balanced(w) && NoRedRed(w) && BlackHeight(ctx.l) == BlackHeight(w) + 1 == BlackHeight(t) + 1;
    assert NoRedRed(t) && Balanced(Reddened(ctx, t));
    assert Order(Reddened(ctx, t)) == Order(Filled(ctx, t)) by { assert Order(ctx.l.(c := Red)) == Order(ctx.l); }
    SameOrder(ctx.up, Filled(ctx, t), Reddened(ctx, t));
  }

  lemma {:induction false} BlackNephewsRightIn(ctx: Ctx, t: Tree, rootPtr: Node, nill: Node, m: map<Node, Links>)
    requires ZippedIn(ctx, t, rootPtr, nill, m) && ctx.InRight? && ctx.l.Tree?
    ensures ctx.l.n in m && ctx.l.n != rootPtr
    ensures ZippedIn(ctx.up, Reddened(ctx, t), rootPtr, nill, Paint(m, ctx.l.n, Red))
    ensures Footprint(ctx.up, Reddened(ctx, t), rootPtr) == Footprint(ctx, t, rootPtr)
  {
    Up(ctx, t, rootPtr, nill, m);
    PaintLeftIn(ctx.up, Filled(ctx, t), Red, rootPtr, nill, m);
  }

  ghost function LeanedRight(w: Tree): Tree
    requires w.Tree? && w.r.Tree?
  {
    RotatedLeft(w.(c := Red, r := w.r.(c := Black)))
  }

  lemma {:induction false} NearNephewRight(ctx: Ctx, t: Tree)
    requires Short(ctx, t) && !IsRed(t) && ctx.InRight? && ctx.l.Tree? && ctx.l.c.Black? && IsRed(ctx.l.r) && !IsRed(ctx.l.l)
    ensures var w := LeanedRight(ctx.l);
      && Short(ctx.(l := w), t) && w.c.Black? && IsRed(w.l)
      && Order(Plug(ctx.(l := w), t)) == Order(Plug(ctx, t))
  {
    var w := ctx.l.(c := Red, r := ctx.l.r.(c := Black));
    var near, v := ctx.l.r, LeanedRight(ctx.l);
    assert Balanced(near) && NoRedRed(near) && BlackHeight(near) == BlackHeight(t);
    assert Balanced(v.l) && NoRedRed(v.l) && BlackHeight(v.l) == BlackHeight(t);
    assert Balanced(v) && NoRedRed(v) && BlackHeight(v) == BlackHeight(t) + 1;
    SameOrderLeft(w);
    assert Order(w) == Order(ctx.l) by { assert Order(w.r) == Order(ctx.l.r); }
    SameOrder(ctx.up, Filled(ctx, t), Filled(ctx.(l := LeanedRight(ctx.l)), t));
  }

  lemma {:induction false} NearNephewRightIn(ctx: Ctx, t: Tree, rootPtr: Node, nill: Node, m: map<Node, Links>)
    requires ZippedIn(ctx, t, rootPtr, nill, m) && m.Keys == Footprint(ctx, t, rootPtr)
    requires ctx.InRight? && ctx.l.Tree? && ctx.l.r.Tree?
    ensures ctx.l.n in m && ctx.l.r.n in m && ctx.l.n != ctx.l.r.n && rootPtr in m && rootPtr !in {ctx.l.n, ctx.l.r.n}
    ensures var m2 := Paint(Paint(m, ctx.l.r.n, Black), ctx.l.n, Red);
      && m2[ctx.l.n].right == ctx.l.r.n
      && CanRotate(m2, nill, ctx.l.n, m2[ctx.l.n].right, m2[m2[ctx.l.n].right].left)
      && ZippedIn(ctx.(l := LeanedRight(ctx.l)), t, rootPtr, nill, LeftRotated(m2, nill, ctx.l.n))
      && LeftRotated(m2, nill, ctx.l.n)[rootPtr].color == m[rootPtr].color
    ensures Footprint(ctx.(l := LeanedRight(ctx.l)), t, rootPtr) == Footprint(ctx, t, rootPtr)
  {
    var p, w := Filled(ctx, t), ctx.l;
    Look(ctx, t, rootPtr, nill, m);
    Up(ctx, t, rootPtr, nill, m);
    Down(ctx.up, p, rootPtr, nill, m);
    var wc := LeftOf(ctx.up, p);
    Look(wc, w, rootPtr, nill, m);
    PaintRightIn(wc, w, Black, rootPtr, nill, m);
    var m1, w1 := Paint(m, w.r.n, Black), w.(r := w.r.(c := Black));
    PaintIn(wc, w1, Red, rootPtr, nill, m1);
    var m2, w2 := Paint(m1, w.n, Red), w1.(c := Red);
    CanRotateLeft(wc, w2, rootPtr, nill, m2);
    RotateLeftIn(wc, w2, rootPtr, nill, m2);
    SameOrderLeft(w2);
    var m3 := LeftRotated(m2, nill, w.n);
    Up(wc, RotatedLeft(w2), rootPtr, nill, m3);
    Down(ctx.up, Filled(wc, RotatedLeft(w2)), rootPtr, nill, m3);
  }

  ghost function FarRight(ctx: Ctx, t: Tree): Tree
    requires ctx.InRight? && ctx.l.Tree? && ctx.l.l.Tree?
  {
    Tree(ctx.c, ctx.l.l.(c := Black), ctx.l.n, Tree(Black, ctx.l.r, ctx.n, t))
  }

  lemma {:induction false} FarNephewRight(ctx: Ctx, t: Tree)
    requires Short(ctx, t) && !IsRed(t) && ctx.InRight? && ctx.l.Tree? && ctx.l.c.Black? && IsRed(ctx.l.l)
    ensures Mended(ctx.up, FarRight(ctx, t))
    ensures Order(Plug(ctx.up, FarRight(ctx, t))) == Order(Plug(ctx, t))
  {
    var p := Filled(ctx, t);
    var w := ctx.l.l.(c := Black);
    assert Balanced(ctx.l.l) && NoRedRed(ctx.l.l);
    assert NoRedRed(t) && NoRedRed(ctx.l.r) && Balanced(ctx.l.r) && NoRedRed(w) && Balanced(w);
    assert BlackHeight(w) == BlackHeight(t) + 1 && BlackHeight(ctx.l.r) == BlackHeight(t);
    var f := FarRight(ctx, t);
    assert !IsRed(f.r) && !IsRed(f.l) && NoRedRed(f.r) && NoRedRed(f.l);
    assert Balanced(f.r) && Balanced(f.l) && BlackHeight(f.r) == BlackHeight(f.l);
    assert Balanced(f) && NoRedRed(f);
    SameOrderRight(p);
    assert Order(FarRight(ctx, t)) == Order(RotatedRight(p)) by { assert Order(ctx.l.l.(c := Black)) == Order(ctx.l.l); }
    SameOrder(ctx.up, p, FarRight(ctx, t));
  }

  lemma {:induction false} FarNephewRightIn(ctx: Ctx, t: Tree, rootPtr: Node, nill: Node, m: map<Node, Links>)
    requires ZippedIn(ctx, t, rootPtr, nill, m) && m.Keys == Footprint(ctx, t, rootPtr)
    requires ctx.InRight? && ctx.l.Tree? && ctx.l.l.Tree?
    ensures ctx.n in m && ctx.l.n in m && ctx.l.l.n in m && rootPtr in m && rootPtr !in {ctx.n, ctx.l.n, ctx.l.l.n}
    ensures ctx.n !in {ctx.l.n, ctx.l.l.n} && ctx.l.n != ctx.l.l.n
    ensures var m3 := Paint(Paint(Paint(m, ctx.l.n, ctx.c), ctx.n, Black), ctx.l.l.n, Black);
      && m3[ctx.n].left == ctx.l.n
      && CanRotate(m3, nill, ctx.n, m3[ctx.n].left, m3[m3[ctx.n].left].right)
      && ZippedIn(ctx.up, FarRight(ctx, t), rootPtr, nill, RightRotated(m3, nill, ctx.n))
      && RightRotated(m3, nill, ctx.n)[rootPtr].color == m[rootPtr].color
      && RightRotated(m3, nill, ctx.n)[ctx.n].color == Black
    ensures Footprint(ctx.up, FarRight(ctx, t), rootPtr) == Footprint(ctx, t, rootPtr)
  {
    var p, up := Filled(ctx, t), ctx.up;
    Look(ctx, t, rootPtr, nill, m);
    Up(ctx, t, rootPtr, nill, m);
    PaintLeftIn(up, p, ctx.c, rootPtr, nill, m);
    var m1, p1 := Paint(m, ctx.l.n, ctx.c), p.(l := p.l.(c := ctx.c));
    PaintIn(up, p1, Black, rootPtr, nill, m1);
    var m2, p2 := Paint(m1, ctx.n, Black), p1.(c := Black);
    Down(up, p2, rootPtr, nill, m2);
    PaintLeftIn(LeftOf(up, p2), p2.l, Black, rootPtr, nill, m2);
    var m3, w3 := Paint(m2, ctx.l.l.n, Black), p2.l.(l := p2.l.l.(c := Black));
    Up(LeftOf(up, p2), w3, rootPtr, nill, m3);
    var p3 := p2.(l := w3);
    assert Nodes(w3) == Nodes(p2.l) && Nodes(p3) == Nodes(p);
    CanRotateRight(up, p3, rootPtr, nill, m3);
    RotateRightIn(up, p3, rootPtr, nill, m3);
    SameOrderRight(p3);
  }

  // ----- the fix-up in the heap -----

  /** The node x, nill or not, is the root of the short subtree in focus. */
  ghost predicate AtShort(x: Node, ctx: Ctx, t: Tree, rootPtr: Node, nill: Node, s: set<Node>)
    reads x`parent, s`color, s`parent, s`left, s`right
  {
    && s == Footprint(ctx, t, rootPtr) && ZippedIn(ctx, t, rootPtr, nill, Snap(s)) && Short(ctx, t)
    && x == Root(t, nill) && x.parent == Parent(ctx, rootPtr) && rootPtr.color.Black?
  }

  ghost predicate AtMended(ctx: Ctx, t: Tree, rootPtr: Node, nill: Node, s: set<Node>)
    reads s`color, s`parent, s`left, s`right
  {
    && s == Footprint(ctx, t, rootPtr) && ZippedIn(ctx, t, rootPtr, nill, Snap(s)) && Mended(ctx, t)
    && rootPtr.color.Black?
  }

  ghost function TopNode(ctx: Ctx): Node
    requires ctx != Top
  {
    if ctx.up == Top then ctx.n else TopNode(ctx.up)
  }

  lemma {:induction false} PlugTop(ctx: Ctx, t: Tree)
    requires ctx != Top
    ensures Plug(ctx, t).Tree? && Plug(ctx, t).n == TopNode(ctx)
  {
    if ctx.up != Top { PlugTop(ctx.up, Filled(ctx, t)); }
  }

  lemma {:induction false} TopNodeBlack(ctx: Ctx, h: Node, rootPtr: Node, nill: Node, m: map<Node, Links>)
    requires ctx != Top && RootBlack(ctx) && CtxLinked(ctx, h, rootPtr, nill, m)
    ensures TopNode(ctx) in m && m[TopNode(ctx)].color == Black
  {
    if ctx.up != Top { TopNodeBlack(ctx.up, ctx.n, rootPtr, nill, m); }
  }

  /** Where the root that was read before the loop can be once a rotation moved it:
      still on top, or just above the focus. */
  ghost predicate Stale(root: Node, ctx: Ctx) {
    ctx != Top && (root == ctx.n || (ctx.up != Top && root == TopNode(ctx.up)))
  }

  lemma {:induction false} FocusParent(ctx: Ctx, t: Tree, rootPtr: Node, nill: Node, s: set<Node>)
    requires s == Footprint(ctx, t, rootPtr) && ZippedIn(ctx, t, rootPtr, nill, Snap(s))
    requires nill.parent == Parent(ctx, rootPtr) || t.Tree?
    ensures Root(t, nill).parent == Parent(ctx, rootPtr) && rootPtr in s
  {
    Look(ctx, t, rootPtr, nill, Snap(s));
  }

  lemma {:induction false} RootKept(root: Node, ctx: Ctx, t: Tree, nill: Node)
    requires ctx != Top && root == Root(Plug(ctx, t), nill)
    ensures Stale(root, ctx)
    ensures forall t': Tree :: t'.Tree? && t'.n == ctx.n ==> Root(Plug(ctx.up, t'), nill) == root
  {
    PlugTop(ctx, t);
    forall t': Tree | t'.Tree? && t'.n == ctx.n ensures Root(Plug(ctx.up, t'), nill) == root {
      if ctx.up != Top { PlugTop(ctx.up, t'); }
    }
  }

  lemma {:induction false} StaleBlack(root: Node, ctx: Ctx, t: Tree, rootPtr: Node, nill: Node, s: set<Node>)
    requires s == Footprint(ctx, t, rootPtr) && ZippedIn(ctx, t, rootPtr, nill, Snap(s)) && Mended(ctx, t)
    requires (root in s && root.color.Black?) || (ctx != Top && root == TopNode(ctx))
    ensures root in s && root.color.Black?
  {
    if ctx != Top {
      TopNodeBlack(ctx, Root(t, nill), rootPtr, nill, Snap(s));
    }
  }

  lemma {:induction false} ViewLeft(x: Node, ctx: Ctx, t: Tree, rootPtr: Node, nill: Node, s: set<Node>)
    requires AtShort(x, ctx, t, rootPtr, nill, s) && !IsRed(t) && ctx.InLeft? && nill.color.Black?
    ensures ctx.r.Tree? && nill !in s && rootPtr in s
    ensures x.parent in s && x.parent == ctx.n && x.parent.left == x != x.parent.right == ctx.r.n && ctx.r.n in s
    ensures x.parent.color == ctx.c && ctx.r.n.color == ctx.r.c
    ensures ctx.r.n.left == Root(ctx.r.l, nill) && ctx.r.n.right == Root(ctx.r.r, nill)
    ensures Root(ctx.r.l, nill).color.Red? <==> IsRed(ctx.r.l)
    ensures Root(ctx.r.r, nill).color.Red? <==> IsRed(ctx.r.r)
    ensures ctx.r.l.Tree? ==> ctx.r.l.n in s
    ensures ctx.r.r.Tree? ==> ctx.r.r.n in s
  {
    var m := Snap(s);
    RedSiblingLeft(ctx, t);
    Look(ctx, t, rootPtr, nill, m);
    Sibling(ctx, t, rootPtr, nill, m);
    assert Linked(ctx.r, ctx.n, nill, m);
    assert Linked(ctx.r.l, ctx.r.n, nill, m) && Linked(ctx.r.r, ctx.r.n, nill, m);
  }

  method RedSiblingLeftStep(x: Node, w: Node, rootPtr: Node, nill: Node, ghost ctx: Ctx, ghost t: Tree, ghost s: set<Node>)
    returns (w': Node)
    requires AtShort(x, ctx, t, rootPtr, nill, s) && !IsRed(t) && ctx.InLeft? && nill.color.Black?
    requires ctx.r.Tree? && w == ctx.r.n && IsRed(ctx.r)
    modifies s`color, s`left, s`right, s`parent
    ensures AtShort(x, NearLeft(ctx), t, rootPtr, nill, s)
    ensures NearLeft(ctx).r.Tree? && w' == NearLeft(ctx).r.n
    ensures nill.color.Black?
  {
    hide ZippedIn, Short, Footprint, LeftRotated, CanRotate, RootBlack, Plug, Order;
    ghost var m := Snap(s);
    ViewLeft(x, ctx, t, rootPtr, nill, s);
    RedSiblingLeft(ctx, t);
    RedSiblingLeftIn(ctx, t, rootPtr, nill, m);
    w.color := Black;
    x.parent.color := Red;
    assert Snap(s) == Paint(Paint(m, ctx.r.n, Black), ctx.n, Red);
    LeftRotate(nill, x.parent, s);
    assert Snap(s)[rootPtr].color == m[rootPtr].color;
    FocusParent(NearLeft(ctx), t, rootPtr, nill, s);
    ViewLeft(x, NearLeft(ctx), t, rootPtr, nill, s);
    w' := x.parent.right;
  }

  method BlackNephewsLeftStep(x: Node, w: Node, rootPtr: Node, nill: Node, ghost ctx: Ctx, ghost t: Tree, ghost s: set<Node>)
    returns (x': Node)
    requires AtShort(x, ctx, t, rootPtr, nill, s) && !IsRed(t) && ctx.InLeft? && nill.color.Black?
    requires ctx.r.Tree? && w == ctx.r.n && ctx.r.c.Black? && !IsRed(ctx.r.l) && !IsRed(ctx.r.r)
    modifies s`color
    ensures AtShort(x', ctx.up, Reddened(ctx, t), rootPtr, nill, s)
    ensures nill.color.Black? && x' in s
  {
    hide ZippedIn, Short, Footprint, RootBlack, Plug, Order;
    ghost var m := Snap(s);
    ViewLeft(x, ctx, t, rootPtr, nill, s);
    BlackNephewsLeft(ctx, t);
    BlackNephewsLeftIn(ctx, t, rootPtr, nill, m);
    w.color := Red;
    assert Snap(s) == Paint(m, ctx.r.n, Red);
    assert Snap(s)[rootPtr].color == m[rootPtr].color;
    x' := x.parent;
    FocusParent(ctx.up, Reddened(ctx, t), rootPtr, nill, s);
  }

  method NearNephewLeftStep(x: Node, w: Node, rootPtr: Node, nill: Node, ghost ctx: Ctx, ghost t: Tree, ghost s: set<Node>)
    returns (w': Node)
    requires AtShort(x, ctx, t, rootPtr, nill, s) && !IsRed(t) && ctx.InLeft? && nill.color.Black?
    requires ctx.r.Tree? && w == ctx.r.n && ctx.r.c.Black? && IsRed(ctx.r.l) && !IsRed(ctx.r.r)
    modifies s`color, s`left, s`right, s`parent
    ensures AtShort(x, ctx.(r := LeanedLeft(ctx.r)), t, rootPtr, nill, s)
    ensures w' == LeanedLeft(ctx.r).n && IsRed(LeanedLeft(ctx.r).r) && LeanedLeft(ctx.r).c.Black?
    ensures nill.color.Black?
  {
    hide ZippedIn, Short, Footprint, RightRotated, CanRotate, RootBlack, Plug, Order;
    ghost var m := Snap(s);
    ViewLeft(x, ctx, t, rootPtr, nill, s);
    NearNephewLeft(ctx, t);
    NearNephewLeftIn(ctx, t, rootPtr, nill, m);
    w.left.color := Black;
    w.color := Red;
    assert Snap(s) == Paint(Paint(m, ctx.r.l.n, Black), ctx.r.n, Red);
    RightRotate(nill, w, s);
    assert Snap(s)[rootPtr].color == m[rootPtr].color;
    FocusParent(ctx.(r := LeanedLeft(ctx.r)), t, rootPtr, nill, s);
    ViewLeft(x, ctx.(r := LeanedLeft(ctx.r)), t, rootPtr, nill, s);
    w' := x.parent.right;
  }

  /** The sibling takes the parent's colour; the parent and the far nephew become black. */
  method FarColorsLeft(x: Node, w: Node, ghost s: set<Node>)
    requires x.parent in s && w in s && w.right in s
    requires x.parent != w && x.parent != w.right && w != w.right
    modifies s`color
    ensures Snap(s) == Paint(Paint(Paint(old(Snap(s)), w, old(x.parent.color)), x.parent, Black), w.right, Black)
  {
    w.color := x.parent.color;
    x.parent.color := Black;
    w.right.color := Black;
  }

  method FarNephewLeftStep(x: Node, w: Node, root: Node, rootPtr: Node, nill: Node, ghost ctx: Ctx, ghost t: Tree, ghost s: set<Node>)
    requires AtShort(x, ctx, t, rootPtr, nill, s) && !IsRed(t) && ctx.InLeft? && nill.color.Black?
    requires ctx.r.Tree? && w == ctx.r.n && ctx.r.c.Black? && IsRed(ctx.r.r) && Stale(root, ctx)
    modifies s`color, s`left, s`right, s`parent
    ensures AtMended(ctx.up, FarLeft(ctx, t), rootPtr, nill, s)
    ensures nill.color.Black? && root in s && root.color.Black?
  {
    hide ZippedIn, Short, Mended, Footprint, LeftRotated, CanRotate, RootBlack, Plug, Order, TopNode, FarLeft;
    ghost var m := Snap(s);
    ViewLeft(x, ctx, t, rootPtr, nill, s);
    FarNephewLeft(ctx, t);
    FarNephewLeftIn(ctx, t, rootPtr, nill, m);
    FarColorsLeft(x, w, s);
    LeftRotate(nill, x.parent, s);
    assert Snap(s)[rootPtr].color == m[rootPtr].color;
    assert Snap(s)[ctx.n].color == Black;
    StaleBlack(root, ctx.up, FarLeft(ctx, t), rootPtr, nill, s);
  }

  /** One round of the loop when x is the left one. */
  method FixLeft(x: Node, root: Node, rootPtr: Node, nill: Node, ghost ctx: Ctx, ghost t: Tree, ghost s: set<Node>)
    returns (x': Node, ghost done: bool, ghost ctx': Ctx, ghost t': Tree)
    requires AtShort(x, ctx, t, rootPtr, nill, s) && !IsRed(t) && ctx.InLeft? && nill.color.Black?
    requires root == Root(Plug(ctx, t), nill)
    modifies s`color, s`left, s`right, s`parent
    ensures nill.color.Black? && x' in s
    ensures Order(Plug(ctx', t')) == Order(Plug(ctx, t))
    ensures !done ==> AtShort(x', ctx', t', rootPtr, nill, s)
    ensures !done ==> IsRed(t') || (root == Root(Plug(ctx', t'), nill) && Depth(ctx') < Depth(ctx))
    ensures done ==> AtMended(ctx', t', rootPtr, nill, s) && x' == root && root in s && root.color.Black?
  {
    hide ZippedIn, Short, Mended, Footprint, RootBlack, Plug, Order, FarLeft, Snap;
    RootKept(root, ctx, t, nill);
    ctx', t', done := ctx, t, false;
    ViewLeft(x, ctx, t, rootPtr, nill, s);
    RedSiblingLeft(ctx, t);
    var w := x.parent.right;
    if w.color == Red {
      w := RedSiblingLeftStep(x, w, rootPtr, nill, ctx, t, s);
      ctx' := NearLeft(ctx);
      ViewLeft(x, ctx', t, rootPtr, nill, s);
    }
    if w.left.color == Black && w.right.color == Black {
      BlackNephewsLeft(ctx', t);
      x' := BlackNephewsLeftStep(x, w, rootPtr, nill, ctx', t, s);
      t', ctx' := Reddened(ctx', t), ctx'.up;
    } else {
      if w.right.color == Black {
        NearNephewLeft(ctx', t);
        w := NearNephewLeftStep(x, w, rootPtr, nill, ctx', t, s);
        ctx' := ctx'.(r := LeanedLeft(ctx'.r));
      }
      FarNephewLeft(ctx', t);
      FarNephewLeftStep(x, w, root, rootPtr, nill, ctx', t, s);
      t', ctx', done := FarLeft(ctx', t), ctx'.up, true;
      x' := root;
    }
  }

  lemma {:induction false} ViewRight(x: Node, ctx: Ctx, t: Tree, rootPtr: Node, nill: Node, s: set<Node>)
    requires AtShort(x, ctx, t, rootPtr, nill, s) && !IsRed(t) && ctx.InRight? && nill.color.Black?
    ensures ctx.l.Tree? && nill !in s && rootPtr in s
    ensures x.parent in s && x.parent == ctx.n && x.parent.right == x != x.parent.left == ctx.l.n && ctx.l.n in s
    ensures x.parent.color == ctx.c && ctx.l.n.color == ctx.l.c
    ensures ctx.l.n.right == Root(ctx.l.r, nill) && ctx.l.n.left == Root(ctx.l.l, nill)
    ensures Root(ctx.l.r, nill).color.Red? <==> IsRed(ctx.l.r)
    ensures Root(ctx.l.l, nill).color.Red? <==> IsRed(ctx.l.l)
    ensures ctx.l.r.Tree? ==> ctx.l.r.n in s
    ensures ctx.l.l.Tree? ==> ctx.l.l.n in s
  {
    var m := Snap(s);
    RedSiblingRight(ctx, t);
    Look(ctx, t, rootPtr, nill, m);
    Sibling(ctx, t, rootPtr, nill, m);
    assert Linked(ctx.l, ctx.n, nill, m);
    assert Linked(ctx.l.r, ctx.l.n, nill, m) && Linked(ctx.l.l, ctx.l.n, nill, m);
  }

  method RedSiblingRightStep(x: Node, w: Node, rootPtr: Node, nill: Node, ghost ctx: Ctx, ghost t: Tree, ghost s: set<Node>)
    returns (w': Node)
    requires AtShort(x, ctx, t, rootPtr, nill, s) && !IsRed(t) && ctx.InRight? && nill.color.Black?
    requires ctx.l.Tree? && w == ctx.l.n && IsRed(ctx.l)
    modifies s`color, s`right, s`left, s`parent
    ensures AtShort(x, NearRight(ctx), t, rootPtr, nill, s)
    ensures NearRight(ctx).l.Tree? && w' == NearRight(ctx).l.n
    ensures nill.color.Black?
  {
    hide ZippedIn, Short, Footprint, RightRotated, CanRotate, RootBlack, Plug, Order;
    ghost var m := Snap(s);
    ViewRight(x, ctx, t, rootPtr, nill, s);
    RedSiblingRight(ctx, t);
    RedSiblingRightIn(ctx, t, rootPtr, nill, m);
    w.color := Black;
    x.parent.color := Red;
    assert Snap(s) == Paint(Paint(m, ctx.l.n, Black), ctx.n, Red);
    RightRotate(nill, x.parent, s);
    assert Snap(s)[rootPtr].color == m[rootPtr].color;
    FocusParent(NearRight(ctx), t, rootPtr, nill, s);
    ViewRight(x, NearRight(ctx), t, rootPtr, nill, s);
    w' := x.parent.left;
  }

  method BlackNephewsRightStep(x: Node, w: Node, rootPtr: Node, nill: Node, ghost ctx: Ctx, ghost t: Tree, ghost s: set<Node>)
    returns (x': Node)
    requires AtShort(x, ctx, t, rootPtr, nill, s) && !IsRed(t) && ctx.InRight? && nill.color.Black?
    requires ctx.l.Tree? && w == ctx.l.n && ctx.l.c.Black? && !IsRed(ctx.l.r) && !IsRed(ctx.l.l)
    modifies s`color
    ensures AtShort(x', ctx.up, Reddened(ctx, t), rootPtr, nill, s)
    ensures nill.color.Black? && x' in s
  {
    hide ZippedIn, Short, Footprint, RootBlack, Plug, Order;
    ghost var m := Snap(s);
    ViewRight(x, ctx, t, rootPtr, nill, s);
    BlackNephewsRight(ctx, t);
    BlackNephewsRightIn(ctx, t, rootPtr, nill, m);
    w.color := Red;
    assert Snap(s) == Paint(m, ctx.l.n, Red);
    assert Snap(s)[rootPtr].color == m[rootPtr].color;
    x' := x.parent;
    FocusParent(ctx.up, Reddened(ctx, t), rootPtr, nill, s);
  }

  method NearNephewRightStep(x: Node, w: Node, rootPtr: Node, nill: Node, ghost ctx: Ctx, ghost t: Tree, ghost s: set<Node>)
    returns (w': Node)
    requires AtShort(x, ctx, t, rootPtr, nill, s) && !IsRed(t) && ctx.InRight? && nill.color.Black?
    requires ctx.l.Tree? && w == ctx.l.n && ctx.l.c.Black? && IsRed(ctx.l.r) && !IsRed(ctx.l.l)
    modifies s`color, s`right, s`left, s`parent
    ensures AtShort(x, ctx.(l := LeanedRight(ctx.l)), t, rootPtr, nill, s)
    ensures w' == LeanedRight(ctx.l).n && IsRed(LeanedRight(ctx.l).l) && LeanedRight(ctx.l).c.Black?
    ensures nill.color.Black?
  {
    hide ZippedIn, Short, Footprint, LeftRotated, CanRotate, RootBlack, Plug, Order;
    ghost var m := Snap(s);
    ViewRight(x, ctx, t, rootPtr, nill, s);
    NearNephewRight(ctx, t);
    NearNephewRightIn(ctx, t, rootPtr, nill, m);
    w.right.color := Black;
    w.color := Red;
    assert Snap(s) == Paint(Paint(m, ctx.l.r.n, Black), ctx.l.n, Red);
    LeftRotate(nill, w, s);
    assert Snap(s)[rootPtr].color == m[rootPtr].color;
    FocusParent(ctx.(l := LeanedRight(ctx.l)), t, rootPtr, nill, s);
    ViewRight(x, ctx.(l := LeanedRight(ctx.l)), t, rootPtr, nill, s);
    w' := x.parent.left;
  }

  /** The sibling takes the parent's colour; the parent and the far nephew become black. */
  method FarColorsRight(x: Node, w: Node, ghost s: set<Node>)
    requires x.parent in s && w in s && w.left in s
    requires x.parent != w && x.parent != w.left && w != w.left
    modifies s`color
    ensures Snap(s) == Paint(Paint(Paint(old(Snap(s)), w, old(x.parent.color)), x.parent, Black), w.left, Black)
  {
    w.color := x.parent.color;
    x.parent.color := Black;
    w.left.color := Black;
  }

  method FarNephewRightStep(x: Node, w: Node, root: Node, rootPtr: Node, nill: Node, ghost ctx: Ctx, ghost t: Tree, ghost s: set<Node>)
    requires AtShort(x, ctx, t, rootPtr, nill, s) && !IsRed(t) && ctx.InRight? && nill.color.Black?
    requires ctx.l.Tree? && w == ctx.l.n && ctx.l.c.Black? && IsRed(ctx.l.l) && Stale(root, ctx)
    modifies s`color, s`right, s`left, s`parent
    ensures AtMended(ctx.up, FarRight(ctx, t), rootPtr, nill, s)
    ensures nill.color.Black? && root in s && root.color.Black?
  {
    hide ZippedIn, Short, Mended, Footprint, RightRotated, CanRotate, RootBlack, Plug, Order, TopNode, FarRight;
    ghost var m := Snap(s);
    ViewRight(x, ctx, t, rootPtr, nill, s);
    FarNephewRight(ctx, t);
    FarNephewRightIn(ctx, t, rootPtr, nill, m);
    FarColorsRight(x, w, s);
    RightRotate(nill, x.parent, s);
    assert Snap(s)[rootPtr].color == m[rootPtr].color;
    assert Snap(s)[ctx.n].color == Black;
    StaleBlack(root, ctx.up, FarRight(ctx, t), rootPtr, nill, s);
  }

  /** One round of the loop when x is the right one. */
  method FixRight(x: Node, root: Node, rootPtr: Node, nill: Node, ghost ctx: Ctx, ghost t: Tree, ghost s: set<Node>)
    returns (x': Node, ghost done: bool, ghost ctx': Ctx, ghost t': Tree)
    requires AtShort(x, ctx, t, rootPtr, nill, s) && !IsRed(t) && ctx.InRight? && nill.color.Black?
    requires root == Root(Plug(ctx, t), nill)
    modifies s`color, s`right, s`left, s`parent
    ensures nill.color.Black? && x' in s
    ensures Order(Plug(ctx', t')) == Order(Plug(ctx, t))
    ensures !done ==> AtShort(x', ctx', t', rootPtr, nill, s)
    ensures !done ==> IsRed(t') || (root == Root(Plug(ctx', t'), nill) && Depth(ctx') < Depth(ctx))
    ensures done ==> AtMended(ctx', t', rootPtr, nill, s) && x' == root && root in s && root.color.Black?
  {
    hide ZippedIn, Short, Mended, Footprint, RootBlack, Plug, Order, FarRight, Snap;
    RootKept(root, ctx, t, nill);
    ctx', t', done := ctx, t, false;
    ViewRight(x, ctx, t, rootPtr, nill, s);
    RedSiblingRight(ctx, t);
    var w := x.parent.left;
    if w.color == Red {
      w := RedSiblingRightStep(x, w, rootPtr, nill, ctx, t, s);
      ctx' := NearRight(ctx);
      ViewRight(x, ctx', t, rootPtr, nill, s);
    }
    if w.right.color == Black && w.left.color == Black {
      BlackNephewsRight(ctx', t);
      x' := BlackNephewsRightStep(x, w, rootPtr, nill, ctx', t, s);
      t', ctx' := Reddened(ctx', t), ctx'.up;
    } else {
      if w.left.color == Black {
        NearNephewRight(ctx', t);
        w := NearNephewRightStep(x, w, rootPtr, nill, ctx', t, s);
        ctx' := ctx'.(l := LeanedRight(ctx'.l));
      }
      FarNephewRight(ctx', t);
      FarNephewRightStep(x, w, root, rootPtr, nill, ctx', t, s);
      t', ctx', done := FarRight(ctx', t), ctx'.up, true;
      x' := root;
    }
  }

  lemma {:induction false} OnTop(x: Node, ctx: Ctx, t: Tree, rootPtr: Node, nill: Node)
    requires Separate(ctx, t, rootPtr, nill) && x == Root(t, nill) == Root(Plug(ctx, t), nill)
    ensures ctx == Top
  {
    if ctx != Top {
      PlugTop(ctx, t);
      TopNodeIn(ctx);
    }
  }

  lemma {:induction false} TopNodeIn(ctx: Ctx)
    requires ctx != Top
    ensures TopNode(ctx) in CtxNodes(ctx)
  {
    if ctx.up != Top { TopNodeIn(ctx.up); }
  }

  /** The whole tree, linked in the heap under the fake root. */
  ghost predicate AtTree(t: Tree, rootPtr: Node, nill: Node, s: set<Node>)
    reads s`color, s`parent, s`left, s`right
  {
    s == Footprint(Top, t, rootPtr) && ZippedIn(Top, t, rootPtr, nill, Snap(s)) && rootPtr.color.Black?
  }

  lemma {:induction false} Whole(ctx: Ctx, t: Tree, rootPtr: Node, nill: Node, s: set<Node>)
    requires AtMended(ctx, t, rootPtr, nill, s)
    ensures AtTree(Plug(ctx, t), rootPtr, nill, s) && RedBlack(Plug(ctx, t))
  {
    ZipUp(ctx, t, rootPtr, nill, Snap(s));
    MendedRedBlack(ctx, t);
  }

  /** The last assignment of the fix-up, when the loop has not mended the tree yet. */
  lemma {:induction false} PaintFocus(x: Node, root: Node, rootPtr: Node, nill: Node, ctx: Ctx, t: Tree, s: set<Node>)
    requires AtShort(x, ctx, t, rootPtr, nill, s)
    requires IsRed(t) || root == Root(Plug(ctx, t), nill)
    requires (x == root || x.color.Red?) && nill.color.Black?
    ensures var m := Snap(s);
      && (t.Tree? ==> t.n in m && t.n != rootPtr)
      && ZippedIn(ctx, Blackened(t), rootPtr, nill, if t.Tree? then Paint(m, t.n, Black) else m)
    ensures Mended(ctx, Blackened(t)) && s == Footprint(ctx, Blackened(t), rootPtr) && rootPtr in s && nill !in s
    ensures Order(Plug(ctx, Blackened(t))) == Order(Plug(ctx, t))
  {
    Look(ctx, t, rootPtr, nill, Snap(s));
    if !IsRed(t) { OnTop(x, ctx, t, rootPtr, nill); }
    PaintedMended(ctx, t);
    if t.Tree? { PaintIn(ctx, t, Black, rootPtr, nill, Snap(s)); }
  }

  /** Rebalances a tree that is one black node short at x. The root is read once,
      before the loop, and is not read again after the rotations. */
  method DeleteFixup(start: Node, rootPtr: Node, nill: Node, ghost ctx0: Ctx, ghost t0: Tree, ghost s: set<Node>)
    returns (ghost shape: Tree)
    requires AtShort(start, ctx0, t0, rootPtr, nill, s) && nill.color.Black?
    modifies nill`color, s`color, s`left, s`right, s`parent
    ensures AtTree(shape, rootPtr, nill, s) && nill.color.Black?
    ensures RedBlack(shape) && Order(shape) == Order(Plug(ctx0, t0))
  {
    hide Short, Mended, Order, Plug, RootBlack, Footprint, ZippedIn, Snap, AtShort, AtMended, AtTree;
    RootRead(start, ctx0, t0, rootPtr, nill, s);
    var root := rootPtr.left;
    var x := start;
    ghost var ctx, t, done := ctx0, t0, false;
    while x != root && x.color == Black
      invariant nill.color.Black? && (x in s || x == nill)
      invariant Order(Plug(ctx, t)) == Order(Plug(ctx0, t0))
      invariant !done ==> AtShort(x, ctx, t, rootPtr, nill, s) && (IsRed(t) || root == Root(Plug(ctx, t), nill))
      invariant done ==> AtMended(ctx, t, rootPtr, nill, s) && x == root && root in s && root.color.Black?
      decreases if done || IsRed(t) then 0 else 1 + Depth(ctx)
    {
      Between(x, root, ctx, t, rootPtr, nill, s);
      if x == x.parent.left {
        x, done, ctx, t := FixLeft(x, root, rootPtr, nill, ctx, t, s);
      } else {
        x, done, ctx, t := FixRight(x, root, rootPtr, nill, ctx, t, s);
      }
    }
    shape := BlackenLast(x, root, rootPtr, nill, done, ctx, t, s);
  }

  method BlackenLast(x: Node, root: Node, rootPtr: Node, nill: Node, ghost done: bool, ghost ctx: Ctx, ghost t: Tree, ghost s: set<Node>)
    returns (ghost shape: Tree)
    requires nill.color.Black? && (x == root || x.color.Red?)
    requires !done ==> AtShort(x, ctx, t, rootPtr, nill, s) && (IsRed(t) || root == Root(Plug(ctx, t), nill))
    requires done ==> AtMended(ctx, t, rootPtr, nill, s) && x in s && x.color.Black?
    modifies x`color
    ensures AtTree(shape, rootPtr, nill, s) && nill.color.Black?
    ensures RedBlack(shape) && Order(shape) == Order(Plug(ctx, t))
  {
    hide Short, Mended, Order, Plug, RootBlack, Footprint, ZippedIn, Distinct;
    ghost var m := Snap(s);
    if !done { PaintFocus(x, root, rootPtr, nill, ctx, t, s); }
    x.color := Black;
    assert Snap(s) == if !done && t.Tree? then Paint(m, t.n, Black) else m;
    assert rootPtr in s ==> Snap(s)[rootPtr].color == m[rootPtr].color;
    ghost var t' := if done then t else Blackened(t);
    Whole(ctx, t', rootPtr, nill, s);
    shape := Plug(ctx, t');
  }

  lemma {:induction false} RootRead(x: Node, ctx: Ctx, t: Tree, rootPtr: Node, nill: Node, s: set<Node>)
    requires AtShort(x, ctx, t, rootPtr, nill, s)
    ensures rootPtr in s && rootPtr.left == Root(Plug(ctx, t), nill)
    ensures x in s || x == nill
  {
    ZipUp(ctx, t, rootPtr, nill, Snap(s));
  }

  /** In the loop the focus is black and below the top, and its side is what the code finds. */
  lemma {:induction false} Between(x: Node, root: Node, ctx: Ctx, t: Tree, rootPtr: Node, nill: Node, s: set<Node>)
    requires AtShort(x, ctx, t, rootPtr, nill, s) && nill.color.Black?
    requires IsRed(t) || root == Root(Plug(ctx, t), nill)
    requires x != root && x.color == Black
    ensures !IsRed(t) && ctx != Top && x.parent in s && root == Root(Plug(ctx, t), nill)
    ensures x == x.parent.left <==> ctx.InLeft?
  {
    Look(ctx, t, rootPtr, nill, Snap(s));
    if ctx.InLeft? { ViewLeft(x, ctx, t, rootPtr, nill, s); }
    else if ctx.InRight? { ViewRight(x, ctx, t, rootPtr, nill, s); }
  }
}
