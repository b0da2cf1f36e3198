/** The climb that restores the colours after an insertion. */
module RbInsert {
  import opened RbShape
  import opened RbRotate

  /** The real root, when it is above the hole, is black. */
  ghost predicate RootBlack(ctx: Ctx) {
    ctx != Top ==> if ctx.up == Top then ctx.c.Black? else RootBlack(ctx.up)
  }

  /** The tree is red-black except that the red node in focus may have a red parent. */
  ghost predicate Climbing(ctx: Ctx, t: Tree) {
    && IsRed(t) && Balanced(t) && NoRedRed(t)
    && CtxBalanced(ctx, BlackHeight(t)) && CtxNoRedRed(ctx) && RootBlack(ctx)
  }

  lemma {:induction false} SameOrder(ctx: Ctx, t: Tree, t': Tree)
    requires Order(t) == Order(t')
    ensures Order(Plug(ctx, t)) == Order(Plug(ctx, t'))
  {
    PlugOrder(ctx, t);
    PlugOrder(ctx, t');
  }

  /** Parent and grandparent frames of a red node whose parent is red. */
  lemma {:induction false} Above(ctx: Ctx, t: Tree)
    requires Climbing(ctx, t) && ParentRed(ctx)
    ensures ctx != Top && ctx.up != Top && ctx.up.c.Black?
    ensures var g := Filled(ctx.up, Filled(ctx, t));
      Plug(ctx, t) == Plug(ctx.up.up, g)
  {
  }

  ghost function Recolored(g: Tree): Tree
    requires g.Tree? && g.l.Tree? && g.r.Tree?
  {
    Tree(Red, g.l.(c := Black), g.n, g.r.(c := Black))
  }

  lemma {:induction false} RecolorColors(ctx: Ctx, t: Tree)
    requires Climbing(ctx, t) && ParentRed(ctx)
    requires var u := Filled(ctx.up, Filled(ctx, t)); IsRed(u.l) && IsRed(u.r)
    ensures Climbing(ctx.up.up, Recolored(Filled(ctx.up, Filled(ctx, t))))
    ensures Order(Plug(ctx.up.up, Recolored(Filled(ctx.up, Filled(ctx, t))))) == Order(Plug(ctx, t))
  {
    var p, g := Filled(ctx, t), Filled(ctx.up, Filled(ctx, t));
    Above(ctx, t);
    assert Balanced(p) && CtxBalanced(ctx.up, BlackHeight(p)) && CtxNoRedRed(ctx.up) && RootBlack(ctx.up);
    assert Balanced(g) && CtxBalanced(ctx.up.up, BlackHeight(g)) && CtxNoRedRed(ctx.up.up) && RootBlack(ctx.up.up);
    assert NoRedRed(p.(c := Black)) && NoRedRed(g.l.(c := Black)) && NoRedRed(g.r.(c := Black));
    assert BlackHeight(Recolored(g)) == BlackHeight(g);
    assert Order(g.l) == Order(g.l.(c := Black)) && Order(g.r) == Order(g.r.(c := Black));
    SameOrder(ctx.up.up, g, Recolored(g));
  }

  /** Case 1 of the climb, both sides: parent and uncle black, grandparent red. */
  lemma {:induction false} RecolorIn(ctx: Ctx, t: Tree, rootPtr: Node, nill: Node, m: map<Node, Links>)
    requires ZippedIn(ctx, t, rootPtr, nill, m) && Climbing(ctx, t) && ParentRed(ctx)
    requires var g := Filled(ctx.up, Filled(ctx, t)); IsRed(g.l) && IsRed(g.r)
    ensures var g := Filled(ctx.up, Filled(ctx, t));
      && g.l.n in m && g.r.n in m && g.n in m
      && g.n !in {g.l.n, g.r.n} && g.l.n != g.r.n
      && ZippedIn(ctx.up.up, Recolored(g), rootPtr, nill, Paint(Paint(Paint(m, g.l.n, Black), g.r.n, Black), g.n, Red))
      && Footprint(ctx.up.up, Recolored(g), rootPtr) == Footprint(ctx, t, rootPtr)
  {
    var g := Filled(ctx.up, Filled(ctx, t));
    var up2 := ctx.up.up;
    Up(ctx, t, rootPtr, nill, m);
    Up(ctx.up, Filled(ctx, t), rootPtr, nill, m);
    PaintLeftIn(up2, g, Black, rootPtr, nill, m);
    var m1, g1 := Paint(m, g.l.n, Black), g.(l := g.l.(c := Black));
    PaintRightIn(up2, g1, Black, rootPtr, nill, m1);
    var m2, g2 := Paint(m1, g.r.n, Black), g1.(r := g.r.(c := Black));
    Sibling(LeftOf(up2, g), g.l, rootPtr, nill, m) by { Down(up2, g, rootPtr, nill, m); }
    Look(up2, g2, rootPtr, nill, m2);
    PaintIn(up2, g2, Red, rootPtr, nill, m2);
  }

  /** A black grandparent with a black right child, over two reds in a row on the left. */
  ghost predicate TwoRedsLeft(up: Ctx, q: Tree) {
    && up.InLeft? && up.c.Black? && !IsRed(up.r)
    && IsRed(q) && IsRed(q.l) && Balanced(q) && NoRedRed(q.l) && NoRedRed(q.r) && !IsRed(q.r)
    && CtxBalanced(up, BlackHeight(q)) && CtxNoRedRed(up) && RootBlack(up)
  }

  lemma {:induction false} BendLeft(ctx: Ctx, t: Tree)
    requires Climbing(ctx, t) && ParentRed(ctx) && ctx.up.InLeft? && !IsRed(ctx.up.r)
    ensures ctx.InLeft? ==> TwoRedsLeft(ctx.up, Filled(ctx, t))
    ensures ctx.InRight? ==> TwoRedsLeft(ctx.up, RotatedLeft(Filled(ctx, t)))
    ensures ctx.InRight? ==>
      Order(Plug(ctx.up, RotatedLeft(Filled(ctx, t)))) == Order(Plug(ctx, t)) && Nodes(RotatedLeft(Filled(ctx, t))) == Nodes(Filled(ctx, t))
  {
    Above(ctx, t);
    if ctx.InRight? {
      var p := Filled(ctx, t);
      SameOrderLeft(p);
      SameOrder(ctx.up, p, RotatedLeft(p));
      assert BlackHeight(p) == BlackHeight(RotatedLeft(p));
    }
  }

  ghost function LiftedLeft(up: Ctx, q: Tree): Tree
    requires up.InLeft? && q.Tree?
  {
    Tree(Black, q.l, q.n, Tree(Red, q.r, up.n, up.r))
  }

  /** Last case of the climb: parent black, grandparent red, grandparent rotated right. */
  lemma {:induction false} LiftLeftIn(up: Ctx, q: Tree, rootPtr: Node, nill: Node, m: map<Node, Links>)
    requires ZippedIn(up, q, rootPtr, nill, m) && up.InLeft? && q.Tree? && m.Keys == Footprint(up, q, rootPtr)
    ensures q.n in m && up.n in m && q.n != up.n
    ensures var m2 := Paint(Paint(m, q.n, Black), up.n, Red);
      && m2[up.n].left == q.n
      && CanRotate(m2, nill, up.n, m2[up.n].left, m2[m2[up.n].left].right)
      && ZippedIn(up.up, LiftedLeft(up, q), rootPtr, nill, RightRotated(m2, nill, up.n))
    ensures Footprint(up.up, LiftedLeft(up, q), rootPtr) == Footprint(up, q, rootPtr)
  {
    Look(up, q, rootPtr, nill, m);
    PaintIn(up, q, Black, rootPtr, nill, m);
    var m1, q1 := Paint(m, q.n, Black), q.(c := Black);
    Up(up, q1, rootPtr, nill, m1);
    var g := Filled(up, q1);
    Look(up.up, g, rootPtr, nill, m1);
    PaintIn(up.up, g, Red, rootPtr, nill, m1);
    var m2, g2 := Paint(m1, g.n, Red), g.(c := Red);
    assert m2.Keys == Footprint(up.up, g2, rootPtr);
    CanRotateRight(up.up, g2, rootPtr, nill, m2);
    RotateRightIn(up.up, g2, rootPtr, nill, m2);
    SameOrderRight(g2);
  }

  lemma {:induction false} LiftLeftColors(up: Ctx, q: Tree)
    requires TwoRedsLeft(up, q)
    ensures var r := LiftedLeft(up, q);
      && Climbing(LeftOf(up.up, r), r.l) && !ParentRed(LeftOf(up.up, r))
      && Order(Plug(up.up, r)) == Order(Plug(up, q))
  {
    var g := Filled(up, q);
    SameOrderRight(g);
    assert Order(LiftedLeft(up, q)) == Order(RotatedRight(g));
    SameOrder(up.up, g, LiftedLeft(up, q));
  }

  /** A black grandparent with a black left child, over two reds in a row on the right. */
  ghost predicate TwoRedsRight(up: Ctx, q: Tree) {
    && up.InRight? && up.c.Black? && !IsRed(up.l)
    && IsRed(q) && IsRed(q.r) && Balanced(q) && NoRedRed(q.r) && NoRedRed(q.l) && !IsRed(q.l)
    && CtxBalanced(up, BlackHeight(q)) && CtxNoRedRed(up) && RootBlack(up)
  }

  lemma {:induction false} BendRight(ctx: Ctx, t: Tree)
    requires Climbing(ctx, t) && ParentRed(ctx) && ctx.up.InRight? && !IsRed(ctx.up.l)
    ensures ctx.InRight? ==> TwoRedsRight(ctx.up, Filled(ctx, t))
    ensures ctx.InLeft? ==> TwoRedsRight(ctx.up, RotatedRight(Filled(ctx, t)))
    ensures ctx.InLeft? ==>
      Order(Plug(ctx.up, RotatedRight(Filled(ctx, t)))) == Order(Plug(ctx, t)) && Nodes(RotatedRight(Filled(ctx, t))) == Nodes(Filled(ctx, t))
  {
    Above(ctx, t);
    if ctx.InLeft? {
      var p := Filled(ctx, t);
      SameOrderRight(p);
      SameOrder(ctx.up, p, RotatedRight(p));
      assert BlackHeight(p) == BlackHeight(RotatedRight(p));
    }
  }

  ghost function LiftedRight(up: Ctx, q: Tree): Tree
    requires up.InRight? && q.Tree?
  {
    Tree(Black, Tree(Red, up.l, up.n, q.l), q.n, q.r)
  }

  /** Last case of the climb: parent black, grandparent red, grandparent rotated left. */
  lemma {:induction false} LiftRightIn(up: Ctx, q: Tree, rootPtr: Node, nill: Node, m: map<Node, Links>)
    requires ZippedIn(up, q, rootPtr, nill, m) && up.InRight? && q.Tree? && m.Keys == Footprint(up, q, rootPtr)
    ensures q.n in m && up.n in m && q.n != up.n
    ensures var m2 := Paint(Paint(m, q.n, Black), up.n, Red);
      && m2[up.n].right == q.n
      && CanRotate(m2, nill, up.n, m2[up.n].right, m2[m2[up.n].right].left)
      && ZippedIn(up.up, LiftedRight(up, q), rootPtr, nill, LeftRotated(m2, nill, up.n))
    ensures Footprint(up.up, LiftedRight(up, q), rootPtr) == Footprint(up, q, rootPtr)
  {
    Look(up, q, rootPtr, nill, m);
    PaintIn(up, q, Black, rootPtr, nill, m);
    var m1, q1 := Paint(m, q.n, Black), q.(c := Black);
    Up(up, q1, rootPtr, nill, m1);
    var g := Filled(up, q1);
    Look(up.up, g, rootPtr, nill, m1);
    PaintIn(up.up, g, Red, rootPtr, nill, m1);
    var m2, g2 := Paint(m1, g.n, Red), g.(c := Red);
    assert m2.Keys == Footprint(up.up, g2, rootPtr);
    CanRotateLeft(up.up, g2, rootPtr, nill, m2);
    RotateLeftIn(up.up, g2, rootPtr, nill, m2);
    SameOrderLeft(g2);
  }

  lemma {:induction false} LiftRightColors(up: Ctx, q: Tree)
    requires TwoRedsRight(up, q)
    ensures var r := LiftedRight(up, q);
      && Climbing(RightOf(up.up, r), r.r) && !ParentRed(RightOf(up.up, r))
      && Order(Plug(up.up, r)) == Order(Plug(up, q))
  {
    var g := Filled(up, q);
    SameOrderLeft(g);
    assert Order(LiftedRight(up, q)) == Order(RotatedLeft(g));
    SameOrder(up.up, g, LiftedRight(up, q));
  }

  /** What the code can read around a red node whose parent is red. */
  lemma {:induction false} Around(ctx: Ctx, t: Tree, rootPtr: Node, nill: Node, m: map<Node, Links>)
    requires ZippedIn(ctx, t, rootPtr, nill, m) && Climbing(ctx, t)
    requires m.Keys == Footprint(ctx, t, rootPtr) && m[rootPtr].color.Black?
    ensures t.n in m && m[t.n].parent == Parent(ctx, rootPtr) && Parent(ctx, rootPtr) in m
    ensures m[Parent(ctx, rootPtr)].color.Red? <==> ParentRed(ctx)
    ensures ParentRed(ctx) ==>
      && ctx != Top && ctx.up != Top && m[ctx.n].parent == ctx.up.n && ctx.up.n in m
      && (m[ctx.up.n].left == ctx.n <==> ctx.up.InLeft?)
      && (m[ctx.n].right == t.n <==> ctx.InRight?)
      && (m[ctx.n].left == t.n <==> ctx.InLeft?)
      && (ctx.up.InLeft? ==> m[ctx.up.n].right == Root(ctx.up.r, nill) && (ctx.up.r.Tree? ==> ctx.up.r.n in m && m[ctx.up.r.n].color == ctx.up.r.c))
      && (ctx.up.InRight? ==> m[ctx.up.n].left == Root(ctx.up.l, nill) && (ctx.up.l.Tree? ==> ctx.up.l.n in m && m[ctx.up.l.n].color == ctx.up.l.c))
  {
    Look(ctx, t, rootPtr, nill, m);
    if ParentRed(ctx) {
      Above(ctx, t);
      Sibling(ctx, t, rootPtr, nill, m);
      Up(ctx, t, rootPtr, nill, m);
      Look(ctx.up, Filled(ctx, t), rootPtr, nill, m);
      Sibling(ctx.up, Filled(ctx, t), rootPtr, nill, m);
    }
  }

  /** The red node in focus, linked in the heap over the node set s. */
  ghost predicate AtRed(node: Node, ctx: Ctx, t: Tree, rootPtr: Node, nill: Node, s: set<Node>)
    reads s`color, s`parent, s`left, s`right
  {
    && s == Footprint(ctx, t, rootPtr) && ZippedIn(ctx, t, rootPtr, nill, Snap(s))
    && Climbing(ctx, t) && t.n == node && rootPtr.color.Black?
  }

  /** Parent and uncle black, grandparent red; the climb goes on from the grandparent. */
  method Recolor(node: Node, y: Node, ghost s: set<Node>) returns (g: Node)
    requires node in s && node.parent in s && node.parent.parent in s && y in s
    requires node.parent.parent !in {node.parent, y} && node.parent != y
    modifies s`color
    ensures g == node.parent.parent
    ensures Snap(s) == Paint(Paint(Paint(old(Snap(s)), node.parent, Black), y, Black), g, Red)
  {
    node.parent.color := Black;
    y.color := Black;
    node.parent.parent.color := Red;
    g := node.parent.parent;
  }

  lemma {:induction false} PaintSwap(m: map<Node, Links>, a: Node, b: Node, c: Color)
    requires a in m && b in m && a != b
    ensures Paint(Paint(m, a, c), b, c) == Paint(Paint(m, b, c), a, c)
  {
  }

  lemma {:induction false} RecolorAt(node: Node, y: Node, ctx: Ctx, t: Tree, rootPtr: Node, nill: Node, s: set<Node>)
    requires AtRed(node, ctx, t, rootPtr, nill, s) && ParentRed(ctx)
    requires var g := Filled(ctx.up, Filled(ctx, t)); IsRed(g.l) && IsRed(g.r) && y == (if ctx.up.InLeft? then g.r.n else g.l.n)
    ensures node in s && node.parent in s && node.parent.parent in s && y in s && ctx != Top && ctx.up != Top
    ensures node.parent.parent !in {node.parent, y} && node.parent != y
    ensures rootPtr in s && rootPtr !in {node.parent, node.parent.parent, y}
    ensures var g := Filled(ctx.up, Filled(ctx, t));
      && node.parent.parent == g.n
      && s == Footprint(ctx.up.up, Recolored(g), rootPtr)
      && Climbing(ctx.up.up, Recolored(g)) && Order(Plug(ctx.up.up, Recolored(g))) == Order(Plug(ctx, t))
      && ZippedIn(ctx.up.up, Recolored(g), rootPtr, nill, Paint(Paint(Paint(Snap(s), node.parent, Black), y, Black), g.n, Red))
  {
    var m := Snap(s);
    Around(ctx, t, rootPtr, nill, m);
    RecolorIn(ctx, t, rootPtr, nill, m);
    RecolorColors(ctx, t);
    var g := Filled(ctx.up, Filled(ctx, t));
    PaintSwap(m, g.l.n, g.r.n, Black);
  }

  method RecolorStep(node: Node, y: Node, rootPtr: Node, nill: Node, ghost ctx: Ctx, ghost t: Tree, ghost s: set<Node>)
    returns (node': Node, ghost ctx': Ctx, ghost t': Tree)
    requires AtRed(node, ctx, t, rootPtr, nill, s) && ParentRed(ctx)
    requires var g := Filled(ctx.up, Filled(ctx, t)); IsRed(g.l) && IsRed(g.r) && y == (if ctx.up.InLeft? then g.r.n else g.l.n)
    modifies s`color
    ensures AtRed(node', ctx', t', rootPtr, nill, s) && ctx' == ctx.up.up
    ensures Order(Plug(ctx', t')) == Order(Plug(ctx, t))
  {
    hide ZippedIn, Climbing, Footprint;
    RecolorAt(node, y, ctx, t, rootPtr, nill, s);
    node' := Recolor(node, y, s);
    t', ctx' := Recolored(Filled(ctx.up, Filled(ctx, t))), ctx.up.up;
    assert Snap(s)[rootPtr].color == old(Snap(s))[rootPtr].color;
  }

  /** The node in focus is the left child of the red root of q, itself a left child. */
  ghost predicate AtTwoRedsLeft(node: Node, up: Ctx, q: Tree, rootPtr: Node, nill: Node, s: set<Node>)
    reads s`color, s`parent, s`left, s`right
  {
    && s == Footprint(up, q, rootPtr) && ZippedIn(up, q, rootPtr, nill, Snap(s))
    && TwoRedsLeft(up, q) && q.l.n == node && rootPtr.color.Black?
  }

  lemma {:induction false} BendLeftAt(node: Node, ctx: Ctx, t: Tree, rootPtr: Node, nill: Node, s: set<Node>)
    requires AtRed(node, ctx, t, rootPtr, nill, s) && ParentRed(ctx) && ctx.up.InLeft? && !IsRed(ctx.up.r)
    ensures node in s && node.parent in s && rootPtr in s
    ensures node == node.parent.right <==> ctx.InRight?
    ensures ctx.InRight? ==> Filled(ctx, t).r.Tree?
    ensures ctx.InLeft? ==> AtTwoRedsLeft(node, ctx.up, Filled(ctx, t), rootPtr, nill, s)
    ensures ctx.InRight? ==>
      var m, x := Snap(s), node.parent;
      && x.right in s && CanRotate(m, nill, x, x.right, x.right.left)
      && LeftRotated(m, nill, x)[rootPtr].color.Black?
      && ZippedIn(ctx.up, RotatedLeft(Filled(ctx, t)), rootPtr, nill, LeftRotated(m, nill, x))
      && Footprint(ctx.up, RotatedLeft(Filled(ctx, t)), rootPtr) == s
      && RotatedLeft(Filled(ctx, t)).l.n == x
  {
    var m := Snap(s);
    Around(ctx, t, rootPtr, nill, m);
    Above(ctx, t);
    Up(ctx, t, rootPtr, nill, m);
    BendLeft(ctx, t);
    if ctx.InRight? {
      CanRotateLeft(ctx.up, Filled(ctx, t), rootPtr, nill, m);
      RotateLeftIn(ctx.up, Filled(ctx, t), rootPtr, nill, m);
    }
  }

  method BendLeftStep(start: Node, rootPtr: Node, nill: Node, ghost ctx: Ctx, ghost t: Tree, ghost s: set<Node>)
    returns (node: Node, ghost q: Tree)
    requires AtRed(start, ctx, t, rootPtr, nill, s) && ParentRed(ctx) && ctx.up.InLeft? && !IsRed(ctx.up.r)
    modifies s`left, s`right, s`parent
    ensures AtTwoRedsLeft(node, ctx.up, q, rootPtr, nill, s)
    ensures Order(Plug(ctx.up, q)) == Order(Plug(ctx, t))
  {
    hide ZippedIn, Climbing, Footprint, TwoRedsLeft, LeftRotated;
    BendLeftAt(start, ctx, t, rootPtr, nill, s);
    BendLeft(ctx, t);
    node := start;
    q := Filled(ctx, t);
    if node == node.parent.right {
      node := node.parent;
      LeftRotate(nill, node, s);
      q := RotatedLeft(q);
      assert Snap(s)[rootPtr].color.Black?;
    }
  }

  lemma {:induction false} LiftLeftAt(node: Node, up: Ctx, q: Tree, rootPtr: Node, nill: Node, s: set<Node>)
    requires AtTwoRedsLeft(node, up, q, rootPtr, nill, s)
    ensures up.InLeft? && q.Tree?
    ensures node in s && node.parent in s && node.parent.parent in s && node.parent != node.parent.parent
    ensures rootPtr in s && rootPtr !in {node.parent, node.parent.parent} && node !in {node.parent, node.parent.parent}
    ensures var m := Paint(Paint(Snap(s), node.parent, Black), node.parent.parent, Red);
      var g, r := node.parent.parent, LiftedLeft(up, q);
      && m[g].left in s && CanRotate(m, nill, g, m[g].left, m[m[g].left].right)
      && ZippedIn(LeftOf(up.up, r), r.l, rootPtr, nill, RightRotated(m, nill, g))
      && RightRotated(m, nill, g)[rootPtr].color.Black?
      && s == Footprint(LeftOf(up.up, r), r.l, rootPtr)
      && r.l.n == node
  {
    var m, r := Snap(s), LiftedLeft(up, q);
    Look(up, q, rootPtr, nill, m);
    Down(up, q, rootPtr, nill, m);
    Look(LeftOf(up, q), q.l, rootPtr, nill, m);
    LiftLeftIn(up, q, rootPtr, nill, m);
    var m2 := Paint(Paint(m, q.n, Black), up.n, Red);
    Down(up.up, r, rootPtr, nill, RightRotated(m2, nill, up.n));
  }

  method LiftLeftStep(node: Node, rootPtr: Node, nill: Node, ghost up: Ctx, ghost q: Tree, ghost s: set<Node>)
    returns (ghost ctx: Ctx, ghost t: Tree)
    requires AtTwoRedsLeft(node, up, q, rootPtr, nill, s)
    modifies s`color, s`left, s`right, s`parent
    ensures AtRed(node, ctx, t, rootPtr, nill, s) && !ParentRed(ctx)
    ensures Order(Plug(ctx, t)) == Order(Plug(up, q))
  {
    hide ZippedIn, Climbing, Footprint, TwoRedsLeft, RightRotated, CanRotate;
    LiftLeftAt(node, up, q, rootPtr, nill, s);
    LiftLeftColors(up, q);
    ghost var m := Snap(s);
    node.parent.color := Black;
    node.parent.parent.color := Red;
    assert Snap(s) == Paint(Paint(m, node.parent, Black), node.parent.parent, Red);
    RightRotate(nill, node.parent.parent, s);
    ghost var r := LiftedLeft(up, q);
    ctx, t := LeftOf(up.up, r), r.l;
    assert Snap(s)[rootPtr].color.Black?;
  }

  /** The node in focus is the right child of the red root of q, itself a right child. */
  ghost predicate AtTwoRedsRight(node: Node, up: Ctx, q: Tree, rootPtr: Node, nill: Node, s: set<Node>)
    reads s`color, s`parent, s`left, s`right
  {
    && s == Footprint(up, q, rootPtr) && ZippedIn(up, q, rootPtr, nill, Snap(s))
    && TwoRedsRight(up, q) && q.r.n == node && rootPtr.color.Black?
  }

  lemma {:induction false} BendRightAt(node: Node, ctx: Ctx, t: Tree, rootPtr: Node, nill: Node, s: set<Node>)
    requires AtRed(node, ctx, t, rootPtr, nill, s) && ParentRed(ctx) && ctx.up.InRight? && !IsRed(ctx.up.l)
    ensures node in s && node.parent in s && rootPtr in s
    ensures node == node.parent.left <==> ctx.InLeft?
    ensures ctx.InLeft? ==> Filled(ctx, t).l.Tree?
    ensures ctx.InRight? ==> AtTwoRedsRight(node, ctx.up, Filled(ctx, t), rootPtr, nill, s)
    ensures ctx.InLeft? ==>
      var m, x := Snap(s), node.parent;
      && x.left in s && CanRotate(m, nill, x, x.left, x.left.right)
      && RightRotated(m, nill, x)[rootPtr].color.Black?
      && ZippedIn(ctx.up, RotatedRight(Filled(ctx, t)), rootPtr, nill, RightRotated(m, nill, x))
      && Footprint(ctx.up, RotatedRight(Filled(ctx, t)), rootPtr) == s
      && RotatedRight(Filled(ctx, t)).r.n == x
  {
    var m := Snap(s);
    Around(ctx, t, rootPtr, nill, m);
    Above(ctx, t);
    Up(ctx, t, rootPtr, nill, m);
    BendRight(ctx, t);
    if ctx.InLeft? {
      CanRotateRight(ctx.up, Filled(ctx, t), rootPtr, nill, m);
      RotateRightIn(ctx.up, Filled(ctx, t), rootPtr, nill, m);
    }
  }

  method BendRightStep(start: Node, rootPtr: Node, nill: Node, ghost ctx: Ctx, ghost t: Tree, ghost s: set<Node>)
    returns (node: Node, ghost q: Tree)
    requires AtRed(start, ctx, t, rootPtr, nill, s) && ParentRed(ctx) && ctx.up.InRight? && !IsRed(ctx.up.l)
    modifies s`left, s`right, s`parent
    ensures AtTwoRedsRight(node, ctx.up, q, rootPtr, nill, s)
    ensures Order(Plug(ctx.up, q)) == Order(Plug(ctx, t))
  {
    hide ZippedIn, Climbing, Footprint, TwoRedsRight, RightRotated;
    BendRightAt(start, ctx, t, rootPtr, nill, s);
    BendRight(ctx, t);
    node := start;
    q := Filled(ctx, t);
    if node == node.parent.left {
      node := node.parent;
      RightRotate(nill, node, s);
      q := RotatedRight(q);
      assert Snap(s)[rootPtr].color.Black?;
    }
  }

  lemma {:induction false} LiftRightAt(node: Node, up: Ctx, q: Tree, rootPtr: Node, nill: Node, s: set<Node>)
    requires AtTwoRedsRight(node, up, q, rootPtr, nill, s)
    ensures up.InRight? && q.Tree?
    ensures node in s && node.parent in s && node.parent.parent in s && node.parent != node.parent.parent
    ensures rootPtr in s && rootPtr !in {node.parent, node.parent.parent} && node !in {node.parent, node.parent.parent}
    ensures var m := Paint(Paint(Snap(s), node.parent, Black), node.parent.parent, Red);
      var g, r := node.parent.parent, LiftedRight(up, q);
      && m[g].right in s && CanRotate(m, nill, g, m[g].right, m[m[g].right].left)
      && ZippedIn(RightOf(up.up, r), r.r, rootPtr, nill, LeftRotated(m, nill, g))
      && LeftRotated(m, nill, g)[rootPtr].color.Black?
      && s == Footprint(RightOf(up.up, r), r.r, rootPtr)
      && r.r.n == node
  {
    var m, r := Snap(s), LiftedRight(up, q);
    Look(up, q, rootPtr, nill, m);
    Down(up, q, rootPtr, nill, m);
    Look(RightOf(up, q), q.r, rootPtr, nill, m);
    LiftRightIn(up, q, rootPtr, nill, m);
    var m2 := Paint(Paint(m, q.n, Black), up.n, Red);
    Down(up.up, r, rootPtr, nill, LeftRotated(m2, nill, up.n));
  }

  method LiftRightStep(node: Node, rootPtr: Node, nill: Node, ghost up: Ctx, ghost q: Tree, ghost s: set<Node>)
    returns (ghost ctx: Ctx, ghost t: Tree)
    requires AtTwoRedsRight(node, up, q, rootPtr, nill, s)
    modifies s`color, s`left, s`right, s`parent
    ensures AtRed(node, ctx, t, rootPtr, nill, s) && !ParentRed(ctx)
    ensures Order(Plug(ctx, t)) == Order(Plug(up, q))
  {
    hide ZippedIn, Climbing, Footprint, TwoRedsRight, LeftRotated, CanRotate;
    LiftRightAt(node, up, q, rootPtr, nill, s);
    LiftRightColors(up, q);
    ghost var m := Snap(s);
    node.parent.color := Black;
    node.parent.parent.color := Red;
    assert Snap(s) == Paint(Paint(m, node.parent, Black), node.parent.parent, Red);
    LeftRotate(nill, node.parent.parent, s);
    ghost var r := LiftedRight(up, q);
    ctx, t := RightOf(up.up, r), r.r;
    assert Snap(s)[rootPtr].color.Black?;
  }

  /** The loop of the insertion: afterwards the focus is a red node under a black one. */
  method Climb(start: Node, rootPtr: Node, nill: Node, ghost ctx0: Ctx, ghost t0: Tree, ghost s: set<Node>)
    returns (ghost ctx: Ctx, ghost t: Tree)
    requires AtRed(start, ctx0, t0, rootPtr, nill, s) && nill.color.Black?
    modifies s`color, s`left, s`right, s`parent
    ensures exists node :: AtRed(node, ctx, t, rootPtr, nill, s)
    ensures !ParentRed(ctx)
    ensures Order(Plug(ctx, t)) == Order(Plug(ctx0, t0))
  {
    hide ZippedIn, Climbing, Footprint, Order, Plug;
    var node := start;
    ctx, t := ctx0, t0;
    ClimbView(node, ctx, t, rootPtr, nill, s);
    while node.parent.color == Red
      invariant AtRed(node, ctx, t, rootPtr, nill, s) && nill.color.Black?
      invariant Order(Plug(ctx, t)) == Order(Plug(ctx0, t0))
      invariant node in s && node.parent != null && (node.parent.color == Red <==> ParentRed(ctx))
      decreases if ParentRed(ctx) then Depth(ctx) else 0
    {
      ClimbView(node, ctx, t, rootPtr, nill, s);
      if node.parent == node.parent.parent.left {
        var y := node.parent.parent.right;
        if y.color == Red {
          node, ctx, t := RecolorStep(node, y, rootPtr, nill, ctx, t, s);
        } else {
          ghost var q;
          ghost var up := ctx.up;
          node, q := BendLeftStep(node, rootPtr, nill, ctx, t, s);
          ctx, t := LiftLeftStep(node, rootPtr, nill, up, q, s);
        }
      } else {
        var y := node.parent.parent.left;
        if y.color == Red {
          node, ctx, t := RecolorStep(node, y, rootPtr, nill, ctx, t, s);
        } else {
          ghost var q;
          ghost var up := ctx.up;
          node, q := BendRightStep(node, rootPtr, nill, ctx, t, s);
          ctx, t := LiftRightStep(node, rootPtr, nill, up, q, s);
        }
      }
      ClimbView(node, ctx, t, rootPtr, nill, s);
    }
  }

  /** What the loop reads at the focus, in the heap. */
  lemma {:induction false} ClimbView(node: Node, ctx: Ctx, t: Tree, rootPtr: Node, nill: Node, s: set<Node>)
    requires AtRed(node, ctx, t, rootPtr, nill, s) && nill.color.Black?
    ensures nill !in s && node in s && node.parent in s && (node.parent.color == Red <==> ParentRed(ctx))
    ensures ParentRed(ctx) ==>
      && ctx != Top && ctx.up != Top && Depth(ctx) > Depth(ctx.up.up)
      && node.parent.parent in s
      && (if ctx.up.InLeft? then node.parent.parent.right != null else node.parent.parent.left != null)
      && (node.parent == node.parent.parent.left <==> ctx.up.InLeft?)
      && (ctx.up.InLeft? ==> (node.parent.parent.right.color.Red? <==> IsRed(ctx.up.r)))
      && (ctx.up.InLeft? && IsRed(ctx.up.r) ==> node.parent.parent.right == Filled(ctx.up, Filled(ctx, t)).r.n)
      && (ctx.up.InRight? ==> (node.parent.parent.left.color.Red? <==> IsRed(ctx.up.l)))
      && (ctx.up.InRight? && IsRed(ctx.up.l) ==> node.parent.parent.left == Filled(ctx.up, Filled(ctx, t)).l.n)
      && (IsRed(if ctx.up.InLeft? then ctx.up.r else ctx.up.l) ==>
            var g := Filled(ctx.up, Filled(ctx, t)); IsRed(g.l) && IsRed(g.r))
  {
    Around(ctx, t, rootPtr, nill, Snap(s));
  }
}
