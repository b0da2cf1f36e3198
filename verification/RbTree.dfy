/** The red-black tree: an ordered collection of entries, duplicates allowed. */
module RedBlackTree {
  import opened RbShape
  import opened RbRotate
  import opened RbInsert
  import opened RbDelete
  import opened RbEntries

  datatype Status = Success | OutOfResource | NotFound

  datatype Option<T> = None | Some(value: T)

  ghost function Keys(ns: set<Node>): map<Node, Entry>
    reads ns`key, ns`value
  {
    map n: Node | n in ns :: (n.key, n.value)
  }

  ghost function Pairs(ns: seq<Node>, kv: map<Node, Entry>): (r: seq<Entry>)
    requires forall n :: n in ns ==> n in kv
  {
    seq(|ns|, i requires 0 <= i < |ns| => kv[ns[i]])
  }

  ghost function Entries(t: Tree, kv: map<Node, Entry>): (r: seq<Entry>)
    requires Nodes(t) <= kv.Keys
    ensures |r| == |Order(t)|
  {
    OrderNodes(t);
    Pairs(Order(t), kv)
  }

  /** The subtree whose root a search from the root of t stops at, or Leaf. */
  ghost function Hit(t: Tree, kv: map<Node, Entry>, key: int, cmp: (int, int) -> int): Tree
    requires Nodes(t) <= kv.Keys
  {
    if t.Leaf? then t
    else
      var c := cmp(key, kv[t.n].0);
      if c == 0 then t else if c < 0 then Hit(t.l, kv, key, cmp) else Hit(t.r, kv, key, cmp)
  }

  /** How many nodes that search looks at. */
  ghost function Visits(t: Tree, kv: map<Node, Entry>, key: int, cmp: (int, int) -> int): nat
    requires Nodes(t) <= kv.Keys
  {
    if t.Leaf? then 0
    else
      var c := cmp(key, kv[t.n].0);
      if c == 0 then 1 else 1 + if c < 0 then Visits(t.l, kv, key, cmp) else Visits(t.r, kv, key, cmp)
  }

  lemma {:induction false} HitFound(t: Tree, kv: map<Node, Entry>, key: int, cmp: (int, int) -> int)
    requires Nodes(t) <= kv.Keys
    ensures var h := Hit(t, kv, key, cmp); h.Tree? ==> h.n in Nodes(t) && cmp(key, kv[h.n].0) == 0
  {
    if t.Tree? {
      HitFound(t.l, kv, key, cmp);
      HitFound(t.r, kv, key, cmp);
    }
  }

  lemma {:induction false} MonotonePart(cmp: (int, int) -> int, key: int, a: seq<Entry>, b: seq<Entry>, c: seq<Entry>)
    requires Monotone(cmp, key, a + b + c)
    ensures Monotone(cmp, key, b)
  {
    forall i, j | 0 <= i < j < |b|
      ensures (cmp(key, b[i].0) <= 0 ==> cmp(key, b[j].0) <= 0) && (cmp(key, b[i].0) < 0 ==> cmp(key, b[j].0) < 0)
    {
      var s := a + b + c;
      assert s[|a| + i] == b[i] && s[|a| + j] == b[j];
    }
  }

  /** The keys on either side of the root, as a search from key sees them. */
  lemma {:induction false} Sides(cmp: (int, int) -> int, key: int, a: seq<Entry>, e: Entry, b: seq<Entry>)
    requires Monotone(cmp, key, a + [e] + b)
    ensures Monotone(cmp, key, a) && Monotone(cmp, key, b)
    ensures cmp(key, e.0) < 0 ==> forall i :: 0 <= i < |b| ==> cmp(key, b[i].0) < 0
    ensures cmp(key, e.0) > 0 ==> forall i :: 0 <= i < |a| ==> cmp(key, a[i].0) > 0
  {
    var s := a + [e] + b;
    assert s == [] + a + ([e] + b) && s == (a + [e]) + b + [];
    MonotonePart(cmp, key, [], a, [e] + b);
    MonotonePart(cmp, key, a + [e], b, []);
    assert s[|a|] == e;
    assert forall i :: 0 <= i < |b| ==> s[|a| + 1 + i] == b[i];
    assert forall i :: 0 <= i < |a| ==> s[i] == a[i];
  }

  lemma {:induction false} EntriesSplit(t: Tree, kv: map<Node, Entry>)
    requires t.Tree? && Nodes(t) <= kv.Keys
    ensures Entries(t, kv) == Entries(t.l, kv) + [kv[t.n]] + Entries(t.r, kv)
  {
    var a, b := Order(t.l), Order(t.r);
    assert Order(t) == a + [t.n] + b;
  }

  lemma {:induction false} EntriesHas(t: Tree, kv: map<Node, Entry>, n: Node)
    requires Nodes(t) <= kv.Keys && n in Nodes(t)
    ensures kv[n] in Entries(t, kv)
  {
    EntriesSplit(t, kv);
    if n in Nodes(t.l) { EntriesHas(t.l, kv, n); }
    else if n in Nodes(t.r) { EntriesHas(t.r, kv, n); }
  }

  /** Searching misses only when no entry compares equal. */
  lemma {:induction false} HitMissed(t: Tree, kv: map<Node, Entry>, key: int, cmp: (int, int) -> int)
    requires Nodes(t) <= kv.Keys
    requires Monotone(cmp, key, Entries(t, kv)) && Hit(t, kv, key, cmp).Leaf?
    ensures forall e :: e in Entries(t, kv) ==> cmp(key, e.0) != 0
  {
    if t.Tree? {
      hide Monotone, Pairs;
      EntriesSplit(t, kv);
      Sides(cmp, key, Entries(t.l, kv), kv[t.n], Entries(t.r, kv));
      if cmp(key, kv[t.n].0) < 0 {
        HitMissed(t.l, kv, key, cmp);
      } else {
        HitMissed(t.r, kv, key, cmp);
      }
    }
  }

  // ----- depth -----

  ghost function Height(t: Tree): nat {
    if t.Leaf? then 0 else 1 + if Height(t.l) > Height(t.r) then Height(t.l) else Height(t.r)
  }

  lemma {:induction false} HeightBound(t: Tree)
    requires Balanced(t) && NoRedRed(t)
    ensures Height(t) <= 2 * BlackHeight(t) + (if IsRed(t) then 1 else 0)
    ensures Pow2(BlackHeight(t)) <= |Order(t)| + 1
  {
    if t.Tree? {
      HeightBound(t.l);
      HeightBound(t.r);
    }
  }

  lemma {:induction false} Pow2Monotone(a: nat, b: nat)
    requires a <= b
    ensures Pow2(a) <= Pow2(b)
  {
    if a < b { Pow2Monotone(a, b - 1); }
  }

  /** The entries whose value the condition accepts. */
  function Picked(cond: int -> bool, s: seq<Entry>): seq<Entry> {
    if s == [] then [] else IfPicked(cond, s[0]) + Picked(cond, s[1..])
  }

  function IfPicked(cond: int -> bool, e: Entry): seq<Entry> {
    if cond(e.1) then [e] else []
  }

  lemma {:induction false} PickedCat(cond: int -> bool, a: seq<Entry>, b: seq<Entry>)
    ensures Picked(cond, a + b) == Picked(cond, a) + Picked(cond, b)
  {
    if a == [] {
      assert a + b == b;
    } else {
      hide IfPicked;
      PickedCat(cond, a[1..], b);
      assert (a + b)[1..] == a[1..] + b && (a + b)[0] == a[0];
    }
  }

  lemma {:induction false} PickedNothing(cond: int -> bool, t: Tree, kv: map<Node, Entry>)
    requires t.Leaf? && Nodes(t) <= kv.Keys
    ensures Picked(cond, Entries(t, kv)) == []
  {
  }

  lemma {:induction false} PickedParts(cond: int -> bool, t: Tree, kv: map<Node, Entry>)
    requires t.Tree? && Nodes(t) <= kv.Keys
    ensures Picked(cond, Entries(t, kv)) ==
              Picked(cond, Entries(t.l, kv)) + IfPicked(cond, kv[t.n]) + Picked(cond, Entries(t.r, kv))
  {
    EntriesSplit(t, kv);
    PickedCat(cond, Entries(t.l, kv) + [kv[t.n]], Entries(t.r, kv));
    PickedCat(cond, Entries(t.l, kv), [kv[t.n]]);
    assert [kv[t.n]][1..] == [];
  }

  class RbTree {
    /** The fake root: its left child is the real root. */
    var rootPtr: Node
    var nill: Node
    var treeSize: int
    const comp: (int, int) -> int
    ghost var shape: Tree

    ghost function Repr(): set<Node>
      reads this
    {
      Footprint(Top, shape, rootPtr)
    }

    ghost function Contents(): seq<Entry>
      reads this, Nodes(shape)`key, Nodes(shape)`value
    {
      Entries(shape, Keys(Nodes(shape)))
    }

    ghost predicate Valid()
      reads this, nill, Repr()
    {
      && AtTree(shape, rootPtr, nill, Repr()) && RedBlack(shape)
      && nill.color.Black? && nill !in Repr()
      && treeSize == |Contents()|
      && TotalPreorder(comp) && Sorted(comp, Contents())
    }

    constructor (cmp: (int, int) -> int)
      requires TotalPreorder(cmp)
      ensures Valid() && fresh(Repr()) && fresh(nill)
      ensures Contents() == [] && comp == cmp
    {
      var r := new Node(0, 0);
      var n := new Node(0, 0);
      n.color, n.left, n.right, n.parent := Black, n, n, n;
      r.left, r.right, r.parent, r.color := n, n, n, Black;
      rootPtr, nill, comp, treeSize := r, n, cmp, 0;
      shape := Leaf;
    }

    /** The search loop: goes left on smaller, right on larger, stops on equal. */
    method Descend(key: int, compfn: (int, int) -> int) returns (node: Node, ghost ctx: Ctx, ghost t: Tree, ghost steps: nat)
      requires Valid()
      ensures t == Hit(shape, Keys(Nodes(shape)), key, compfn) && node == Root(t, nill) && (node == nill <==> t.Leaf?)
      ensures ZippedIn(ctx, t, rootPtr, nill, Snap(Repr())) && Plug(ctx, t) == shape && Footprint(ctx, t, rootPtr) == Repr()
      ensures steps == Visits(shape, Keys(Nodes(shape)), key, compfn) <= Height(shape)
    {
      hide RedBlack, Sorted, TotalPreorder, Pairs, Order;
      ghost var s, kv := Repr(), Keys(Nodes(shape));
      ctx, t, steps := Top, shape, 0;
      node := rootPtr.left;
      Look(ctx, t, rootPtr, nill, Snap(s));
      while node != nill
        invariant ZippedIn(ctx, t, rootPtr, nill, Snap(s)) && node == Root(t, nill)
        invariant Plug(ctx, t) == shape && Footprint(ctx, t, rootPtr) == s
        invariant Nodes(t) <= Nodes(shape) && Hit(t, kv, key, compfn) == Hit(shape, kv, key, compfn)
        invariant steps + Height(t) <= Height(shape)
        invariant steps + Visits(t, kv, key, compfn) == Visits(shape, kv, key, compfn)
        decreases t
      {
        Look(ctx, t, rootPtr, nill, Snap(s));
        Down(ctx, t, rootPtr, nill, Snap(s));
        var compvalue := compfn(key, node.key);
        steps := steps + 1;
        if compvalue == 0 {
          return;
        }
        node := if compvalue < 0 then node.left else node.right;
        ctx := if compvalue < 0 then LeftOf(ctx, t) else RightOf(ctx, t);
        t := if compvalue < 0 then t.l else t.r;
      }
    }

    /** Calls the action on every entry whose value the condition accepts, in order:
        what is seen is what the action is called with. */
    method Traverse(cond: int -> bool) returns (seen: seq<Entry>)
      requires Valid()
      ensures seen == Picked(cond, Contents())
    {
      Look(Top, shape, rootPtr, nill, Snap(Repr()));
      seen := Visit(cond, rootPtr.left, Top, shape);
    }

    method Visit(cond: int -> bool, node: Node, ghost ctx: Ctx, ghost t: Tree) returns (seen: seq<Entry>)
      requires ZippedIn(ctx, t, rootPtr, nill, Snap(Repr())) && Footprint(ctx, t, rootPtr) == Repr()
      requires node == Root(t, nill) && Nodes(t) <= Nodes(shape)
      ensures seen == Picked(cond, Entries(t, Keys(Nodes(shape))))
      decreases t
    {
      hide Picked, Pairs, Order;
      ghost var kv := Keys(Nodes(shape));
      Look(ctx, t, rootPtr, nill, Snap(Repr()));
      if node == nill {
        PickedNothing(cond, t, kv);
        return [];
      }
      Down(ctx, t, rootPtr, nill, Snap(Repr()));
      PickedParts(cond, t, kv);
      hide ZippedIn, Entries;
      var before := Visit(cond, node.left, LeftOf(ctx, t), t.l);
      var here := IfPicked(cond, (node.key, node.value));
      var after := Visit(cond, node.right, RightOf(ctx, t), t.r);
      seen := before + here + after;
    }

    /** Returns the value of an entry whose key compares equal, if there is one. */
    method FindWith(key: int, compfn: (int, int) -> int) returns (r: Option<int>, ghost steps: nat)
      requires Valid()
      ensures var h := Hit(shape, Keys(Nodes(shape)), key, compfn);
        r == if h.Leaf? then None else Some(h.n.value)
      ensures r.Some? ==> exists e :: e in Contents() && compfn(key, e.0) == 0 && e.1 == r.value
      ensures Monotone(compfn, key, Contents()) ==> (r.Some? <==> exists e :: e in Contents() && compfn(key, e.0) == 0)
      ensures steps == Visits(shape, Keys(Nodes(shape)), key, compfn)
      ensures Pow2((steps + 1) / 2) <= |Contents()| + 1
    {
      hide Visits, Monotone, RedBlack, Sorted, TotalPreorder, Pairs, ZippedIn, Order, Hit, AtTree;
      var node;
      ghost var ctx, t;
      node, ctx, t, steps := Descend(key, compfn);
      SearchStart(shape, Keys(Nodes(shape)), key, compfn);
      DepthBound(shape, steps);
      if node == nill {
        r := None;
      } else {
        r := Some(node.value);
      }
    }

    /** Walks down to the leaf where an entry with this key belongs. */
    method LeafFor(key: int) returns (parent: Node, ghost ctx: Ctx)
      requires Valid()
      ensures ZippedIn(ctx, Leaf, rootPtr, nill, Snap(Repr())) && parent == Parent(ctx, rootPtr)
      ensures Plug(ctx, Leaf) == shape && Footprint(ctx, Leaf, rootPtr) == Repr()
      ensures Neighbours(comp, key, ctx, Keys(Nodes(shape)))
      ensures ctx == Top <==> parent == rootPtr
      ensures ctx != Top ==> (comp(key, ctx.n.key) <= 0 <==> ctx.InLeft?)
    {
      hide RedBlack, Sorted, TotalPreorder, Pairs, Order, Footprint, Climbing;
      ghost var s := Repr();
      ghost var m, t := Snap(s), shape;
      ctx := Top;
      assert Before(ctx) == [] && After(ctx) == [];
      parent := rootPtr;
      Look(ctx, t, rootPtr, nill, m);
      var n: Node := parent.left;
      ghost var kv := Keys(Nodes(shape));
      assert Neighbours(comp, key, ctx, kv);
      while n != nill
        invariant ZippedIn(ctx, t, rootPtr, nill, m)
        invariant n == Root(t, nill) && parent == Parent(ctx, rootPtr)
        invariant Plug(ctx, t) == shape && Footprint(ctx, t, rootPtr) == s
        invariant Neighbours(comp, key, ctx, kv) && Nodes(t) <= kv.Keys
        invariant ctx != Top ==> (comp(key, ctx.n.key) <= 0 <==> ctx.InLeft?)
        decreases t
      {
        Look(ctx, t, rootPtr, nill, m);
        Down(ctx, t, rootPtr, nill, m);
        NewNeighbour(comp, key, ctx, t, kv);
        parent := n;
        if comp(key, n.key) <= 0 {
          n, ctx, t := n.left, LeftOf(ctx, t), t.l;
        } else {
          n, ctx, t := n.right, RightOf(ctx, t), t.r;
        }
      }
      Look(ctx, t, rootPtr, nill, m);
    }

    /** Binary-search insertion of a red leaf, without rebalancing. */
    method BtreeInsert(node: Node) returns (ghost ctx: Ctx)
      requires Valid() && node !in Repr() && node != nill
      modifies node`color, node`parent, node`left, node`right, Repr()`left, Repr()`right, this`treeSize
      ensures AtRed(node, ctx, Sprout(node), rootPtr, nill, Repr() + {node}) && nill.color.Black?
      ensures Plug(ctx, Leaf) == shape && treeSize == old(treeSize) + 1
      ensures Neighbours(comp, node.key, ctx, old(Keys(Nodes(shape))))
    {
      hide RedBlack, Sorted, TotalPreorder, Pairs, Order, Before, After, Footprint, Climbing, ZippedIn;
      ghost var s := Repr();
      ghost var m := Snap(s);
      var parent;
      parent, ctx := LeafFor(node.key);
      assert Keys(Nodes(shape)) == old(Keys(Nodes(shape)));
      AttachIn(ctx, node, rootPtr, nill, m, s);
      SproutColors(ctx, node);
      Attach(node, parent, s);
      treeSize := treeSize + 1;
      assert Snap(s + {node})[rootPtr].color == m[rootPtr].color;
    }

    method Attach(node: Node, parent: Node, ghost s: set<Node>)
      requires parent in s && node !in s && rootPtr in s
      modifies node`color, node`parent, node`left, node`right, parent`left, parent`right
      ensures Snap(s + {node}) ==
        var m, p := old(Snap(s)), ParentLinks(parent, node, old(Snap(s)));
        m[parent := p][node := Links(Red, parent, nill, nill)]
    {
      node.color := Red;
      node.parent := null;
      node.left, node.right := nill, nill;
      if parent == rootPtr || comp(node.key, parent.key) <= 0 {
        parent.left := node;
      } else {
        parent.right := node;
      }
      node.parent := parent;
      node.left, node.right := nill, nill;
    }

    ghost function ParentLinks(parent: Node, node: Node, m: map<Node, Links>): Links
      reads this, parent`key, node`key
      requires parent in m
    {
      if parent == rootPtr || comp(node.key, parent.key) <= 0 then m[parent].(left := node) else m[parent].(right := node)
    }

    /** Restores the colours after a red leaf was attached. */
    method Rebalance(node: Node, ghost ctx0: Ctx, ghost s: set<Node>) returns (ghost w: Tree)
      requires AtRed(node, ctx0, Sprout(node), rootPtr, nill, s) && nill.color.Black?
      modifies s`color, s`left, s`right, s`parent
      ensures AtTree(w, rootPtr, nill, s) && RedBlack(w)
      ensures Order(w) == Order(Plug(ctx0, Sprout(node)))
    {
      hide RedBlack, Order, Footprint, Climbing, ZippedIn, Plug;
      ghost var ctx, t := Climb(node, rootPtr, nill, ctx0, Sprout(node), s);
      RootOf(ctx, t, rootPtr, nill, s);
      ghost var m := Snap(s);
      rootPtr.left.color := Black;
      assert Snap(s) == Paint(m, rootPtr.left, Black);
      w := Plug(ctx, t).(c := Black);
      assert Snap(s)[rootPtr].color == m[rootPtr].color;
    }

    method InsertNode(node: Node)
      requires Valid() && node !in Repr() && node != nill
      modifies this`treeSize, this`shape, nill`color, Repr()`color, Repr()`parent, Repr()`left, Repr()`right
      modifies node`color, node`parent, node`left, node`right
      ensures Valid() && Repr() == old(Repr()) + {node}
      ensures Contents() == Inserted(comp, old(Contents()), node.key, node.value)
    {
      hide RedBlack, Sorted, TotalPreorder, Pairs, Order, Climbing, ZippedIn, Plug, Neighbours, Entries, Before, After, Footprint;
      hide AtTree, AtRed, Distinct, Nodes, Inserted;
      ghost var s, kv, old_shape := Repr(), Keys(Nodes(shape)), shape;
      TreeNodes(shape, rootPtr, nill, s);
      ghost var ctx0 := BtreeInsert(node);
      ghost var w := Rebalance(node, ctx0, s + {node});
      TreeNodes(w, rootPtr, nill, s + {node});
      ghost var kv' := Keys(Nodes(w));
      assert forall n :: n in kv ==> kv'[n] == kv[n];
      InsertedContents(comp, ctx0, node, old_shape, w, kv, kv');
      InsertedMeaning(comp, Entries(old_shape, kv), node.key, node.value);
      shape := w;
    }

    /** Adds an entry, unless the pool has no node left. */
    method Insert(key: int, value: int, poolHasNode: bool) returns (rc: Status)
      requires Valid()
      modifies this`treeSize, this`shape, nill`color, Repr()`color, Repr()`parent, Repr()`left, Repr()`right
      ensures Valid() && fresh(Repr() - old(Repr()))
      ensures rc == if poolHasNode then Success else OutOfResource
      ensures Contents() == if poolHasNode then Inserted(comp, old(Contents()), key, value) else old(Contents())
    {
      if !poolHasNode {
        return OutOfResource;
      }
      hide AtTree, RedBlack, Sorted, TotalPreorder, Entries, Footprint, Inserted;
      ghost var s, kv := Repr(), Keys(Nodes(shape));
      var node := new Node(key, value);
      assert Snap(s) == old(Snap(s)) && Keys(Nodes(shape)) == kv && Repr() == s;
      InsertNode(node);
      rc := Success;
    }

    /** The node in focus, in the untouched tree. */
    ghost predicate AtNode(node: Node, ctx: Ctx, t: Tree)
      reads this, Repr()
    {
      && ZippedIn(ctx, t, rootPtr, nill, Snap(Repr())) && Footprint(ctx, t, rootPtr) == Repr()
      && Plug(ctx, t) == shape && t.Tree? && t.n == node
    }

    /** The next node in order after the node in focus, or nill when it is the last. */
    method Successor(node: Node, ghost ctx0: Ctx, ghost t0: Tree) returns (p: Node, ghost ctx: Ctx, ghost t: Tree)
      requires AtNode(node, ctx0, t0)
      ensures var after := Order(t0.r) + After(ctx0); p == if after == [] then nill else after[0]
      ensures p != nill ==> AtNode(p, ctx, t)
      ensures t0.r.Tree? ==> p != nill && t.l.Leaf? && Before(ctx) == Before(ctx0) + Order(t0.l) + [node]
    {
      Look(ctx0, t0, rootPtr, nill, Snap(Repr()));
      if node.right == nill {
        p, ctx, t := Ancestor(node, ctx0, t0);
      } else {
        p, ctx, t := Leftmost(node, ctx0, t0);
      }
    }

    /** Climbs while the node is a right child. */
    method Ancestor(start: Node, ghost ctx0: Ctx, ghost t0: Tree) returns (p: Node, ghost ctx: Ctx, ghost t: Tree)
      requires AtNode(start, ctx0, t0)
      ensures p == if After(ctx0) == [] then nill else After(ctx0)[0]
      ensures p != nill ==> AtNode(p, ctx, t)
    {
      hide Footprint, ZippedIn, Order, Plug, Before;
      ghost var m := Snap(Repr());
      Look(ctx0, t0, rootPtr, nill, m);
      Members(ctx0, t0, rootPtr, nill, m);
      var node := start;
      p, ctx, t := start.parent, ctx0, t0;
      while node == p.right
        invariant AtNode(node, ctx, t) && p == Parent(ctx, rootPtr) && p in Repr() && nill !in Repr()
        invariant After(ctx) == After(ctx0)
        decreases Depth(ctx)
      {
        AncestorView(node, p, ctx, t);
        Up(ctx, t, rootPtr, nill, m);
        t, ctx := Filled(ctx, t), ctx.up;
        node := p;
        Look(ctx, t, rootPtr, nill, m);
        p := p.parent;
      }
      AncestorView(node, p, ctx, t);
      if p == rootPtr {
        return nill, ctx, t;
      }
      Up(ctx, t, rootPtr, nill, m);
      t, ctx := Filled(ctx, t), ctx.up;
    }

    lemma {:induction false} AncestorView(node: Node, p: Node, ctx: Ctx, t: Tree)
      requires AtNode(node, ctx, t) && p == Parent(ctx, rootPtr)
      ensures node == p.right <==> ctx.InRight?
      ensures p == rootPtr <==> ctx == Top
      ensures p != nill && (ctx != Top ==> p.parent == Parent(ctx.up, rootPtr) && p.parent in Repr())
    {
      Look(ctx, t, rootPtr, nill, Snap(Repr()));
      Members(ctx, t, rootPtr, nill, Snap(Repr()));
      if ctx != Top {
        Members(ctx.up, Filled(ctx, t), rootPtr, nill, Snap(Repr())) by { Up(ctx, t, rootPtr, nill, Snap(Repr())); }
        Sibling(ctx, t, rootPtr, nill, Snap(Repr()));
        Up(ctx, t, rootPtr, nill, Snap(Repr()));
        Look(ctx.up, Filled(ctx, t), rootPtr, nill, Snap(Repr()));
      }
    }

    /** Goes right once, then left as far as possible. */
    method Leftmost(start: Node, ghost ctx0: Ctx, ghost t0: Tree) returns (p: Node, ghost ctx: Ctx, ghost t: Tree)
      requires AtNode(start, ctx0, t0) && t0.r.Tree?
      ensures AtNode(p, ctx, t) && p != nill && p == Order(t0.r)[0]
      ensures t.l.Leaf? && Before(ctx) == Before(ctx0) + Order(t0.l) + [start]
    {
      hide Footprint, ZippedIn;
      ghost var m := Snap(Repr());
      Look(ctx0, t0, rootPtr, nill, m);
      Members(ctx0, t0, rootPtr, nill, m);
      Down(ctx0, t0, rootPtr, nill, m);
      p, ctx, t := start.right, RightOf(ctx0, t0), t0.r;
      Members(ctx, t, rootPtr, nill, m);
      Look(ctx, t, rootPtr, nill, m);
      while p.left != nill
        invariant AtNode(p, ctx, t) && p in Repr() && nill !in Repr() && p.left == Root(t.l, nill)
        invariant Before(ctx) == Before(ctx0) + Order(t0.l) + [start]
        invariant Order(t)[0] == Order(t0.r)[0]
        decreases t
      {
        Down(ctx, t, rootPtr, nill, m);
        p, ctx, t := p.left, LeftOf(ctx, t), t.l;
        Members(ctx, t, rootPtr, nill, m);
        Look(ctx, t, rootPtr, nill, m);
      }
      Down(ctx, t, rootPtr, nill, m);
      Members(LeftOf(ctx, t), t.l, rootPtr, nill, m);
      assert Order(t.l) == [] && Order(t)[0] == p;
    }

    /** Links the only subtree of a node, possibly nill, in the place of the node. */
    method Splice(todelete: Node, ghost s: set<Node>) returns (y: Node)
      requires todelete in s && rootPtr in s && nill !in s && todelete.left != null && todelete.right != null
      requires var y := if todelete.left == nill then todelete.right else todelete.left;
        y in s - {todelete} + {nill} && y != todelete.parent
      requires todelete.parent in s - {todelete} && (todelete.parent == rootPtr ==> rootPtr.left == todelete)
      modifies nill`parent, s`parent, s`left, s`right
      ensures y == old(if todelete.left == nill then todelete.right else todelete.left) && y.parent == old(todelete.parent)
      ensures Snap(s - {todelete}) == SplicedMap(old(Snap(s)), todelete, old(todelete.parent), y, nill)
    {
      if todelete.left == nill {
        y := todelete.right;
      } else {
        y := todelete.left;
      }
      y.parent := todelete.parent;
      if y.parent == rootPtr {
        rootPtr.left := y;
      } else {
        if todelete == todelete.parent.left {
          todelete.parent.left := y;
        } else {
          todelete.parent.right := y;
        }
      }
    }

    lemma {:induction false} SpliceView(x: Node, ctx: Ctx, t: Tree)
      requires AtNode(x, ctx, t) && (t.l.Leaf? || t.r.Leaf?)
      ensures t.n == x && x in Repr() && nill !in Repr() && rootPtr in Repr()
      ensures x.left == Root(t.l, nill) && x.right == Root(t.r, nill)
      ensures Root(Kept(t), nill) == if x.left == nill then x.right else x.left
      ensures x.parent == rootPtr ==> rootPtr.left == x
      ensures (x.left == nill <==> t.l.Leaf?)
      ensures var y := Root(Kept(t), nill); y in Repr() - {x} + {nill} && y != Parent(ctx, rootPtr)
      ensures x.parent == Parent(ctx, rootPtr) && x.parent in Repr() - {x}
      ensures x.parent == rootPtr <==> ctx == Top
      ensures x == x.parent.left <==> !ctx.InRight?
      ensures Kept(t).Tree? <==> Root(Kept(t), nill) != nill
    {
      var m := Snap(Repr());
      Look(ctx, t, rootPtr, nill, m);
      Members(ctx, t, rootPtr, nill, m);
      Down(ctx, t, rootPtr, nill, m);
      Members(LeftOf(ctx, t), t.l, rootPtr, nill, m);
      Members(RightOf(ctx, t), t.r, rootPtr, nill, m);
      if ctx != Top { Sibling(ctx, t, rootPtr, nill, m); }
    }

    /** Unlinks a node with at most one subtree. */
    method Unlink(todelete: Node, ghost ctx: Ctx, ghost t: Tree) returns (y: Node)
      requires Valid() && AtNode(todelete, ctx, t) && (t.l.Leaf? || t.r.Leaf?)
      modifies nill`parent, Repr()`parent, Repr()`left, Repr()`right
      ensures todelete.color == t.c && nill.color.Black?
      ensures todelete.color == Black ==> AtShort(y, ctx, Kept(t), rootPtr, nill, Repr() - {todelete})
      ensures todelete.color == Red ==> AtMended(ctx, Kept(t), rootPtr, nill, Repr() - {todelete})
    {
      hide ZippedIn, Footprint, Plug, Order, Short, Mended, RedBlack, Entries, SplicedMap;
      ghost var s, m := Repr(), Snap(Repr());
      SpliceIn(ctx, t, rootPtr, nill, m);
      SpliceColors(ctx, t);
      UnlinkView(todelete, ctx, t);
      SpliceView(todelete, ctx, t);
      y := Splice(todelete, s);
      assert Snap(s - {todelete})[rootPtr].color == m[rootPtr].color;
    }

    /** Removes the entry where the search for key stops. */
    method Delete(key: int) returns (rc: Status, ghost at: nat)
      requires Valid()
      modifies this`treeSize, this`shape, nill`parent, nill`color
      modifies Repr()`color, Repr()`parent, Repr()`left, Repr()`right, Repr()`key, Repr()`value
      ensures Valid() && Repr() <= old(Repr())
      ensures var h := old(Hit(shape, Keys(Nodes(shape)), key, comp));
        && rc == (if h.Leaf? then NotFound else Success)
        && (rc == Success ==> at < |old(Order(shape))| && old(Order(shape))[at] == h.n)
      ensures rc == NotFound ==> Contents() == old(Contents()) && forall e :: e in Contents() ==> comp(key, e.0) != 0
      ensures rc == Success ==>
        && at < |old(Contents())| && comp(key, old(Contents())[at].0) == 0
        && Contents() == RemoveAt(old(Contents()), at)
    {
      hide RedBlack, Sorted, TotalPreorder, Monotone, ZippedIn, Order, Hit, Footprint, Plug;
      SearchStart(shape, Keys(Nodes(shape)), key, comp);
      SortedMonotone(comp, key, Contents());
      var p;
      ghost var ctx, t, steps;
      p, ctx, t, steps := Descend(key, comp);
      assert Snap(Repr()) == old(Snap(Repr())) && Keys(Nodes(shape)) == old(Keys(Nodes(shape)));
      if p == nill {
        return NotFound, 0;
      }
      at := DeleteNode(p, ctx, t);
      rc := Success;
    }

    method DeleteNode(p: Node, ghost ctx: Ctx, ghost t: Tree) returns (ghost at: nat)
      requires Valid() && AtNode(p, ctx, t)
      modifies this`treeSize, this`shape, nill`parent, nill`color
      modifies Repr()`color, Repr()`parent, Repr()`left, Repr()`right, Repr()`key, Repr()`value
      ensures Valid() && Repr() <= old(Repr())
      ensures at < |old(Order(shape))| && old(Order(shape))[at] == p
      ensures at < |old(Contents())| && Contents() == RemoveAt(old(Contents()), at)
    {
      hide RedBlack, Sorted, TotalPreorder, Pairs, ZippedIn, Order, Footprint, Entries, Plug, AtTree, AtShort, AtMended, UnlinkedAt, Distinct, RemoveAt, Nodes;
      ghost var s, kv, shape0 := Repr(), Keys(Nodes(shape)), shape;
      TreeNodes(shape0, rootPtr, nill, s);
      var todelete;
      ghost var dctx, dt;
      todelete, dctx, dt := ToUnlink(p, ctx, t);
      ghost var j := UnlinkedAt(dctx, dt);
      var y := Unlink(todelete, dctx, dt);
      if todelete != p {
        p.key := todelete.key;
        p.value := todelete.value;
      }
      ghost var w := Mend(todelete, y, dctx, dt, s - {todelete});
      treeSize := treeSize - 1;
      TreeNodes(w, rootPtr, nill, s - {todelete});
      ghost var kv' := Keys(Nodes(w));
      assert kv'.Keys <= kv.Keys;
      assert forall n :: n in kv' && n != p ==> kv'[n] == kv[n];
      at := if todelete == p then j else j - 1;
      DeletedEntries(comp, shape0, w, dctx, dt, p, at, j, kv, kv');
      shape := w;
    }

    /** The node to unlink: p itself, or its successor when p has two subtrees. */
    method ToUnlink(p: Node, ghost ctx: Ctx, ghost t: Tree) returns (todelete: Node, ghost dctx: Ctx, ghost dt: Tree)
      requires Valid() && AtNode(p, ctx, t)
      ensures Valid() && AtNode(todelete, dctx, dt) && (dt.l.Leaf? || dt.r.Leaf?)
      ensures p in Repr() && todelete in Repr() && p in Nodes(shape) && todelete in Nodes(shape)
      ensures var o, j := Order(shape), UnlinkedAt(dctx, dt);
        && j < |o| && o[j] == todelete
        && (todelete != p ==> j > 0 && o[j - 1] == p)
    {
      hide RedBlack, Sorted, TotalPreorder, Pairs, ZippedIn, Footprint, Entries, Plug;
      todelete, dctx, dt := p, ctx, t;
      NodeView(p, ctx, t);
      if p.left != nill && p.right != nill {
        todelete, dctx, dt := Successor(p, ctx, t);
      }
      assert Keys(Nodes(shape)) == old(Keys(Nodes(shape))) && Snap(Repr()) == old(Snap(Repr()));
      NodeView(todelete, dctx, dt);
      PlugOrder(dctx, dt);
    }

    /** The last part of a deletion: rebalances when the unlinked node was black. */
    method Mend(todelete: Node, y: Node, ghost ctx: Ctx, ghost t: Tree, ghost s: set<Node>) returns (ghost w: Tree)
      requires t.Tree? && (t.l.Leaf? || t.r.Leaf?) && nill.color.Black?
      requires todelete.color == Black ==> AtShort(y, ctx, Kept(t), rootPtr, nill, s)
      requires todelete.color == Red ==> AtMended(ctx, Kept(t), rootPtr, nill, s)
      modifies nill`color, s`color, s`parent, s`left, s`right
      ensures AtTree(w, rootPtr, nill, s) && RedBlack(w) && nill.color.Black?
      ensures Order(w) == Order(Plug(ctx, Kept(t)))
    {
      hide RedBlack, Order, Plug, AtTree, AtShort;
      if todelete.color == Black {
        w := DeleteFixup(y, rootPtr, nill, ctx, Kept(t), s);
      } else {
        Whole(ctx, Kept(t), rootPtr, nill, s);
        w := Plug(ctx, Kept(t));
        assert nill.color.Black?;
      }
    }

    lemma {:induction false} NodeView(x: Node, ctx: Ctx, t: Tree)
      requires AtNode(x, ctx, t)
      ensures x in Repr() && x in Nodes(shape)
      ensures x.left == Root(t.l, nill) && x.right == Root(t.r, nill)
      ensures x.left == nill <==> t.l.Leaf?
      ensures x.right == nill <==> t.r.Leaf?
    {
      var m := Snap(Repr());
      Look(ctx, t, rootPtr, nill, m);
      Down(ctx, t, rootPtr, nill, m);
      Members(LeftOf(ctx, t), t.l, rootPtr, nill, m);
      Members(RightOf(ctx, t), t.r, rootPtr, nill, m);
      Members(ctx, t, rootPtr, nill, m);
      ZipUp(ctx, t, rootPtr, nill, m);
    }

    lemma {:induction false} UnlinkView(x: Node, ctx: Ctx, t: Tree)
      requires AtNode(x, ctx, t)
      ensures x.color == t.c
    {
      Look(ctx, t, rootPtr, nill, Snap(Repr()));
    }
  }

  ghost function Kept(t: Tree): Tree
    requires t.Tree?
  {
    if t.l.Leaf? then t.r else t.l
  }

  /** The links after the subtree at y took the place of x below p. */
  ghost function SplicedMap(m: map<Node, Links>, x: Node, p: Node, y: Node, nill: Node): map<Node, Links>
    requires p in m && (y != nill ==> y in m)
  {
    var m1 := if y != nill then m[y := m[y].(parent := p)] else m;
    m1[p := Relink(m[p], x, y)] - {x}
  }

  lemma {:induction false} SpliceIn(ctx: Ctx, t: Tree, rootPtr: Node, nill: Node, m: map<Node, Links>)
    requires ZippedIn(ctx, t, rootPtr, nill, m) && m.Keys == Footprint(ctx, t, rootPtr)
    requires t.Tree? && (t.l.Leaf? || t.r.Leaf?)
    ensures Parent(ctx, rootPtr) in m && (Kept(t).Tree? ==> Kept(t).n in m) && rootPtr in m && rootPtr != t.n
    ensures Kept(t).Tree? <==> Root(Kept(t), nill) != nill
    ensures ZippedIn(ctx, Kept(t), rootPtr, nill, SplicedMap(m, t.n, Parent(ctx, rootPtr), Root(Kept(t), nill), nill))
    ensures Footprint(ctx, Kept(t), rootPtr) == Footprint(ctx, t, rootPtr) - {t.n}
    ensures SplicedMap(m, t.n, Parent(ctx, rootPtr), Root(Kept(t), nill), nill)[rootPtr].color == m[rootPtr].color
  {
    var y, p := Kept(t), Parent(ctx, rootPtr);
    assert Linked(y, t.n, nill, m) && Nodes(t) == Nodes(y) + {t.n};
    assert y.Tree? ==> y.n in Nodes(y);
    Look(ctx, t, rootPtr, nill, m);
    if ctx != Top { Sibling(ctx, t, rootPtr, nill, m); }
    var m' := SplicedMap(m, t.n, p, Root(y, nill), nill);
    Reparented(y, t.n, p, nill, m, m');
    var m1 := m[p := Refill(ctx, Root(y, nill), m[p])];
    Refilled(ctx, t.n, Root(y, nill), rootPtr, nill, m, m1);
    CtxFrame(ctx, Root(y, nill), rootPtr, nill, m1, m');
  }

  /** Where the unlinked node is in the order of the whole tree. */
  ghost function UnlinkedAt(ctx: Ctx, t: Tree): nat
    requires t.Tree?
  {
    |Before(ctx)| + |Order(t.l)|
  }

  lemma {:induction false} UnlinkedOrder(ctx: Ctx, t: Tree, w: Tree)
    requires t.Tree? && (t.l.Leaf? || t.r.Leaf?)
    requires Order(w) == Order(Plug(ctx, Kept(t)))
    ensures var o, j := Order(Plug(ctx, t)), UnlinkedAt(ctx, t);
      j < |o| && o[j] == t.n && Order(w) == RemoveAt(o, j)
  {
    PlugOrder(ctx, t);
    PlugOrder(ctx, Kept(t));
    hide Plug, Before, After, RemoveAt;
    assert Order(Kept(t)) == if Order(t.l) == [] then Order(t.r) else Order(t.l);
    UnlinkedSeq(Before(ctx), Order(t.l), t.n, Order(t.r), After(ctx));
  }

  lemma {:induction false} UnlinkedSeq<T>(b: seq<T>, l: seq<T>, e: T, r: seq<T>, a: seq<T>)
    requires l == [] || r == []
    ensures var o := b + (l + [e] + r) + a;
      o[|b| + |l|] == e && RemoveAt(o, |b| + |l|) == b + (if l == [] then r else l) + a
  {
    Regroup(b, l, [e], r, a);
    RemoveMiddle(b + l, e, r + a);
    assert b + l + (r + a) == b + (if l == [] then r else l) + a;
  }

  lemma {:induction false} RemoveMiddle<T>(x: seq<T>, e: T, y: seq<T>)
    ensures RemoveAt(x + [e] + y, |x|) == x + y && (x + [e] + y)[|x|] == e
  {
  }

  lemma {:induction false} OrderDistinct(t: Tree)
    requires Distinct(t)
    ensures forall i, j :: 0 <= i < j < |Order(t)| ==> Order(t)[i] != Order(t)[j]
  {
    if t.Tree? {
      OrderDistinct(t.l);
      OrderDistinct(t.r);
      InOrder(t.l, Order(t.l));
      InOrder(t.r, Order(t.r));
      JoinDistinct(Order(t.l), t.n, Order(t.r), Nodes(t.l), Nodes(t.r));
    }
  }

  lemma {:induction false} JoinDistinct(a: seq<Node>, n: Node, b: seq<Node>, na: set<Node>, nb: set<Node>)
    requires forall i, j :: 0 <= i < j < |a| ==> a[i] != a[j]
    requires forall i, j :: 0 <= i < j < |b| ==> b[i] != b[j]
    requires forall m :: m in a ==> m in na
    requires forall m :: m in b ==> m in nb
    requires n !in na && n !in nb && na !! nb
    ensures var s := a + [n] + b; forall i, j :: 0 <= i < j < |s| ==> s[i] != s[j]
  {
    assert forall i :: 0 <= i < |a| ==> a[i] in na;
    assert forall i :: 0 <= i < |b| ==> b[i] in nb;
  }

  /** The entries after unlinking t.n, when the entry removed is that of the node p:
      either p was unlinked, or p got the entry of its unlinked successor. */
  lemma {:induction false} UnlinkedEntries(t: Tree, w: Tree, p: Node, at: nat, j: nat, kv: map<Node, Entry>, kv': map<Node, Entry>)
    requires Distinct(t) && kv.Keys == Nodes(t) && kv'.Keys == Nodes(w)
    requires at <= j <= at + 1 && j < |Order(t)| && Order(t)[at] == p && Order(w) == RemoveAt(Order(t), j)
    requires forall n :: n in kv' && n != p ==> n in kv && kv'[n] == kv[n]
    requires j == at + 1 ==> p in kv' && Order(t)[j] in kv && kv'[p] == kv[Order(t)[j]]
    ensures Entries(w, kv') == RemoveAt(Entries(t, kv), at)
  {
    hide Distinct, Order, Nodes;
    OrderDistinct(t);
    InOrder(t, Order(t));
    InOrder(w, Order(w));
    UnlinkedPairs(Order(t), Order(w), p, at, j, kv, kv');
  }

  lemma {:induction false} DeletedEntries(cmp: (int, int) -> int, shape: Tree, w: Tree, ctx: Ctx, t: Tree, p: Node, at: nat, j: nat, kv: map<Node, Entry>, kv': map<Node, Entry>)
    requires shape == Plug(ctx, t) && t.Tree? && (t.l.Leaf? || t.r.Leaf?) && j == UnlinkedAt(ctx, t)
    requires Order(w) == Order(Plug(ctx, Kept(t)))
    requires Distinct(shape) && kv.Keys == Nodes(shape) && kv'.Keys == Nodes(w) && Sorted(cmp, Entries(shape, kv))
    requires at <= j <= at + 1 && at < |Order(shape)| && Order(shape)[at] == p
    requires forall n :: n in kv' && n != p ==> n in kv && kv'[n] == kv[n]
    requires j == at + 1 ==> p in kv' && t.n in kv && kv'[p] == kv[t.n]
    ensures |Entries(shape, kv)| == |Order(shape)| && Entries(w, kv') == RemoveAt(Entries(shape, kv), at)
    ensures Sorted(cmp, Entries(w, kv')) && |Entries(w, kv')| == |Entries(shape, kv)| - 1
  {
    hide Order, Plug, Distinct, Nodes, Pairs, Sorted, Before, After;
    UnlinkedOrder(ctx, t, w);
    UnlinkedEntries(shape, w, p, at, j, kv, kv');
    RemoveAtMeaning(cmp, Entries(shape, kv), at);
  }

  lemma {:induction false} UnlinkedPairs(o: seq<Node>, o': seq<Node>, p: Node, at: nat, j: nat, kv: map<Node, Entry>, kv': map<Node, Entry>)
    requires forall i, j :: 0 <= i < j < |o| ==> o[i] != o[j]
    requires forall n :: n in o ==> n in kv
    requires forall n :: n in o' ==> n in kv'
    requires at <= j <= at + 1 && j < |o| && o[at] == p && o' == RemoveAt(o, j)
    requires forall n :: n in kv' && n != p ==> n in kv && kv'[n] == kv[n]
    requires j == at + 1 ==> p in kv' && kv'[p] == kv[o[j]]
    ensures Pairs(o', kv') == RemoveAt(Pairs(o, kv), at)
  {
    var e := RemoveAt(Pairs(o, kv), at);
    forall k | 0 <= k < |o'| ensures kv'[o'[k]] == e[k] {
      assert o'[k] in o';
      if k < at || k > at { assert o'[k] != p; }
    }
  }

  /** Colours after a node with at most one subtree is unlinked. */
  lemma {:induction false} SpliceColors(ctx: Ctx, t: Tree)
    requires t.Tree? && (t.l.Leaf? || t.r.Leaf?) && RedBlack(Plug(ctx, t))
    ensures t.c.Black? ==> Short(ctx, Kept(t))
    ensures t.c.Red? ==> Mended(ctx, Kept(t))
  {
    UnplugColors(ctx, t);
    UnplugRoot(ctx, t);
  }

  ghost function Sprout(node: Node): Tree {
    Tree(Red, Leaf, node, Leaf)
  }

  /** The keys next to the hole of ctx: smaller before it, not smaller after it. */
  ghost predicate Neighbours(cmp: (int, int) -> int, key: int, ctx: Ctx, kv: map<Node, Entry>) {
    var a, b := Before(ctx), After(ctx);
    && (a != [] ==> a[|a| - 1] in kv && cmp(key, kv[a[|a| - 1]].0) > 0)
    && (b != [] ==> b[0] in kv && cmp(key, kv[b[0]].0) <= 0)
  }

  lemma {:induction false} NewNeighbour(cmp: (int, int) -> int, key: int, ctx: Ctx, t: Tree, kv: map<Node, Entry>)
    requires Neighbours(cmp, key, ctx, kv) && t.Tree? && t.n in kv
    ensures cmp(key, kv[t.n].0) <= 0 ==> Neighbours(cmp, key, LeftOf(ctx, t), kv)
    ensures cmp(key, kv[t.n].0) > 0 ==> Neighbours(cmp, key, RightOf(ctx, t), kv)
  {
  }

  /** The real root at the end of an insertion, painted black. */
  lemma {:induction false} RootOf(ctx: Ctx, t: Tree, rootPtr: Node, nill: Node, s: set<Node>)
    requires exists node :: AtRed(node, ctx, t, rootPtr, nill, s)
    requires !ParentRed(ctx)
    ensures var w := Plug(ctx, t);
      && w.Tree? && rootPtr.left == w.n && w.n in s && rootPtr in s && w.n != rootPtr && nill !in s
      && RedBlack(w.(c := Black)) && Order(w.(c := Black)) == Order(w)
      && s == Footprint(Top, w.(c := Black), rootPtr)
      && ZippedIn(Top, w.(c := Black), rootPtr, nill, Paint(Snap(s), w.n, Black))
  {
    var w := Plug(ctx, t);
    ZipUp(ctx, t, rootPtr, nill, Snap(s));
    PlugColors(ctx, t);
    if ctx != Top { PlugTop(ctx, t); }
    Look(Top, w, rootPtr, nill, Snap(s));
    PaintIn(Top, w, Black, rootPtr, nill, Snap(s));
  }

  lemma {:induction false} PairsCat(a: seq<Node>, b: seq<Node>, kv: map<Node, Entry>)
    requires forall n :: n in a + b ==> n in kv
    ensures forall n :: n in a || n in b ==> n in kv
    ensures Pairs(a + b, kv) == Pairs(a, kv) + Pairs(b, kv)
  {
    assert forall i :: 0 <= i < |a| ==> (a + b)[i] == a[i];
    assert forall i :: 0 <= i < |b| ==> (a + b)[|a| + i] == b[i];
  }

  lemma {:induction false} InsertedPairs(cmp: (int, int) -> int, a: seq<Node>, node: Node, b: seq<Node>, kv: map<Node, Entry>, kv': map<Node, Entry>)
    requires forall n :: n in a + b ==> n in kv
    requires forall n :: n in a + [node] + b ==> n in kv'
    requires Pairs(a, kv') == Pairs(a, kv) && Pairs(b, kv') == Pairs(b, kv)
    requires TotalPreorder(cmp) && Sorted(cmp, Pairs(a + b, kv)) && node in kv'
    requires a != [] ==> cmp(kv'[node].0, kv[a[|a| - 1]].0) > 0
    requires b != [] ==> cmp(kv'[node].0, kv[b[0]].0) <= 0
    ensures Pairs(a + [node] + b, kv') == Inserted(cmp, Pairs(a + b, kv), kv'[node].0, kv'[node].1)
  {
    hide TotalPreorder, Sorted, Inserted;
    PairsCat(a, b, kv);
    PairsCat(a + [node], b, kv');
    PairsCat(a, [node], kv');
    assert Pairs([node], kv') == [kv'[node]];
    assert a != [] ==> Pairs(a, kv)[|a| - 1] == kv[a[|a| - 1]];
    assert b != [] ==> Pairs(b, kv)[0] == kv[b[0]];
    hide Pairs;
    InsertedEntries(cmp, Pairs(a, kv), Pairs(b, kv), kv'[node].0, kv'[node].1);
  }

  lemma {:induction false} InsertedEntries(cmp: (int, int) -> int, a: seq<Entry>, b: seq<Entry>, key: int, value: int)
    requires TotalPreorder(cmp) && Sorted(cmp, a + b)
    requires a != [] ==> cmp(key, a[|a| - 1].0) > 0
    requires b != [] ==> cmp(key, b[0].0) <= 0
    ensures Inserted(cmp, a + b, key, value) == a + [(key, value)] + b
  {
    hide TotalPreorder, Sorted, Monotone;
    SortedMonotone(cmp, key, a + b);
    LastBounds(cmp, key, a, b);
    InsertedBetween(cmp, a, b, key, value);
  }

  lemma {:induction false} InsertedContents(cmp: (int, int) -> int, ctx: Ctx, node: Node, t: Tree, t': Tree, kv: map<Node, Entry>, kv': map<Node, Entry>)
    requires t == Plug(ctx, Leaf) && Order(t') == Order(Plug(ctx, Sprout(node)))
    requires kv.Keys == Nodes(t) && kv'.Keys == Nodes(t') && node in kv'
    requires forall n :: n in kv && n in kv' ==> kv'[n] == kv[n]
    requires Neighbours(cmp, kv'[node].0, ctx, kv)
    requires TotalPreorder(cmp) && Sorted(cmp, Entries(t, kv))
    ensures Entries(t', kv') == Inserted(cmp, Entries(t, kv), kv'[node].0, kv'[node].1)
  {
    hide TotalPreorder, Sorted, Inserted, Order, Nodes, Plug, Before, After, Pairs;
    var a, b := Before(ctx), After(ctx);
    SproutOrder(ctx, node, t, t');
    InOrder(t, a + b);
    InOrder(t', a + [node] + b);
    SamePairs(a, kv, kv');
    SamePairs(b, kv, kv');
    InsertedPairs(cmp, a, node, b, kv, kv');
  }

  lemma {:induction false} TreeNodes(t: Tree, rootPtr: Node, nill: Node, s: set<Node>)
    requires AtTree(t, rootPtr, nill, s)
    ensures Nodes(t) == s - {rootPtr} && rootPtr in s && nill !in s && s == Footprint(Top, t, rootPtr) && Distinct(t)
  {
  }

  lemma {:induction false} SproutOrder(ctx: Ctx, node: Node, t: Tree, t': Tree)
    requires t == Plug(ctx, Leaf) && Order(t') == Order(Plug(ctx, Sprout(node)))
    ensures Order(t) == Before(ctx) + After(ctx) && Order(t') == Before(ctx) + [node] + After(ctx)
  {
    PlugOrder(ctx, Leaf);
    PlugOrder(ctx, Sprout(node));
  }

  lemma {:induction false} InOrder(t: Tree, ns: seq<Node>)
    requires Order(t) == ns
    ensures forall n :: n in ns ==> n in Nodes(t)
  {
    OrderNodes(t);
  }

  lemma {:induction false} SamePairs(ns: seq<Node>, kv: map<Node, Entry>, kv': map<Node, Entry>)
    requires forall n :: n in ns ==> n in kv && n in kv' && kv[n] == kv'[n]
    ensures Pairs(ns, kv) == Pairs(ns, kv')
  {
  }

  lemma {:induction false} LastBounds(cmp: (int, int) -> int, key: int, a: seq<Entry>, b: seq<Entry>)
    requires Monotone(cmp, key, a + b)
    requires a != [] ==> cmp(key, a[|a| - 1].0) > 0
    ensures forall i :: 0 <= i < |a| ==> cmp(key, a[i].0) > 0
  {
    forall i | 0 <= i < |a| ensures cmp(key, a[i].0) > 0 {
      assert (a + b)[i] == a[i] && (a + b)[|a| - 1] == a[|a| - 1];
    }
  }

  ghost function Attached(ctx: Ctx, node: Node, rootPtr: Node, nill: Node, m: map<Node, Links>): map<Node, Links>
    requires Parent(ctx, rootPtr) in m
  {
    var p := Parent(ctx, rootPtr);
    m[p := Refill(ctx, node, m[p])][node := Links(Red, p, nill, nill)]
  }

  lemma {:induction false} AttachIn(ctx: Ctx, node: Node, rootPtr: Node, nill: Node, m: map<Node, Links>, s: set<Node>)
    requires ZippedIn(ctx, Leaf, rootPtr, nill, m) && s == m.Keys == Footprint(ctx, Leaf, rootPtr)
    requires node !in s && node != nill
    ensures Parent(ctx, rootPtr) in m && Parent(ctx, rootPtr) != node
    ensures ZippedIn(ctx, Sprout(node), rootPtr, nill, Attached(ctx, node, rootPtr, nill, m))
    ensures Footprint(ctx, Sprout(node), rootPtr) == s + {node} && rootPtr in s && nill !in s
  {
    var p := Parent(ctx, rootPtr);
    Look(ctx, Leaf, rootPtr, nill, m);
    var m1 := m[p := Refill(ctx, node, m[p])];
    Refilled(ctx, nill, node, rootPtr, nill, m, m1);
    CtxFrame(ctx, node, rootPtr, nill, m1, Attached(ctx, node, rootPtr, nill, m));
  }

  lemma {:induction false} SproutColors(ctx: Ctx, node: Node)
    requires RedBlack(Plug(ctx, Leaf))
    ensures Climbing(ctx, Sprout(node))
  {
    UnplugColors(ctx, Leaf);
    UnplugRoot(ctx, Leaf);
  }

  lemma {:induction false} UnplugRoot(ctx: Ctx, t: Tree)
    requires !IsRed(Plug(ctx, t))
    ensures RootBlack(ctx)
  {
    if ctx != Top { UnplugRoot(ctx.up, Filled(ctx, t)); }
  }

  /** What a search of the whole tree finds, and how deep it can go. */
  lemma {:induction false} SearchStart(t: Tree, kv: map<Node, Entry>, key: int, cmp: (int, int) -> int)
    requires RedBlack(t) && kv.Keys == Nodes(t)
    ensures var h := Hit(t, kv, key, cmp); h.Tree? ==> h.n in Nodes(t) && kv[h.n] in Entries(t, kv) && cmp(key, kv[h.n].0) == 0
    ensures Monotone(cmp, key, Entries(t, kv)) ==>
      (Hit(t, kv, key, cmp).Leaf? ==> forall e :: e in Entries(t, kv) ==> cmp(key, e.0) != 0)
  {
    HitFound(t, kv, key, cmp);
    var h := Hit(t, kv, key, cmp);
    if h.Tree? { EntriesHas(t, kv, h.n); }
    if Monotone(cmp, key, Entries(t, kv)) && h.Leaf? { HitMissed(t, kv, key, cmp); }
  }

  /** A search visits at most twice the binary logarithm of n + 1 of the n nodes. */
  lemma {:induction false} DepthBound(t: Tree, steps: nat)
    requires RedBlack(t) && steps <= Height(t)
    ensures Pow2((steps + 1) / 2) <= |Order(t)| + 1
  {
    HeightBound(t);
    Pow2Monotone((steps + 1) / 2, BlackHeight(t));
  }
}
