/** Which items of a distributed array belong to which rank of the process grid. */
module Distribution {
  import opened TypeBoxes

  datatype Distrib = Block | Cyclic | Whole
  datatype Arg = Default | Explicit(size: nat)

  /** One dimension of the array: its distribution, its size, the number of processes
      along it and the distribution argument. */
  datatype Axis = Axis(dist: Distrib, g: nat, n: nat, arg: Arg)

  /** What the standard demands: explicit blocks are large enough, and a dimension that
      is not distributed has one process. */
  predicate Legal(a: Axis) {
    && a.g >= 1 && a.n >= 1
    && (a.arg.Explicit? ==> a.arg.size >= 1)
    && (a.dist.Block? && a.arg.Explicit? ==> a.arg.size * a.n >= a.g)
    && (a.dist.Whole? ==> a.n == 1)
  }

  function BlockSize(a: Axis): (b: nat)
    requires Legal(a)
    ensures b >= 1
  {
    if a.dist.Whole? then a.g
    else if a.arg.Explicit? then a.arg.size
    else if a.dist.Block? then CeilDiv(a.g, a.n)
    else 1
  }

  lemma {:induction false} NotNegative(x: int, y: int)
    requires x >= 0 && y >= 0
    ensures x * y >= 0
  {
  }

  lemma {:induction false} DivLess(x: nat, b: nat, n: int)
    requires b >= 1
    ensures x < n * b <==> x / b < n
  {
    assert x == (x / b) * b + x % b;
    assert (x / b - n) * b == (x / b) * b - n * b && (n - 1 - x / b) * b == n * b - b - (x / b) * b;
    if x / b >= n { NotNegative(x / b - n, b); } else { NotNegative(n - 1 - x / b, b); }
  }

  lemma {:induction false} Product(n: nat, b: nat)
    requires n >= 1 && b >= 1
    ensures n * b >= b >= 1
  {
    NotNegative(n - 1, b);
    assert (n - 1) * b == n * b - b;
  }

  function CeilDiv(g: nat, n: nat): (b: nat)
    requires g >= 1 && n >= 1
    ensures b >= 1 && b * n >= g
  {
    var b := (g + n - 1) / n;
    DivLess(g + n - 1, n, 1);
    assert g + n - 1 == b * n + (g + n - 1) % n;
    b
  }

  /** The coordinate of the processes that an index belongs to. */
  function Owner(a: Axis, x: nat): nat
    requires Legal(a)
  {
    if a.dist.Cyclic? then (x / BlockSize(a)) % a.n else x / BlockSize(a)
  }

  /** How many indices one process has, as computed by the program. */
  function LocalSize(a: Axis, coord: nat): nat
    requires Legal(a)
  {
    if a.dist.Cyclic? then CyclicSize(a.g, a.n, BlockSize(a), coord) else BlockLocal(a.g, BlockSize(a), coord)
  }

  function BlockLocal(g: nat, b: nat, coord: nat): nat {
    var left := g - b * coord;
    if left < 0 then 0 else if b < left then b else left
  }

  function CyclicSize(g: nat, n: nat, b: nat, coord: nat): nat
    requires g >= 1 && n >= 1 && b >= 1
  {
    if g - 1 < coord * b then 0 else Product(n, b); Left(g - coord * b, n * b, b)
  }

  /** How many of the next indices are in the first b of every w. */
  function Left(left: nat, w: nat, b: nat): nat
    requires w >= 1
  {
    (left / w) * b + if left % w < b then left % w else b
  }

  /** Index l of a process, counted from its first one. */
  function Pick(a: Axis, l: nat): nat
    requires Legal(a)
  {
    if a.dist.Cyclic? then Product(a.n, BlockSize(a)); Spread(l, BlockSize(a), a.n * BlockSize(a)) else l
  }

  /** Blocks of b, the first of every w. */
  function Spread(l: nat, b: nat, w: nat): nat
    requires b >= 1
  {
    (l / b) * w + l % b
  }

  function DimOf(a: Axis, coord: nat): Dim
    requires Legal(a)
  {
    var size := LocalSize(a, coord);
    Dim(a.g, seq(size, l requires 0 <= l < size => Pick(a, l) as int), if size == 0 then 0 else coord * BlockSize(a))
  }

  // ----- one dimension -----

  lemma {:induction false} OwnerInGrid(a: Axis, x: nat)
    requires Legal(a) && x < a.g
    ensures Owner(a, x) < a.n
  {
    var b := BlockSize(a);
    if !a.dist.Cyclic? {
      assert b * a.n >= a.g by { if a.dist.Whole? { assert b * 1 == a.g; } }
      assert b * a.n == a.n * b;
      DivLess(x, b, a.n);
    }
  }

  lemma {:induction false} BlockOwned(a: Axis, coord: nat, x: nat)
    requires Legal(a) && !a.dist.Cyclic? && x < a.g
    ensures Owner(a, x) == coord <==> 0 <= x - coord * BlockSize(a) < LocalSize(a, coord)
  {
    var b := BlockSize(a);
    Digits(x, b, coord);
    assert b * coord == coord * b;
  }

  lemma {:induction false} Ordered(q: nat, k: nat, w: nat)
    requires q < k
    ensures q * w + w <= k * w
  {
    NotNegative(k - q - 1, w);
    assert (k - q - 1) * w == k * w - q * w - w;
  }

  lemma {:induction false} SpreadAt(b: nat, w: nat, q: nat, s: nat)
    requires s < b
    ensures Spread(q * b + s, b, w) == q * w + s
  {
    Digits(q * b + s, b, q);
  }

  /** The number of local indices is right: one is local exactly if it exists. */
  lemma {:induction false} LeftMeaning(left: nat, w: nat, b: nat, l: nat)
    requires 1 <= b <= w
    ensures l < Left(left, w, b) <==> Spread(l, b, w) < left
  {
    var k, r, q, s := left / w, left % w, l / b, l % b;
    assert left == k * w + r && l == q * b + s;
    if q < k {
      Ordered(q, k, w);
      Ordered(q, k, b);
    } else if q > k {
      Ordered(k, q, w);
      Ordered(k, q, b);
    }
  }

  lemma {:induction false} SpreadIncreases(b: nat, w: nat, l: nat, k: nat)
    requires 1 <= b <= w && l < k
    ensures Spread(l, b, w) < Spread(k, b, w)
  {
    var q, s, p, t := l / b, l % b, k / b, k % b;
    assert l == q * b + s && k == p * b + t;
    if q < p { Ordered(q, p, w); } else if q > p { Ordered(p, q, b); }
  }

  /** Who owns the index that is spread out. */
  lemma {:induction false} SpreadOwner(n: nat, b: nat, coord: nat, l: nat)
    requires n >= 1 && b >= 1 && coord < n
    ensures var x := coord * b + Spread(l, b, n * b); (x / b) % n == coord
  {
    var q, s := l / b, l % b;
    var y := q * n + coord;
    var x := coord * b + Spread(l, b, n * b);
    assert y * b == q * (n * b) + coord * b;
    Digits(x, b, y);
    Digits(y, n, q);
  }

  /** The place of an index among those of its owner. */
  function LocalIndex(n: nat, b: nat, x: nat): nat
    requires n >= 1 && b >= 1
  {
    var q: nat := (x / b) / n;
    q * b + x % b
  }

  /** Every index with that owner is one that is spread out. */
  lemma {:induction false} OwnedIsSpread(n: nat, b: nat, coord: nat, x: nat, w: nat)
    requires n >= 1 && b >= 1 && (x / b) % n == coord && w == n * b
    ensures x == coord * b + Spread(LocalIndex(n, b, x), b, w)
  {
    var y: nat, s: nat := x / b, x % b;
    var q: nat := y / n;
    SpreadAt(b, w, q, s);
    assert x == y * b + s && y == q * n + coord;
    assert y * b == q * (n * b) + coord * b;
  }

  lemma {:induction false} CyclicOwned(a: Axis, coord: nat, x: nat)
    requires Legal(a) && a.dist.Cyclic? && coord < a.n && x < a.g && Owner(a, x) == coord
    ensures exists l: nat :: l < LocalSize(a, coord) && x == coord * BlockSize(a) + Pick(a, l)
  {
    var b, n := BlockSize(a), a.n;
    var w, l := n * b, LocalIndex(n, b, x);
    OwnedIsSpread(n, b, coord, x, w);
    Product(n, b);
    assert LocalSize(a, coord) == CyclicSize(a.g, n, b, coord) && Pick(a, l) == Spread(l, b, w);
    hide Spread, Left, BlockSize, LocalIndex, LocalSize, Pick, Owner, Legal;
    LeftMeaning(a.g - coord * b, w, b, l);
    assert l < LocalSize(a, coord) && x == coord * BlockSize(a) + Pick(a, l);
  }

  lemma {:induction false} CyclicPicked(a: Axis, coord: nat, l: nat)
    requires Legal(a) && a.dist.Cyclic? && coord < a.n && l < LocalSize(a, coord)
    ensures var x := coord * BlockSize(a) + Pick(a, l); 0 <= x < a.g && Owner(a, x) == coord
  {
    var b, n := BlockSize(a), a.n;
    Product(n, b);
    NotNegative(coord, b);
    SpreadOwner(n, b, coord, l);
    hide Spread, Left, BlockSize;
    LeftMeaning(a.g - coord * b, n * b, b, l);
  }

  lemma {:induction false} PicksIncrease(a: Axis, l: nat, k: nat)
    requires Legal(a) && l < k
    ensures Pick(a, l) < Pick(a, k)
  {
    if a.dist.Cyclic? {
      Product(a.n, BlockSize(a));
      SpreadIncreases(BlockSize(a), a.n * BlockSize(a), l, k);
    }
  }

  /** Every process has exactly the indices that belong to it, in increasing order. */
  lemma {:induction false} OwnedExactly(a: Axis, coord: nat)
    requires Legal(a) && coord < a.n
    ensures InRange(DimOf(a, coord))
    ensures forall x: int :: x in DimOf(a, coord).Chosen() <==> 0 <= x < a.g && Owner(a, x) == coord
  {
    var d, size := DimOf(a, coord), LocalSize(a, coord);
    var chosen := d.Chosen();
    assert |chosen| == size && forall l :: 0 <= l < size ==> chosen[l] == coord * BlockSize(a) + Pick(a, l);
    hide LocalSize, Pick, Owner, DimOf, BlockSize;
    forall l, k | 0 <= l < k < size ensures chosen[l] < chosen[k] { PicksIncrease(a, l, k); }
    forall l | 0 <= l < size ensures 0 <= chosen[l] < a.g && Owner(a, chosen[l]) == coord { PickOwned(a, coord, l); }
    forall x: nat | x < a.g && Owner(a, x) == coord ensures x in chosen {
      OwnedPick(a, coord, x);
      var l: nat :| l < size && x == coord * BlockSize(a) + Pick(a, l);
      assert chosen[l] == x;
    }
  }

  lemma {:induction false} PickOwned(a: Axis, coord: nat, l: nat)
    requires Legal(a) && coord < a.n && l < LocalSize(a, coord)
    ensures var x := coord * BlockSize(a) + Pick(a, l); 0 <= x < a.g && Owner(a, x) == coord
  {
    if a.dist.Cyclic? {
      CyclicPicked(a, coord, l);
    } else {
      assert BlockSize(a) * coord == coord * BlockSize(a);
      BlockOwned(a, coord, coord * BlockSize(a) + l);
    }
  }

  lemma {:induction false} OwnedPick(a: Axis, coord: nat, x: nat)
    requires Legal(a) && coord < a.n && x < a.g && Owner(a, x) == coord
    ensures exists l: nat :: l < LocalSize(a, coord) && x == coord * BlockSize(a) + Pick(a, l)
  {
    if a.dist.Cyclic? {
      CyclicOwned(a, coord, x);
    } else {
      BlockOwned(a, coord, x);
      var l: nat := x - coord * BlockSize(a);
      assert x == coord * BlockSize(a) + Pick(a, l);
    }
  }
}
