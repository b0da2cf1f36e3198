/** When a distributed array of an ordinary datatype is right: what the exact condition
    comes to for a positive extent that repetition does not round. */
module TypeDarrayCases {
  import opened TypeMaps
  import opened TypeCreate
  import opened TypeBoxes
  import opened Distribution
  import opened GridPartition
  import opened TypeAxes
  import opened TypeDarray

  /** Repetition never rounds the extent. */
  predicate Tame(t: Layout) {
    t.Bounded() && Padless(t, t.Extent())
  }

  /** How many items the extent of the first k dimensions counts: a block is never resized,
      so it ends with its own last item. */
  function Owned(stored: seq<Axis>, coords: seq<nat>, k: nat): int
    requires AllLegal(stored) && |stored| == |coords| && k <= |stored|
  {
    if k == 0 then 1
    else if stored[k - 1].dist.Cyclic? then ArrayItems(stored[..k])
    else Owned(stored, coords, k - 1) + ArrayItems(stored[..k - 1]) * (LocalSize(stored[k - 1], coords[k - 1]) - 1)
  }

  /** In the dimensions directly inside dimension k, back to the last cyclic one, the process
      has every index. */
  predicate RunWhole(stored: seq<Axis>, coords: seq<nat>, k: nat)
    requires AllLegal(stored) && |stored| == |coords| && k <= |stored|
  {
    k == 0 || stored[k - 1].dist.Cyclic?
    || ((stored[k - 1].dist.Block? ==> LocalSize(stored[k - 1], coords[k - 1]) == stored[k - 1].g) && RunWhole(stored, coords, k - 1))
  }

  predicate AllRunsWhole(stored: seq<Axis>, coords: seq<nat>)
    requires AllLegal(stored) && |stored| == |coords|
  {
    forall k :: 0 <= k < |stored| && stored[k].dist.Cyclic? && BlockSize(stored[k]) > 1 && LocalSize(stored[k], coords[k]) > 1
      ==> RunWhole(stored, coords, k)
  }

  predicate HasItems(stored: seq<Axis>, coords: seq<nat>)
    requires AllLegal(stored) && |stored| == |coords|
  {
    forall k :: 0 <= k < |stored| ==> coords[k] < stored[k].n && LocalSize(stored[k], coords[k]) >= 1
  }

  lemma {:induction false} LocalAtMost(a: Axis, coord: nat)
    requires Legal(a) && coord < a.n
    ensures !a.dist.Cyclic? ==> LocalSize(a, coord) <= a.g
    ensures a.dist.Whole? ==> LocalSize(a, coord) == a.g
  {
    if a.dist.Whole? { assert BlockSize(a) * 0 == 0; }
  }

  lemma {:induction false} Multiple(k: nat, extent: int, align: int)
    requires align > 0 && extent % align == 0
    ensures (k * extent) % align == 0
    decreases k
  {
    if k > 0 {
      Multiple(k - 1, extent, align);
      assert k * extent == (k - 1) * extent + extent;
      var q, p := (k - 1) * extent / align, extent / align;
      assert (k - 1) * extent == q * align && extent == p * align;
      Digits(k * extent, align, q + p);
    } else {
      assert k * extent == 0;
    }
  }

  /** Extents are whole numbers of items. */
  lemma {:induction false} CopiesItems(x: nat, count: nat, row: nat, e: int, align: int, userUb: bool)
    requires e > 0 && align > 0 && (userUb || e % align == 0) && count >= 1
    ensures CopiesExtent(x * e, count, row * e, align, userUb) == (x + row * (count - 1)) * e
  {
    var all := x + row * (count - 1);
    assert row * e >= 0 && row * (count - 1) >= 0;
    assert x * e + (row * e) * (count - 1) == all * e;
    if !userUb {
      Multiple(all, e, align);
      assert all * e >= 0;
    }
  }

  lemma {:induction false} OwnedAtMost(stored: seq<Axis>, coords: seq<nat>, k: nat)
    requires AllLegal(stored) && |stored| == |coords| && k <= |stored| && HasItems(stored, coords)
    ensures 1 <= Owned(stored, coords, k) <= ArrayItems(stored[..k])
    ensures Owned(stored, coords, k) == ArrayItems(stored[..k]) <==> RunWhole(stored, coords, k)
  {
    if k == 0 {
      assert stored[..0] == [];
    } else {
      var a, size := stored[k - 1], LocalSize(stored[k - 1], coords[k - 1]);
      assert size >= 1 && coords[k - 1] < a.n && Legal(a);
      hide LocalSize, ArrayItems, AllLegal, Legal, HasItems;
      OwnedAtMost(stored, coords, k - 1);
      RowOf(stored, coords, k - 1);
      RowPositive(stored, k);
      LocalAtMost(a, coords[k - 1]);
      if !a.dist.Cyclic? { PartOfRows(Owned(stored, coords, k - 1), ArrayItems(stored[..k - 1]), size, a.g); }
    }
  }

  lemma {:induction false} PartOfRows(x: int, row: nat, size: nat, g: nat)
    requires 1 <= x <= row && 1 <= size <= g
    ensures 1 <= x + row * (size - 1) <= row * g
    ensures x + row * (size - 1) == row * g <==> x == row && size == g
  {
    var more := g - size;
    NotNegative(row, size - 1);
    assert row * g == row * (size - 1) + row + row * more;
    if more == 0 { assert row * more == 0; } else { Product(row, more); }
  }

  lemma {:induction false} OwnedExtent(stored: seq<Axis>, coords: seq<nat>, t: Layout, k: nat)
    requires AllLegal(stored) && |stored| == |coords| && k <= |stored| && HasItems(stored, coords)
    requires t.align > 0 && Tame(t) && t.Extent() > 0
    ensures RowExtent(stored, coords, t, k) == Owned(stored, coords, k) * t.Extent()
  {
    var e := t.Extent();
    if k == 0 {
      assert 1 * e == e;
    } else {
      var a, row, x := stored[k - 1], ArrayItems(stored[..k - 1]), Owned(stored, coords, k - 1);
      assert LocalSize(a, coords[k - 1]) >= 1 && Legal(a);
      RowOf(stored, coords, k - 1);
      OwnedAtMost(stored, coords, k - 1);
      OwnedExtent(stored, coords, t, k - 1);
      assert RowExtent(stored, coords, t, k) == NextExtent(a, coords[k - 1], row, e, x * e, t.align, t.userUb);
      assert Owned(stored, coords, k) == OwnedNext(a, coords[k - 1], row, x);
      hide LocalSize, ArrayItems, AllLegal, Legal, HasItems, NextExtent, RowExtent, Owned, OwnedNext;
      OwnedNextExtent(a, coords[k - 1], row, e, x, t.align, t.userUb);
    }
  }

  function OwnedNext(a: Axis, coord: nat, row: nat, x: int): int
    requires Legal(a)
  {
    if a.dist.Cyclic? then row * a.g else x + row * (LocalSize(a, coord) - 1)
  }

  lemma {:induction false} OwnedNextExtent(a: Axis, coord: nat, row: nat, e: int, x: int, align: int, userUb: bool)
    requires Legal(a) && LocalSize(a, coord) >= 1 && x >= 1 && e > 0 && align > 0 && (userUb || e % align == 0)
    ensures NextExtent(a, coord, row, e, x * e, align, userUb) == OwnedNext(a, coord, row, x) * e
  {
    hide LocalSize, CopiesExtent, Legal;
    if !a.dist.Cyclic? { CopiesItems(x, LocalSize(a, coord), row, e, align, userUb); }
  }

  lemma {:induction false} PositiveDistance(a: Axis, row: nat, e: int)
    requires Legal(a) && row >= 1 && e >= 1
    ensures row * e >= 1 && CyclicDistance(a, row, e) >= 1
  {
    Product(row, e);
    Product(a.n, BlockSize(a));
    Product(a.n * BlockSize(a), row * e);
  }

  lemma {:induction false} SameTimes(x: int, y: int, e: int)
    requires e > 0
    ensures x * e == y * e <==> x == y
  {
    assert x * e - y * e == (x - y) * e;
    if x != y { assert (x - y) * e != 0; }
  }

  lemma {:induction false} TameFitsAt(stored: seq<Axis>, coords: seq<nat>, t: Layout, k: nat)
    requires AllLegal(stored) && |stored| == |coords| && k < |stored| && HasItems(stored, coords)
    requires t.align > 0 && Tame(t) && t.Extent() > 0
    ensures FitsAt(stored, coords, t, k) <==>
      (stored[k].dist.Cyclic? && BlockSize(stored[k]) > 1 && LocalSize(stored[k], coords[k]) > 1 ==> RunWhole(stored, coords, k))
  {
    var row, e := ArrayItems(stored[..k]), t.Extent();
    OwnedExtent(stored, coords, t, k);
    OwnedAtMost(stored, coords, k);
    RowOf(stored, coords, k);
    assert Legal(stored[k]);
    hide LocalSize, ArrayItems, BlockSize, RowExtent, Owned, RunWhole, Tame, HasItems, CyclicDistance, Legal, AllLegal;
    PositiveDistance(stored[k], row, e);
    SameTimes(Owned(stored, coords, k), row, e);
  }

  /** For a process with items and an ordinary datatype, the array is right exactly if, inside
      each cyclic dimension of larger blocks in which the process has several indices, the
      process has every index of the dimensions back to the last cyclic one. */
  lemma {:induction false} TameFits(stored: seq<Axis>, coords: seq<nat>, t: Layout)
    requires AllLegal(stored) && |stored| == |coords| && HasItems(stored, coords)
    requires t.align > 0 && Tame(t) && t.Extent() > 0 && t.entries != []
    ensures RightUpTo(stored, coords, t, |stored|) <==> AllRunsWhole(stored, coords)
  {
    forall k | 0 <= k < |stored|
      ensures FitsAt(stored, coords, t, k) <==>
        (stored[k].dist.Cyclic? && BlockSize(stored[k]) > 1 && LocalSize(stored[k], coords[k]) > 1 ==> RunWhole(stored, coords, k))
    {
      TameFitsAt(stored, coords, t, k);
    }
    assert !NoneBelow(stored, coords, |stored|);
    hide FitsAt, LocalSize, BlockSize, RunWhole, Legal;
  }

  /** Blocks and rows of single items never spoil a dimension: without an extent of -1,
      the array is right if every cyclic dimension of larger blocks comes first or
      directly around a cyclic one. */
  lemma {:induction false} CyclicInsideFits(stored: seq<Axis>, coords: seq<nat>, t: Layout)
    requires AllLegal(stored) && |stored| == |coords| && t.align > 0 && t.Extent() != -1
    requires forall k :: 0 < k < |stored| && stored[k].dist.Cyclic? && BlockSize(stored[k]) > 1 ==> stored[k - 1].dist.Cyclic?
    ensures RightUpTo(stored, coords, t, |stored|)
  {
    forall k | 0 <= k < |stored| ensures FitsAt(stored, coords, t, k) {
      var row, e := ArrayItems(stored[..k]), t.Extent();
      RowOf(stored, coords, k);
      NeverMinusOne(stored[k], row, e);
      assert k == 0 ==> row == 1 && row * e == e by { assert stored[..0] == []; }
      if k > 0 { RowOf(stored, coords, k - 1); }
      hide LocalSize, ArrayItems, BlockSize, CyclicDistance;
    }
    hide FitsAt;
  }

  lemma {:induction false} NeverMinusOne(a: Axis, row: nat, e: int)
    requires Legal(a) && row >= 1 && e != -1
    ensures row * e != -1 && CyclicDistance(a, row, e) != -1
  {
    var w := a.n * BlockSize(a);
    assert e * row == row * e && (row * e) * w == w * (row * e);
    MinusOne(e, row);
    MinusOne(row * e, w);
  }

  // ----- a block inside a cyclic dimension -----

  /** The extent is that of whole rows, and rounding does not change it. */
  predicate Regular(t: Layout, extent: int, row: nat) {
    t.Bounded() && t.Extent() == row * extent && Padless(t, extent)
  }

  /** A block is as long as the items of this process, not as the dimension: a cyclic
      dimension of blocks of several items around it is right exactly if this process
      has the whole inner dimension. */
  lemma {:induction false} BlockInsideCyclic(
    t: Layout, extent: int, row: nat, inner: Axis, coord: nat, first: bool, outer: Axis, outerCoord: nat)
    requires Legal(inner) && inner.dist.Block? && coord < inner.n && LocalSize(inner, coord) >= 1
    requires Legal(outer) && outer.dist.Cyclic? && BlockSize(outer) > 1 && LocalSize(outer, outerCoord) > 1
    requires Regular(t, extent, row) && extent > 0 && row >= 1 && Sound(t) && t.kind == Data && t.entries != []
    requires first ==> row == 1
    ensures var b := BlockLayout(t, LocalSize(inner, coord), row * extent, first);
      CyclicFits(b.entries, outer, outerCoord, row * inner.g, extent, b.Extent()) <==> LocalSize(inner, coord) == inner.g
  {
    var size := LocalSize(inner, coord);
    var b := BlockLayout(t, size, row * extent, first);
    assert first ==> row * extent == extent;
    BlockMade(inner, coord, row, extent, first, t);
    PositiveDistance(inner, row, extent);
    assert b.entries != [] && AxisFits(inner, coord, row, extent, first, t.Extent());
    hide BlockLayout, LocalSize, BlockSize, CyclicDistance, CopiesExtent, AxisMade, Sound;
    CopiesItems(row, size, row, extent, t.align, t.userUb);
    assert b.Extent() == CopiesExtent(row * extent, size, row * extent, t.align, t.userUb);
    WholeRows(row, size, inner.g, extent);
  }

  lemma {:induction false} WholeRows(row: nat, size: nat, g: nat, e: int)
    requires e > 0 && row >= 1
    ensures (row + row * (size - 1)) * e == (row * g) * e <==> size == g
  {
    SameTimes(row + row * (size - 1), row * g, e);
    SameTimes(size, g, row);
    assert row + row * (size - 1) == size * row && row * g == g * row;
  }

  /** Single bytes, two rows of two: the first process has the first of each row, and the
      rows of its block are made one byte apart and not two. */
  lemma {:induction false} BlockThenCyclic(prim: Prim)
    ensures
      var inner, outer := Axis(Block, 2, 2, Default), Axis(Cyclic, 2, 1, Explicit(2));
      var t := Layout(Data, [Entry(prim, 0)], Some(0), Some(1), false, false, 1);
      var row := BlockLayout(t, LocalSize(inner, 0), 1, true);
      && AllLegal([inner, outer]) && Sound(t)
      && Procs(GridOf([inner, outer])) == 2 && !RankFits([inner, outer], 0, false, t)
      && Place(t.entries, Scaled(ItemsOfRank([inner, outer], 0, false), t.Extent())) == [Entry(prim, 0), Entry(prim, 2)]
      && CyclicEntries(row, LocalSize(outer, 0), BlockSize(outer), CyclicDistance(outer, 2, 1)) == [Entry(prim, 0), Entry(prim, 1)]
  {
    var inner, outer := Axis(Block, 2, 2, Default), Axis(Cyclic, 2, 1, Explicit(2));
    var axes := [inner, outer];
    var t := Layout(Data, [Entry(prim, 0)], Some(0), Some(1), false, false, 1);
    assert BlockSize(inner) == 1 && LocalSize(inner, 0) == 1;
    assert BlockSize(outer) == 2 && LocalSize(outer, 0) == 2 && CyclicDistance(outer, 2, 1) == 4;
    assert Legal(inner) && Legal(outer);
    assert GridOf(axes) == [2, 1];
    FirstOfTwo();
    assert Tame(t);
    hide Procs, Coords, LocalSize, BlockSize, Place, Box, Scaled, CyclicEntries, BlockLayout, CyclicDistance, Legal, RankFits, Tame;
    FirstMisfits(axes, t);
    FirstItems(axes);
    TwoPlaces(Entry(prim, 0), 2);
    RowsTouch(t, prim);
  }

  lemma {:induction false} FirstOfTwo()
    ensures Procs([2, 1]) == 2 && Positive([2, 1]) && Coords(0, [2, 1]) == [0, 0]
  {
    assert [2, 1][1..] == [1] && [1][1..] == [];
    assert Procs([1]) == 1 && Coords(0, [1]) == [0];
  }

  lemma {:induction false} NotWhole(axes: seq<Axis>, mine: seq<nat>, t: Layout)
    requires AllLegal(axes) && |axes| == 2 && mine == [0, 0]
    requires axes[0].dist.Block? && axes[0].g > LocalSize(axes[0], 0) >= 1
    requires axes[1].dist.Cyclic? && BlockSize(axes[1]) > 1 && LocalSize(axes[1], 0) > 1
    requires t.align > 0 && Tame(t) && t.Extent() > 0 && t.entries != []
    ensures !RightUpTo(axes, mine, t, 2)
  {
    assert axes[0].n >= 1 && axes[1].n >= 1;
    hide LocalSize, BlockSize, Legal, RightUpTo;
    assert HasItems(axes, mine);
    TameFits(axes, mine, t);
    assert !RunWhole(axes, mine, 1);
  }

  lemma {:induction false} FirstMisfits(axes: seq<Axis>, t: Layout)
    requires AllLegal(axes) && |axes| == 2 && Procs(GridOf(axes)) > 0
    requires Positive(GridOf(axes)) && Coords(0, GridOf(axes)) == [0, 0]
    requires axes[0].dist.Block? && axes[0].g > LocalSize(axes[0], 0) >= 1
    requires axes[1].dist.Cyclic? && BlockSize(axes[1]) > 1 && LocalSize(axes[1], 0) > 1
    requires t.align > 0 && Tame(t) && t.Extent() > 0 && t.entries != []
    ensures !RankFits(axes, 0, false, t)
  {
    var mine := Coords(0, GridOf(axes));
    assert Reordered(axes, false) == axes && Reordered(mine, false) == mine;
    hide Procs, Coords, LocalSize, BlockSize, Legal, Reordered, RightUpTo;
    NotWhole(axes, mine, t);
  }

  lemma {:induction false} FirstItems(axes: seq<Axis>)
    requires AllLegal(axes) && |axes| == 2 && axes[0].g == 2 && Procs(GridOf(axes)) > 0
    requires Positive(GridOf(axes)) && Coords(0, GridOf(axes)) == [0, 0]
    requires DimOf(axes[0], 0) == Dim(2, Arith(0, 1, 1), 0) && DimOf(axes[1], 0) == Dim(2, Arith(0, 1, 2), 0)
    ensures Scaled(ItemsOfRank(axes, 0, false), 1) == Arith(0, 2, 2)
  {
    var mine := Coords(0, GridOf(axes));
    assert Reordered(axes, false) == axes && Reordered(mine, false) == mine;
    hide DimOf, Procs, Coords, Box, Scaled, Arith, Legal, Reordered;
    FirstOfRows(DimsOf(axes, mine));
  }

  lemma {:induction false} FirstOfRows(dims: seq<Dim>)
    requires |dims| == 2 && dims[0] == Dim(2, Arith(0, 1, 1), 0) && dims[1] == Dim(2, Arith(0, 1, 2), 0)
    ensures Scaled(Box(dims), 1) == Arith(0, 2, 2)
  {
    assert Arith(0, 1, 1) == [0] && dims[..2] == dims;
    hide *;
    FirstDim(dims, 1);
    NextDim(dims, 1, 1);
    ScaledArith(0, 1, 1, 1);
    ScaledArith(0, 1, 2, 2);
    LastDimOnly(dims, 1);
  }

  /** The first item of a row of single bytes, and two of them in a block. */
  lemma {:induction false} RowsTouch(t: Layout, prim: Prim)
    requires t == Layout(Data, [Entry(prim, 0)], Some(0), Some(1), false, false, 1)
    ensures CyclicEntries(BlockLayout(t, 1, 1, true), 2, 2, 4) == [Entry(prim, 0), Entry(prim, 1)]
  {
    var row := BlockLayout(t, 1, 1, true);
    AddedToNew(t, 1, 0, 1);
    assert Arith(0, 1, 1) == [0];
    PlaceHere(t.entries);
    assert row.entries == t.entries && row.Extent() == 1;
    AddedToNew(row, 2, 0, 1);
    TwoPlaces(Entry(prim, 0), 1);
    PlaceNone(row.entries, 4, 1);
  }
}
