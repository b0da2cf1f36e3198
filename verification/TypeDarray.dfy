/** Distributed arrays as datatypes: the items of one rank of the process grid. */
module TypeDarray {
  import opened TypeMaps
  import opened TypeCreate
  import opened TypeBoxes
  import opened TypeSubarray
  import opened Distribution
  import opened GridPartition
  import opened TypeAxes

  // ----- when the whole array comes out right -----

  /** The extent of the first k dimensions in storage order, while they are right. */
  function RowExtent(stored: seq<Axis>, coords: seq<nat>, t: Layout, k: nat): int
    requires AllLegal(stored) && |stored| == |coords| && k <= |stored| && t.align > 0
  {
    if k == 0 then t.Extent()
    else
      NextExtent(stored[k - 1], coords[k - 1], ArrayItems(stored[..k - 1]), t.Extent(), RowExtent(stored, coords, t, k - 1),
                 t.align, t.userUb)
  }

  predicate FitsAt(stored: seq<Axis>, coords: seq<nat>, t: Layout, k: nat)
    requires AllLegal(stored) && |stored| == |coords| && k < |stored| && t.align > 0
  {
    AxisFits(stored[k], coords[k], ArrayItems(stored[..k]), t.Extent(), k == 0, RowExtent(stored, coords, t, k))
  }

  predicate FitsBelow(stored: seq<Axis>, coords: seq<nat>, t: Layout, n: nat)
    requires AllLegal(stored) && |stored| == |coords| && n <= |stored| && t.align > 0
  {
    forall k :: 0 <= k < n ==> FitsAt(stored, coords, t, k)
  }

  /** The process has no index in some dimension, so it has no items. */
  predicate NoneBelow(stored: seq<Axis>, coords: seq<nat>, n: nat)
    requires AllLegal(stored) && |stored| == |coords| && n <= |stored|
  {
    exists k :: 0 <= k < n && LocalSize(stored[k], coords[k]) == 0
  }

  predicate RightUpTo(stored: seq<Axis>, coords: seq<nat>, t: Layout, n: nat)
    requires AllLegal(stored) && |stored| == |coords| && n <= |stored| && t.align > 0
  {
    t.entries == [] || NoneBelow(stored, coords, n) || FitsBelow(stored, coords, t, n)
  }

  /** The dimensions of a rank are right around one another, or leave it no items. */
  ghost predicate RankFits(axes: seq<Axis>, rank: nat, orderC: bool, t: Layout)
    requires AllLegal(axes) && rank < Procs(GridOf(axes)) && t.align > 0
  {
    RankFacts(axes, rank, orderC);
    RightUpTo(Reordered(axes, orderC), Reordered(Coords(rank, GridOf(axes)), orderC), t, |axes|)
  }

  /** The type of the first k dimensions in storage order: as many entries as there should
      be, and the right ones exactly in the case that the predicate names. */
  ghost predicate MadeUpTo(t: Layout, stored: seq<Axis>, coords: seq<nat>, old': Layout, k: nat)
    requires AllLegal(stored) && |stored| == |coords| && k <= |stored| && old'.align > 0
  {
    && Tells(t.entries, Place(old'.entries, OriginBytes(DimsOf(stored, coords)[..k], old'.Extent())), RightUpTo(stored, coords, old', k))
    && (t.entries == [] <==> old'.entries == [] || NoneBelow(stored, coords, k))
    && (t.entries != [] ==>
          && t.align == old'.align && t.userUb == old'.userUb
          && (FitsBelow(stored, coords, old', k) ==> t.Extent() == RowExtent(stored, coords, old', k)))
    && (k == 0 ==> t == old')
  }

  lemma {:induction false} MadeAtStart(stored: seq<Axis>, coords: seq<nat>, t: Layout)
    requires AllLegal(stored) && |stored| == |coords| && t.align > 0
    ensures MadeUpTo(t, stored, coords, t, 0)
  {
    PlaceHere(t.entries);
    assert DimsOf(stored, coords)[..0] == [];
  }

  lemma {:induction false} RowOf(stored: seq<Axis>, coords: seq<nat>, k: nat)
    requires AllLegal(stored) && |stored| == |coords| && k < |stored|
    ensures Items(DimsOf(stored, coords)[..k]) == ArrayItems(stored[..k]) >= 1
    ensures ArrayItems(stored[..k + 1]) == ArrayItems(stored[..k]) * stored[k].g
  {
    assert DimsOf(stored, coords)[..k] == DimsOf(stored[..k], coords[..k]);
    DimsItems(stored[..k], coords[..k]);
    assert stored[..k + 1][..k] == stored[..k];
  }

  /** What happens to the case with one more dimension. */
  lemma {:induction false} CaseNext(stored: seq<Axis>, coords: seq<nat>, t: Layout, k: nat)
    requires AllLegal(stored) && |stored| == |coords| && k < |stored| && t.align > 0
    ensures NoneBelow(stored, coords, k + 1) <==> NoneBelow(stored, coords, k) || LocalSize(stored[k], coords[k]) == 0
    ensures FitsBelow(stored, coords, t, k + 1) <==> FitsBelow(stored, coords, t, k) && FitsAt(stored, coords, t, k)
  {
    hide FitsAt, LocalSize, AllLegal;
  }

  /** The entries that there should be with one more dimension. */
  lemma {:induction false} RightNext(stored: seq<Axis>, coords: seq<nat>, old': Layout, k: nat)
    requires AllLegal(stored) && |stored| == |coords| && k < |stored|
    ensures
      var a, e, dims := stored[k], old'.Extent(), DimsOf(stored, coords);
      var picks := Scaled(DimOf(a, coords[k]).picks, ArrayItems(stored[..k]) * e);
      && Legal(a) && |picks| == LocalSize(a, coords[k]) && (picks != [] ==> picks[0] == 0)
      && Place(old'.entries, OriginBytes(dims[..k + 1], e)) == Place(Place(old'.entries, OriginBytes(dims[..k], e)), picks)
  {
    var a, e, dims := stored[k], old'.Extent(), DimsOf(stored, coords);
    assert Legal(a) && dims[k] == DimOf(a, coords[k]);
    RowOf(stored, coords, k);
    hide Items, OriginBytes, Place, DimOf, LocalSize, DimsOf, ArrayItems, Combine, AllLegal, Legal;
    NextDim(dims, k, e);
    FirstPick(a, coords[k]);
    assert dims[k].picks != [] ==> 0 * (ArrayItems(stored[..k]) * e) == 0;
    PlaceTwice(old'.entries, OriginBytes(dims[..k], e), Scaled(dims[k].picks, ArrayItems(stored[..k]) * e));
  }

  lemma {:induction false} FirstPick(a: Axis, coord: nat)
    requires Legal(a)
    ensures |DimOf(a, coord).picks| == LocalSize(a, coord)
    ensures LocalSize(a, coord) >= 1 ==> DimOf(a, coord).picks[0] == 0
  {
    hide LocalSize;
    if LocalSize(a, coord) >= 1 {
      assert DimOf(a, coord).picks[0] == Pick(a, 0);
      if a.dist.Cyclic? { SpreadAt(BlockSize(a), a.n * BlockSize(a), 0, 0); }
    }
  }

  /** One more dimension: right entries stay right exactly if it fits, and wrong ones stay
      wrong, since the new type begins with them. */
  lemma {:induction false} MadeMore(
    t: Layout, t': Layout, stored: seq<Axis>, coords: seq<nat>, old': Layout, k: nat)
    requires AllLegal(stored) && |stored| == |coords| && k < |stored| && old'.align > 0 && MadeUpTo(t, stored, coords, old', k)
    requires AxisMade(stored[k], coords[k], ArrayItems(stored[..k]), old'.Extent(), k == 0, t, t')
    ensures MadeUpTo(t', stored, coords, old', k + 1)
  {
    var a, e, dims := stored[k], old'.Extent(), DimsOf(stored, coords);
    var before, right := Place(old'.entries, OriginBytes(dims[..k], e)), Place(old'.entries, OriginBytes(dims[..k + 1], e));
    var picks := Scaled(DimOf(a, coords[k]).picks, ArrayItems(stored[..k]) * e);
    RightNext(stored, coords, old', k);
    CaseNext(stored, coords, old', k);
    PlaceSize(before, picks);
    if picks != [] { PlaceHead(before, picks); }
    hide Items, OriginBytes, Place, DimOf, LocalSize, DimsOf, ArrayItems, Legal, AllLegal, NoneBelow, FitsBelow;
    NextEntries(t.entries, t'.entries, before, right, picks);
  }

  lemma {:induction false} NextEntries(t: seq<Entry>, t': seq<Entry>, before: seq<Entry>, right: seq<Entry>, picks: seq<int>)
    requires right == Place(before, picks) && |right| == |before| * |picks| && (picks != [] ==> before <= right)
    requires |t| == |before| && |t'| == |t| * |picks| && (picks != [] ==> t <= t')
    ensures |t'| == |right| && (t' == [] <==> t == [] || picks == [])
    ensures t != before && picks != [] ==> t' != right
    ensures t == before ==> (t' == right <==> t' == Place(t, picks))
  {
    if t != before && picks != [] { DifferentHeads(t, before, t', right); }
    if picks == [] { assert |t'| == 0; } else if t == [] { assert |t'| == 0 * |picks| == 0; } else { assert |t'| >= |t|; }
  }

  // ----- the loops over the dimensions -----

  /** The product of the sizes of the dimensions faster than dimension i. */
  method RowItems(axes: seq<Axis>, i: nat, orderC: bool, ghost k: nat) returns (row: nat)
    requires i < |axes| && i == ArrayIndex(k, |axes|, orderC) && AllLegal(Reordered(axes, orderC))
    ensures row == ArrayItems(Reordered(axes, orderC)[..k]) >= 1
  {
    ghost var stored := Reordered(axes, orderC);
    row := 1;
    var j, step := 0, 1;
    if orderC {
      j, step := |axes| - 1, -1;
    }
    ghost var l := 0;
    assert stored[..0] == [];
    while j != i
      invariant 0 <= l <= k && j == ArrayIndex(l, |axes|, orderC)
      invariant row == ArrayItems(stored[..l])
      decreases k - l
    {
      assert stored[..l + 1][..l] == stored[..l];
      row := row * axes[j].g;
      j, l := j + step, l + 1;
    }
    RowPositive(stored, k);
  }

  lemma {:induction false} RowPositive(stored: seq<Axis>, k: nat)
    requires AllLegal(stored) && k <= |stored|
    ensures ArrayItems(stored[..k]) >= 1
  {
    DimsItems(stored[..k], seq(k, _ => 0));
  }

  /** The type of one more dimension, and where its first index is. */
  method AxisType(a: Axis, coord: nat, row: nat, extent: int, first: bool, typeOld: Type) returns (newType: Type, offset: int)
    requires Legal(a) && typeOld.Valid() && typeOld.kind == Data && (first ==> row == 1 && typeOld.Value().Extent() == extent)
    ensures fresh(newType) && newType.Valid() && newType.kind == Data && offset == DimOf(a, coord).start
    ensures AxisMade(a, coord, row, extent, first, typeOld.Value(), newType.Value())
  {
    hide DimOf, Extended, Sound, BlockSize, AxisMade;
    if a.dist.Cyclic? {
      newType, offset := CyclicType(a, coord, row, extent, typeOld);
    } else {
      newType, offset := BlockType(a, coord, row, extent, first, typeOld);
    }
  }

  /** The types of all dimensions, one around the other. */
  method BuildAxes(axes: seq<Axis>, coords: seq<nat>, orderC: bool, extent: int, oldType: Type, ghost mine: seq<nat>)
    returns (lastType: Type, offsets: array<int>)
    requires axes != [] && AllLegal(axes) && AllLegal(Reordered(axes, orderC)) && |coords| == |axes|
    requires InGrid(coords, GridOf(axes)) && mine == Reordered(coords, orderC)
    requires oldType.Valid() && oldType.kind == Data && extent == oldType.Value().Extent()
    ensures fresh(lastType) && lastType.Valid() && lastType.kind == Data
    ensures MadeUpTo(lastType.Value(), Reordered(axes, orderC), mine, oldType.Value(), |axes|)
    ensures fresh(offsets) && offsets.Length == |axes|
    ensures Reordered(offsets[..], orderC) == Starts(DimsOf(Reordered(axes, orderC), mine))
  {
    ghost var stored := Reordered(axes, orderC);
    ghost var dims := DimsOf(stored, mine);
    var ndims := |axes|;
    offsets := new int[ndims](_ => 0);
    lastType := new Type.Copy(oldType);
    MadeAtStart(stored, mine, oldType.Value());
    assert oldType.align > 0;
    assert StartsUpTo(offsets[..], orderC, dims, 0);
    hide *;
    var k := 0;
    while k < ndims
      invariant 0 <= k <= ndims
      invariant fresh(lastType) && lastType.Valid() && lastType.kind == Data
      invariant MadeUpTo(lastType.Value(), stored, mine, oldType.Value(), k)
      invariant StartsUpTo(offsets[..], orderC, dims, k)
    {
      lastType := BuildAxis(axes, coords, orderC, extent, oldType, lastType, offsets, k, mine);
      k := k + 1;
    }
    AllStarts(offsets[..], orderC, dims);
  }

  ghost predicate StartsUpTo(offsets: seq<int>, orderC: bool, dims: seq<Dim>, k: nat)
    requires |offsets| == |dims| && k <= |dims|
  {
    forall l :: 0 <= l < k ==> offsets[IndexAt(l, |dims|, orderC)] == dims[l].start
  }

  lemma {:induction false} StartsMore(before: seq<int>, after: seq<int>, orderC: bool, dims: seq<Dim>, k: nat)
    requires |before| == |after| == |dims| && k < |dims| && StartsUpTo(before, orderC, dims, k)
    requires after[IndexAt(k, |dims|, orderC)] == dims[k].start
    requires forall j :: 0 <= j < |dims| && j != IndexAt(k, |dims|, orderC) ==> after[j] == before[j]
    ensures StartsUpTo(after, orderC, dims, k + 1)
  {
  }

  lemma {:induction false} AllStarts(offsets: seq<int>, orderC: bool, dims: seq<Dim>)
    requires |offsets| == |dims| && StartsUpTo(offsets, orderC, dims, |dims|)
    ensures Reordered(offsets, orderC) == Starts(dims)
  {
    forall l | 0 <= l < |dims| ensures offsets[ArrayIndex(l, |dims|, orderC)] == dims[l].start {
      assert offsets[IndexAt(l, |dims|, orderC)] == dims[l].start;
    }
    StartsInOrder(offsets, orderC, dims);
  }

  lemma {:induction false} StartsInOrder(offsets: seq<int>, orderC: bool, dims: seq<Dim>)
    requires |offsets| == |dims|
    ensures Reordered(offsets, orderC) == Starts(dims)
      <==> forall l :: 0 <= l < |dims| ==> offsets[ArrayIndex(l, |dims|, orderC)] == dims[l].start
  {
    forall l | 0 <= l < |dims| ensures Reordered(offsets, orderC)[l] == offsets[ArrayIndex(l, |dims|, orderC)] {}
  }

  /** The next dimension. */
  method BuildAxis(
    axes: seq<Axis>, coords: seq<nat>, orderC: bool, extent: int, oldType: Type, lastType: Type, offsets: array<int>,
    k: nat, ghost mine: seq<nat>)
    returns (newType: Type)
    requires AllLegal(axes) && AllLegal(Reordered(axes, orderC)) && |coords| == |axes| == offsets.Length
    requires InGrid(coords, GridOf(axes)) && mine == Reordered(coords, orderC)
    requires lastType.Valid() && lastType.kind == Data && extent == oldType.Value().Extent() && oldType.align > 0
    requires k < |axes| && StartsUpTo(offsets[..], orderC, DimsOf(Reordered(axes, orderC), mine), k)
    requires MadeUpTo(lastType.Value(), Reordered(axes, orderC), mine, oldType.Value(), k)
    modifies offsets
    ensures fresh(newType) && newType.Valid() && newType.kind == Data
    ensures MadeUpTo(newType.Value(), Reordered(axes, orderC), mine, oldType.Value(), k + 1)
    ensures StartsUpTo(offsets[..], orderC, DimsOf(Reordered(axes, orderC), mine), k + 1)
  {
    ghost var was := offsets[..];
    var i := IndexAt(k, |axes|, orderC);
    ghost var stored, t, before := Reordered(axes, orderC), lastType.Value(), oldType.Value();
    AxisAt(axes, coords, orderC, i, k);
    var row := RowItems(axes, i, orderC, k);
    assert k == 0 ==> row == 1 by { assert stored[..0] == []; }
    var first := if orderC then i == |axes| - 1 else i == 0;
    var offset;
    assert first <==> k == 0;
    assert k == 0 ==> t == before;
    hide Sound, MadeUpTo, AxisMade, DimOf, Legal, AllLegal, Reordered, ArrayItems, InGrid, GridOf, StartsUpTo, DimsOf, IndexAt;
    newType, offset := AxisType(axes[i], coords[i], row, extent, first, lastType);
    MadeMore(t, newType.Value(), stored, mine, before, k);
    DimsOfAt(stored, mine, k);
    offsets[i] := offset;
    StartsMore(was, offsets[..], orderC, DimsOf(stored, mine), k);
  }

  lemma {:induction false} DimsOfAt(stored: seq<Axis>, mine: seq<nat>, k: nat)
    requires AllLegal(stored) && |stored| == |mine| && k < |stored|
    ensures Legal(stored[k]) && DimsOf(stored, mine)[k] == DimOf(stored[k], mine[k])
  {
  }

  lemma {:induction false} AxisAt(axes: seq<Axis>, coords: seq<nat>, orderC: bool, i: nat, k: nat)
    requires AllLegal(axes) && InGrid(coords, GridOf(axes)) && k < |axes| && i == ArrayIndex(k, |axes|, orderC)
    ensures |Reordered(axes, orderC)| == |Reordered(coords, orderC)| == |axes|
    ensures Reordered(axes, orderC)[k] == axes[i] && Reordered(coords, orderC)[k] == coords[i] && Legal(axes[i]) && coords[i] < axes[i].n
  {
  }

  function Starts(dims: seq<Dim>): (r: seq<int>)
    ensures |r| == |dims| && forall k :: 0 <= k < |dims| ==> r[k] == dims[k].start
  {
    seq(|dims|, k requires 0 <= k < |dims| => dims[k].start)
  }

  lemma {:induction false} OffsetStep(dims: seq<Dim>, k: nat)
    requires 1 <= k < |dims|
    ensures Items(dims[..k]) == Items(dims[..k - 1]) * dims[k - 1].size
    ensures Displacement(dims[..k + 1]) == Displacement(dims[..k]) + Items(dims[..k]) * dims[k].start
  {
    NextDim(dims, k - 1, 0);
    NextDim(dims, k, 0);
  }

  /** The displacement of the first item of the rank. */
  method OffsetOf(axes: seq<Axis>, offsets: seq<int>, orderC: bool, ghost dims: seq<Dim>) returns (displ: int)
    requires |offsets| == |axes| == |dims| >= 1
    requires Reordered(offsets, orderC) == Starts(dims)
    requires forall k :: 0 <= k < |dims| ==> dims[k].size == Reordered(axes, orderC)[k].g
    ensures displ == Displacement(dims)
  {
    FirstDim(dims, 0);
    assert dims[..0] == [] && Items(dims[..0]) == 1 && dims[..|dims|] == dims;
    IndexFacts(axes, offsets, orderC, dims, 0);
    hide Items, Displacement, Reordered, Starts, OriginBytes, ArrayIndex;
    displ := offsets[IndexAt(0, |axes|, orderC)];
    var tmpSize, k := 1, 1;
    while k < |axes|
      invariant 1 <= k <= |axes|
      invariant tmpSize == Items(dims[..k - 1]) && displ == Displacement(dims[..k])
    {
      OffsetStep(dims, k);
      IndexFacts(axes, offsets, orderC, dims, k - 1);
      IndexFacts(axes, offsets, orderC, dims, k);
      var last, start := axes[IndexAt(k - 1, |axes|, orderC)].g, offsets[IndexAt(k, |axes|, orderC)];
      tmpSize := tmpSize * last;
      displ := displ + tmpSize * start;
      k := k + 1;
    }
  }

  lemma {:induction false} IndexFacts(axes: seq<Axis>, offsets: seq<int>, orderC: bool, dims: seq<Dim>, k: nat)
    requires |offsets| == |axes| == |dims| && k < |dims|
    requires Reordered(offsets, orderC) == Starts(dims)
    requires forall k :: 0 <= k < |dims| ==> dims[k].size == Reordered(axes, orderC)[k].g
    ensures offsets[IndexAt(k, |axes|, orderC)] == dims[k].start && axes[IndexAt(k, |axes|, orderC)].g == dims[k].size
  {
    StartsInOrder(offsets, orderC, dims);
    SizesInOrder(axes, orderC, dims);
    hide Reordered, Starts;
  }

  /** The index of the k-th dimension in storage order. */
  function IndexAt(k: nat, ndims: nat, orderC: bool): (i: nat)
    requires k < ndims
    ensures i == ArrayIndex(k, ndims, orderC) && i < ndims
  {
    if orderC then ndims - 1 - k else k
  }

  lemma {:induction false} SizesInOrder(axes: seq<Axis>, orderC: bool, dims: seq<Dim>)
    requires |axes| == |dims| && forall k :: 0 <= k < |dims| ==> dims[k].size == Reordered(axes, orderC)[k].g
    ensures forall l :: 0 <= l < |dims| ==> axes[ArrayIndex(l, |dims|, orderC)].g == dims[l].size
  {
    forall l | 0 <= l < |dims| ensures axes[ArrayIndex(l, |dims|, orderC)].g == dims[l].size {
      assert Reordered(axes, orderC)[l] == axes[ArrayIndex(l, |dims|, orderC)];
    }
  }

  // ----- the size of the array does not depend on the order -----

  lemma {:induction false} ItemsFromFront(a: Axis, axes: seq<Axis>)
    ensures ArrayItems([a] + axes) == a.g * ArrayItems(axes)
    decreases |axes|
  {
    if axes == [] {
      assert [a] + axes == [a] && [a][..0] == [];
    } else {
      var n := |axes| - 1;
      ItemsFromFront(a, axes[..n]);
      assert ([a] + axes)[..n + 1] == [a] + axes[..n];
      assert a.g * ArrayItems(axes[..n]) * axes[n].g == a.g * (ArrayItems(axes[..n]) * axes[n].g);
    }
  }

  lemma {:induction false} ItemsAnyOrder(axes: seq<Axis>, orderC: bool)
    ensures ArrayItems(Reordered(axes, orderC)) == ArrayItems(axes)
    decreases |axes|
  {
    var r := Reordered(axes, orderC);
    if !orderC || axes == [] {
      assert r == axes;
    } else {
      var n := |axes| - 1;
      ItemsAnyOrder(axes[..n], true);
      assert r == [axes[n]] + Reordered(axes[..n], true);
      ItemsFromFront(axes[n], Reordered(axes[..n], true));
    }
  }

  /** The product of all sizes. */
  method AllItems(axes: seq<Axis>) returns (items: nat)
    ensures items == ArrayItems(axes)
  {
    items := 1;
    var i := 0;
    assert axes[..0] == [];
    while i < |axes|
      invariant 0 <= i <= |axes| && items == ArrayItems(axes[..i])
    {
      assert axes[..i + 1][..i] == axes[..i];
      items := items * axes[i].g;
      i := i + 1;
    }
    assert axes[..i] == axes;
  }

  // ----- the constructor -----

  lemma {:induction false} RankFacts(axes: seq<Axis>, rank: nat, orderC: bool)
    requires AllLegal(axes) && rank < Procs(GridOf(axes))
    ensures Positive(GridOf(axes)) && InGrid(Coords(rank, GridOf(axes)), GridOf(axes)) && AllLegal(Reordered(axes, orderC))
    ensures
      var mine := Reordered(Coords(rank, GridOf(axes)), orderC);
      && ItemsOfRank(axes, rank, orderC) == Box(DimsOf(Reordered(axes, orderC), mine))
      && Items(DimsOf(Reordered(axes, orderC), mine)) == ArrayItems(axes)
      && forall k :: 0 <= k < |axes| ==> DimsOf(Reordered(axes, orderC), mine)[k].size == Reordered(axes, orderC)[k].g
  {
    CoordsInGrid(rank, GridOf(axes));
    ItemsAnyOrder(axes, orderC);
    DimsItems(Reordered(axes, orderC), Reordered(Coords(rank, GridOf(axes)), orderC));
    hide Box, Items, ArrayItems, InGrid, Coords, Procs, LocalSize, Pick;
  }

  /** The items of one rank: exactly those the partition gives it, row after row, if and
      only if there are none or every dimension fits around the faster ones. */
  method CreateDarray(size: nat, rank: nat, axes: seq<Axis>, orderC: bool, oldType: Type) returns (newType: Type)
    requires AllLegal(axes) && size == Procs(GridOf(axes)) && rank < size
    requires oldType.Valid() && oldType.kind == Data
    ensures fresh(newType) && newType.Valid()
    ensures axes == [] ==> newType.entries == []
    ensures axes != [] ==> newType.lb == Some(0) && newType.ub == Some(ArrayItems(axes) * oldType.Value().Extent())
    ensures axes != [] ==>
      (newType.entries == Place(oldType.entries, Scaled(ItemsOfRank(axes, rank, orderC), oldType.Value().Extent()))
       <==> RankFits(axes, rank, orderC, oldType.Value()))
  {
    if |axes| < 1 {
      newType := new Type();
      return;
    }
    RankFacts(axes, rank, orderC);
    newType := DarrayOfRank(size, rank, axes, orderC, oldType);
  }

  method DarrayOfRank(size: nat, rank: nat, axes: seq<Axis>, orderC: bool, oldType: Type) returns (newType: Type)
    requires AllLegal(axes) && size == Procs(GridOf(axes)) && rank < size && axes != []
    requires oldType.Valid() && oldType.kind == Data
    ensures fresh(newType) && newType.Valid()
    ensures newType.lb == Some(0) && newType.ub == Some(ArrayItems(axes) * oldType.Value().Extent())
    ensures newType.entries == Place(oldType.entries, Scaled(ItemsOfRank(axes, rank, orderC), oldType.Value().Extent()))
      <==> RankFits(axes, rank, orderC, oldType.Value())
  {
    var extent := oldType.Value().Extent();
    var lastType, displ := BuildRank(size, rank, axes, orderC, oldType);
    var items := AllItems(axes);
    hide AllLegal, Reordered, GridOf, ItemsOfRank, Sound, RankFits, Procs, ArrayItems, Place, Scaled;
    newType := PlaceBox(lastType, oldType.userLb || oldType.userUb, displ * extent, items * extent);
    newType.Resize(0, items * extent);
  }

  /** The items of the rank before they are moved to their place, and that place. */
  method BuildRank(size: nat, rank: nat, axes: seq<Axis>, orderC: bool, oldType: Type) returns (lastType: Type, displ: int)
    requires AllLegal(axes) && size == Procs(GridOf(axes)) && rank < size && axes != []
    requires oldType.Valid() && oldType.kind == Data
    ensures fresh(lastType) && lastType.Valid() && lastType.kind == Data
    ensures
      var e := oldType.Value().Extent();
      Shift(lastType.entries, displ * e) == Place(oldType.entries, Scaled(ItemsOfRank(axes, rank, orderC), e))
      <==> RankFits(axes, rank, orderC, oldType.Value())
  {
    RankFacts(axes, rank, orderC);
    ghost var stored, mine := Reordered(axes, orderC), Reordered(Coords(rank, GridOf(axes)), orderC);
    assert RankFits(axes, rank, orderC, oldType.Value()) <==> RightUpTo(stored, mine, oldType.Value(), |stored|);
    hide AllLegal, Reordered, GridOf, Coords, DimsOf, InGrid, Sound, MadeUpTo, RightUpTo, Positive, Starts, Procs, ItemsOfRank, ArrayItems, RankFits;
    var coords := GridCoords(size, rank, GridOf(axes));
    var offsets;
    lastType, offsets := BuildAxes(axes, coords[..], orderC, oldType.Value().Extent(), oldType, mine);
    displ := OffsetOf(axes, offsets[..], orderC, DimsOf(stored, mine));
    DarrayItems(lastType.Value(), stored, mine, oldType.Value());
  }

  /** The finished type in its place. */
  lemma {:induction false} DarrayItems(t: Layout, stored: seq<Axis>, mine: seq<nat>, before: Layout)
    requires AllLegal(stored) && |stored| == |mine| && before.align > 0 && MadeUpTo(t, stored, mine, before, |stored|)
    ensures
      var dims := DimsOf(stored, mine);
      Shift(t.entries, Displacement(dims) * before.Extent()) == Place(before.entries, Scaled(Box(dims), before.Extent()))
      <==> RightUpTo(stored, mine, before, |stored|)
  {
    var dims := DimsOf(stored, mine);
    assert dims[..|stored|] == dims;
    hide Displacement, Box, OriginBytes, Scaled, Place, Shift, RightUpTo;
    BoxInBytes(before.entries, dims, before.Extent());
    ShiftTells(t.entries, Place(before.entries, OriginBytes(dims, before.Extent())), Displacement(dims) * before.Extent());
  }
}
