/** A box of an array as a datatype. */
module TypeSubarray {
  import opened TypeMaps
  import opened TypeCreate
  import opened TypeIndexed
  import opened TypeBoxes

  function ArrayIndex(k: int, ndims: nat, orderC: bool): int {
    if orderC then ndims - 1 - k else k
  }

  /** The dimensions, the fastest first. */
  function StorageOrder(sizes: seq<nat>, subs: seq<nat>, starts: seq<nat>, orderC: bool): (dims: seq<Dim>)
    requires |sizes| == |subs| == |starts|
    ensures |dims| == |sizes|
  {
    seq(|sizes|, k requires 0 <= k < |sizes| =>
      var i := ArrayIndex(k, |sizes|, orderC);
      Dim(sizes[i], Arith(0, 1, subs[i]), starts[i]))
  }

  /** What the standard demands of a caller. */
  predicate Demanded(sizes: seq<nat>, subs: seq<nat>, starts: seq<nat>) {
    && |sizes| == |subs| == |starts|
    && forall i :: 0 <= i < |sizes| ==> 1 <= subs[i] <= sizes[i] && starts[i] <= sizes[i] - subs[i]
  }

  /** Then all chosen indices exist. */
  lemma {:induction false} DemandedInRange(sizes: seq<nat>, subs: seq<nat>, starts: seq<nat>, orderC: bool)
    requires Demanded(sizes, subs, starts)
    ensures AllInRange(StorageOrder(sizes, subs, starts, orderC))
  {
    var dims := StorageOrder(sizes, subs, starts, orderC);
    forall k | 0 <= k < |dims| ensures InRange(dims[k]) {
      var chosen := dims[k].Chosen();
      assert forall j :: 0 <= j < |chosen| ==> chosen[j] == dims[k].start + j;
    }
  }

  lemma {:induction false} SecondDim(dims: seq<Dim>, extent: int, sub0: nat, sub1: nat)
    requires |dims| >= 2 && dims[0].picks == Arith(0, 1, sub0) && dims[1].picks == Arith(0, 1, sub1)
    ensures Items(dims[..2]) == dims[0].size * dims[1].size
    ensures Displacement(dims[..2]) == dims[0].start + dims[1].start * dims[0].size
    ensures OriginBytes(dims[..2], extent) == StridedBlocks(sub1, sub0, extent * dims[0].size, extent)
  {
    FirstDim(dims, extent);
    NextDim(dims, 1, extent);
    ScaledArith(0, 1, sub0, extent);
    ScaledArith(0, 1, sub1, extent * dims[0].size);
    hide Items, Displacement, OriginBytes, Scaled, Arith, Combine;
    assert dims[0].size * extent == extent * dims[0].size;
  }

  // ----- the stride that is misread -----

  /** The distance of a dimension is -1, which a vector reads as the extent of what it is
      given: all faster dimensions have one item, the old extent is -1, and rounding has
      already changed the extent. The first two dimensions are made at once. */
  predicate MisreadAt(dims: seq<Dim>, t: Layout, k: nat)
    requires k < |dims|
  {
    && k >= 2 && Items(dims[..k]) == 1 && |dims[k].picks| >= 2
    && t.Extent() == -1 && t.entries != [] && !t.userUb && t.align > 1
  }

  predicate MisreadBelow(dims: seq<Dim>, t: Layout, n: nat)
    requires n <= |dims|
  {
    exists k :: 0 <= k < n && MisreadAt(dims, t, k)
  }

  /** What the first k dimensions have become: the items and their place in the array, the
      type map as far as it is right, and while there is only one item, its extent. */
  ghost predicate BuiltDims(box: Layout, size: nat, displ: int, t: Layout, dims: seq<Dim>, k: nat) {
    && k <= |dims| && size == Items(dims[..k]) && displ == Displacement(dims[..k])
    && Tells(box.entries, Place(t.entries, OriginBytes(dims[..k], t.Extent())), !MisreadBelow(dims, t, k))
    && (box.entries == [] <==> t.entries == [])
    && (size == 1 && t.entries != [] && t.Extent() == -1 && k >= 2 ==> RoundedOnce(box, t))
  }

  /** As many entries as there should be, and the right ones exactly in one case. */
  predicate Tells(m: seq<Entry>, right: seq<Entry>, fine: bool) {
    |m| == |right| && (m == right <==> fine)
  }

  /** One copy of an item of extent -1. */
  predicate RoundedOnce(box: Layout, t: Layout) {
    && box.Bounded() && box.entries != [] && box.align == t.align && box.userUb == t.userUb
    && box.Extent() == if t.userUb || t.align <= 1 then -1 else t.align
  }

  lemma {:induction false} StillRounded(box: Layout, t: Layout, stride: int, touching: bool)
    requires Sound(box) && box.kind == Data && t.align > 0 && (RoundedOnce(box, t) || (box == t && t.Extent() == -1))
    requires box.entries != [] && (touching ==> box.Extent() == stride)
    ensures RoundedOnce(VectorLayout(box, 1, 1, stride, touching), t)
  {
    SingleExtent(box, 1, stride, touching);
    VectorHead(box, 1, 1, stride, touching);
    hide VectorLayout;
  }

  /** The box at the origin, one dimension after the other, and the numbers that place it. */
  method CreateBox(
    sizes: seq<nat>, subs: seq<nat>, starts: seq<nat>, orderC: bool, extent: int, oldType: Type, ghost dims: seq<Dim>)
    returns (box: Type, size: nat, displ: int)
    requires |sizes| == |subs| == |starts| >= 1 && oldType.Valid() && oldType.kind == Data
    requires dims == StorageOrder(sizes, subs, starts, orderC) && Demanded(sizes, subs, starts)
    requires extent == oldType.Value().Extent()
    ensures fresh(box) && box.Valid() && box.kind == Data
    ensures BuiltDims(box.Value(), size, displ, oldType.Value(), dims, |dims|)
  {
    var ndims := |sizes|;
    assert oldType.Value().align > 0;
    hide Items, Displacement, OriginBytes, Place, Sound, StorageOrder, Demanded, BuiltDims, Added, Arith;
    if ndims < 2 {
      OrderAt(sizes, subs, starts, orderC, 0);
      DemandedAt(sizes, subs, starts, 0);
      box := CreateContiguous(subs[0], oldType);
      OneBuilt(oldType.Value(), dims, subs[0], box.Value());
      return box, sizes[0], starts[0];
    }
    var rows;
    rows, size, displ := CreateFirstDims(sizes, subs, starts, orderC, extent, oldType, dims);
    box, size, displ := AddDims(sizes, subs, starts, orderC, extent, rows, size, displ, dims, oldType.Value());
  }

  lemma {:induction false} OneBuilt(t: Layout, dims: seq<Dim>, sub: nat, box: Layout)
    requires |dims| == 1 && dims[0].picks == Arith(0, 1, sub) && sub >= 1
    requires box.entries == Place(t.entries, Arith(0, t.Extent(), sub))
    ensures BuiltDims(box, dims[0].size, dims[0].start, t, dims, 1)
  {
    FirstDim(dims, t.Extent());
    ScaledArith(0, 1, sub, t.Extent());
    PlaceSize(t.entries, Arith(0, t.Extent(), sub));
    MakesSome(|t.entries|, sub, 1);
    hide Items, Displacement, OriginBytes, Place, Arith, Scaled;
    assert 0 * t.Extent() == 0 && 1 * t.Extent() == t.Extent();
  }

  method CreateFirstDims(
    sizes: seq<nat>, subs: seq<nat>, starts: seq<nat>, orderC: bool, extent: int, oldType: Type, ghost dims: seq<Dim>)
    returns (box: Type, size: nat, displ: int)
    requires |sizes| == |subs| == |starts| >= 2 && oldType.Valid() && oldType.kind == Data
    requires dims == StorageOrder(sizes, subs, starts, orderC) && Demanded(sizes, subs, starts)
    requires extent == oldType.Value().Extent()
    ensures fresh(box) && box.Valid() && box.kind == Data
    ensures BuiltDims(box.Value(), size, displ, oldType.Value(), dims, 2)
  {
    hide Items, Displacement, OriginBytes, Place, StridedBlocks, StorageOrder, Demanded, BuiltDims, VectorLayout, Misread, Arith;
    var i, next := 0, 1;
    if orderC {
      i, next := |sizes| - 1, |sizes| - 2;
    }
    DemandedAt(sizes, subs, starts, i);
    DemandedAt(sizes, subs, starts, next);
    OrderAt(sizes, subs, starts, orderC, 0);
    OrderAt(sizes, subs, starts, orderC, 1);
    box := CreateVector(subs[next], subs[i], sizes[i], oldType);
    size := sizes[i] * sizes[next];
    displ := starts[i] + starts[next] * sizes[i];
    FirstBuilt(oldType.Value(), dims, subs[i], subs[next], sizes[i], box.Value(), size, displ);
  }

  lemma {:induction false} FirstBuilt(t: Layout, dims: seq<Dim>, sub0: nat, sub1: nat, size0: nat, box: Layout, size: nat, displ: int)
    requires Sound(t) && t.kind == Data && |dims| >= 2 && 1 <= sub0 <= size0 == dims[0].size && 1 <= sub1 <= dims[1].size
    requires dims[0].picks == Arith(0, 1, sub0) && dims[1].picks == Arith(0, 1, sub1)
    requires size == size0 * dims[1].size && displ == dims[0].start + dims[1].start * size0
    requires box == VectorLayout(t, sub1, sub0, t.Extent() * size0, sub0 == size0)
    ensures BuiltDims(box, size, displ, t, dims, 2)
  {
    var e := t.Extent();
    SecondDim(dims, e, sub0, sub1);
    NeverMisread(t, sub1, sub0, size0);
    VectorExact(t, sub1, sub0, e * size0, sub0 == size0);
    VectorHead(t, sub1, sub0, e * size0, sub0 == size0);
    MakesSome(|t.entries|, sub1, sub0);
    if size == 1 && t.entries != [] && e == -1 {
      BothOne(size0, dims[1].size);
      StillRounded(t, t, -1, true);
    }
    hide Items, OriginBytes, Displacement, Place, StridedBlocks, VectorLayout, Misread, RoundedOnce;
    assert !MisreadBelow(dims, t, 2);
  }

  lemma {:induction false} BothOne(x: nat, y: nat)
    requires x * y == 1
    ensures x == 1 && y == 1
  {
    assert x != 0 && y != 0;
    ProductNotNegative(x - 1, y - 1);
    assert (x - 1) * (y - 1) == x * y - x - y + 1;
  }

  lemma {:induction false} ProductNotNegative(x: nat, y: nat)
    ensures x * y >= 0
  {
  }

  lemma {:induction false} DemandedAt(sizes: seq<nat>, subs: seq<nat>, starts: seq<nat>, i: nat)
    requires Demanded(sizes, subs, starts) && i < |sizes|
    ensures 1 <= subs[i] <= sizes[i]
  {
  }

  lemma {:induction false} OrderAt(sizes: seq<nat>, subs: seq<nat>, starts: seq<nat>, orderC: bool, k: nat)
    requires |sizes| == |subs| == |starts| && k < |sizes|
    ensures
      var i := if orderC then |sizes| - 1 - k else k;
      StorageOrder(sizes, subs, starts, orderC)[k] == Dim(sizes[i], Arith(0, 1, subs[i]), starts[i])
  {
  }

  lemma {:induction false} MoreDims(
    sizes: seq<nat>, subs: seq<nat>, starts: seq<nat>, orderC: bool, dims: seq<Dim>, k: nat, extent: int)
    requires Demanded(sizes, subs, starts) && dims == StorageOrder(sizes, subs, starts, orderC) && k < |sizes|
    ensures var i, size := ArrayIndex(k, |sizes|, orderC), Items(dims[..k]);
      && size >= 1
      && Items(dims[..k + 1]) == size * sizes[i]
      && Displacement(dims[..k + 1]) == Displacement(dims[..k]) + size * starts[i]
      && OriginBytes(dims[..k + 1], extent) == Combine(OriginBytes(dims[..k], extent), Arith(0, size * extent, subs[i]))
  {
    DemandedInRange(sizes, subs, starts, orderC);
    PositiveItems(dims, k);
    NextDim(dims, k, extent);
    OrderAt(sizes, subs, starts, orderC, k);
    var i, size := ArrayIndex(k, |sizes|, orderC), Items(dims[..k]);
    hide Items, Displacement, OriginBytes, StorageOrder, Demanded, Combine;
    ScaledArith(0, 1, subs[i], size * extent);
    assert 0 * (size * extent) == 0 && 1 * (size * extent) == size * extent;
  }

  /** The other dimensions, one vector around the next. */
  method AddDims(
    sizes: seq<nat>, subs: seq<nat>, starts: seq<nat>, orderC: bool, extent: int,
    rows: Type, size0: nat, displ0: int, ghost dims: seq<Dim>, ghost t: Layout)
    returns (box: Type, size: nat, displ: int)
    requires |sizes| == |subs| == |starts| >= 2 && dims == StorageOrder(sizes, subs, starts, orderC) && Demanded(sizes, subs, starts)
    requires rows.Valid() && rows.kind == Data && t.align > 0 && extent == t.Extent()
    requires BuiltDims(rows.Value(), size0, displ0, t, dims, 2)
    ensures box == rows || fresh(box)
    ensures box.Valid() && box.kind == Data && BuiltDims(box.Value(), size, displ, t, dims, |dims|)
  {
    var ndims := |sizes|;
    box, size, displ := rows, size0, displ0;
    var i, step, endLoop := 2, 1, ndims;
    if orderC {
      i, step, endLoop := ndims - 3, -1, -1;
    }
    ghost var k := 2;
    while i != endLoop
      invariant 2 <= k <= ndims && i == ArrayIndex(k, ndims, orderC)
      invariant box == rows || fresh(box)
      invariant box.Valid() && box.kind == Data
      invariant BuiltDims(box.Value(), size, displ, t, dims, k)
      decreases ndims - k
    {
      hide BuiltDims, StorageOrder, Demanded, Sound, Items, Displacement, OriginBytes, Place;
      box, size, displ := NextDims(sizes, subs, starts, orderC, extent, i, box, size, displ, dims, t, k);
      i := i + step;
      k := k + 1;
    }
  }

  method NextDims(
    sizes: seq<nat>, subs: seq<nat>, starts: seq<nat>, orderC: bool, extent: int, i: nat,
    inner: Type, size0: nat, displ0: int, ghost dims: seq<Dim>, ghost t: Layout, ghost k: nat)
    returns (box: Type, size: nat, displ: int)
    requires Demanded(sizes, subs, starts) && dims == StorageOrder(sizes, subs, starts, orderC)
    requires 2 <= k < |sizes| && i == ArrayIndex(k, |sizes|, orderC)
    requires inner.Valid() && inner.kind == Data && t.align > 0 && extent == t.Extent()
    requires BuiltDims(inner.Value(), size0, displ0, t, dims, k)
    ensures fresh(box) && box.Valid() && box.kind == Data && BuiltDims(box.Value(), size, displ, t, dims, k + 1)
  {
    MoreDims(sizes, subs, starts, orderC, dims, k, extent);
    DemandedAt(sizes, subs, starts, i);
    OrderAt(sizes, subs, starts, orderC, k);
    assert size0 == Items(dims[..k]) && displ0 == Displacement(dims[..k]);
    hide Arith, Items, Displacement, OriginBytes, Place, Sound, StorageOrder, Demanded, BuiltDims;
    box := CreateHvector(subs[i], 1, size0 * extent, inner);
    displ := displ0 + size0 * starts[i];
    size := size0 * sizes[i];
    NextBuilt(inner.Value(), box.Value(), t, dims, k, subs[i], size0, displ0, size, displ);
  }

  lemma {:induction false} NextBuilt(
    inner: Layout, box: Layout, t: Layout, dims: seq<Dim>, k: nat, sub: nat, size0: nat, displ0: int, size: nat, displ: int)
    requires Sound(inner) && inner.kind == Data && t.align > 0 && 2 <= k < |dims| && 1 <= sub <= dims[k].size && size0 >= 1
    requires dims[k].picks == Arith(0, 1, sub)
    requires BuiltDims(inner, size0, displ0, t, dims, k)
    requires size == Items(dims[..k + 1]) == size0 * dims[k].size && displ == Displacement(dims[..k + 1])
    requires OriginBytes(dims[..k + 1], t.Extent()) == Combine(OriginBytes(dims[..k], t.Extent()), Arith(0, size0 * t.Extent(), sub))
    requires
      var stride := size0 * t.Extent();
      box == VectorLayout(inner, sub, 1, stride, inner.Extent() * 1 == stride)
    ensures BuiltDims(box, size, displ, t, dims, k + 1)
  {
    var e := t.Extent();
    var stride := size0 * e;
    var before := Place(t.entries, OriginBytes(dims[..k], e));
    var touching := inner.Extent() * 1 == stride;
    PlaceTwice(t.entries, OriginBytes(dims[..k], e), Arith(0, stride, sub));
    VectorHead(inner, sub, 1, stride, touching);
    MakesSome(|inner.entries|, sub, 1);
    MisreadNext(inner, t, dims, k, sub, size0, stride, touching);
    if size == 1 && t.entries != [] && e == -1 {
      BothOne(size0, dims[k].size);
      StillRounded(inner, t, stride, touching);
    }
    NextTells(inner, before, !MisreadBelow(dims, t, k), sub, stride, touching);
    hide Items, OriginBytes, Displacement, Place, VectorLayout, Misread, RoundedOnce, MisreadAt, Arith, Combine, Tells;
    assert MisreadBelow(dims, t, k + 1) <==> MisreadBelow(dims, t, k) || MisreadAt(dims, t, k);
  }

  /** Wrong entries stay wrong, since the vector begins with them. */
  lemma {:induction false} NextTells(inner: Layout, before: seq<Entry>, fine: bool, sub: nat, stride: int, touching: bool)
    requires Sound(inner) && inner.kind == Data && sub >= 1 && (touching ==> inner.Extent() * 1 == stride)
    requires Tells(inner.entries, before, fine)
    ensures Tells(VectorLayout(inner, sub, 1, stride, touching).entries, Place(before, Arith(0, stride, sub)),
                  fine && !Misread(inner, sub, 1, stride, touching))
  {
    var box, right := VectorLayout(inner, sub, 1, stride, touching).entries, Place(before, Arith(0, stride, sub));
    assert Arith(0, stride, sub) != [] && Arith(0, stride, sub)[0] == 0;
    hide Place, Arith, StridedBlocks, VectorLayout, Misread, Sound;
    PlaceHead(before, Arith(0, stride, sub));
    SingleItems(sub, stride, inner.Extent());
    VectorExact(inner, sub, 1, stride, touching);
    VectorHead(inner, sub, 1, stride, touching);
    if inner.entries != before { DifferentHeads(inner.entries, before, box, right); }
  }

  lemma {:induction false} DifferentHeads(a: seq<Entry>, b: seq<Entry>, x: seq<Entry>, y: seq<Entry>)
    requires |a| == |b| && a != b && a <= x && b <= y
    ensures x != y
  {
    assert x[..|a|] == a && y[..|a|] == b;
  }

  lemma {:induction false} MakesSome(entries: nat, count: nat, b: nat)
    requires count >= 1 && b >= 1
    ensures entries * (count * b) == 0 <==> entries == 0
  {
    ProductNotNegative(count - 1, b - 1);
    assert (count - 1) * (b - 1) == count * b - count - b + 1;
    if entries > 0 { ProductNotNegative(entries - 1, count * b - 1); }
    assert (entries - 1) * (count * b - 1) == entries * (count * b) - entries - count * b + 1;
  }

  /** The vector misreads its stride exactly in the case that the predicate names. */
  lemma {:induction false} MisreadNext(inner: Layout, t: Layout, dims: seq<Dim>, k: nat, sub: nat, size0: nat, stride: int, touching: bool)
    requires 2 <= k < |dims| && dims[k].picks == Arith(0, 1, sub) && 1 <= size0 == Items(dims[..k]) && t.align > 0
    requires stride == size0 * t.Extent() && touching == (inner.Extent() * 1 == stride)
    requires inner.entries == [] <==> t.entries == []
    requires size0 == 1 && t.entries != [] && t.Extent() == -1 ==> RoundedOnce(inner, t)
    ensures Misread(inner, sub, 1, stride, touching) <==> MisreadAt(dims, t, k)
  {
    MinusOne(t.Extent(), size0);
    assert t.Extent() * size0 == stride;
    hide Items;
  }

  /** The sizes rule out the stride that would be misread. */
  lemma {:induction false} NeverMisread(t: Layout, count: nat, sub: nat, size: nat)
    requires 1 <= sub <= size
    ensures !Misread(t, count, sub, t.Extent() * size, sub == size)
  {
    MinusOne(t.Extent(), size);
  }

  /** The box in its place, and the extent of the whole array. With bounds that come from
      markers, markers set the new ones; otherwise resizing does. The items are right
      exactly unless a stride of -1 is misread. */
  method CreateSubarray(sizes: seq<nat>, subs: seq<nat>, starts: seq<nat>, orderC: bool, oldType: Type) returns (newType: Type)
    requires Demanded(sizes, subs, starts) && oldType.Valid() && oldType.kind == Data
    ensures fresh(newType) && newType.Valid()
    ensures |sizes| == 0 ==> newType.entries == []
    ensures
      var dims, extent := StorageOrder(sizes, subs, starts, orderC), oldType.Value().Extent();
      |sizes| >= 1 ==>
        && (newType.entries == Place(oldType.entries, Scaled(Box(dims), extent)) <==> !MisreadBelow(dims, oldType.Value(), |dims|))
        && newType.lb == Some(0) && newType.ub == Some(Items(dims) * extent)
  {
    var ndims, extent := |sizes|, oldType.Value().Extent();
    ghost var dims := StorageOrder(sizes, subs, starts, orderC);
    if ndims == 0 {
      newType := new Type();
      return;
    }
    hide Items, Place, Sound, Box, Scaled, Shift, MisreadBelow, BuiltDims, StorageOrder, Demanded;
    var box, size, displ := CreateBox(sizes, subs, starts, orderC, extent, oldType, dims);
    BoxTells(box.Value(), size, displ, oldType.Value(), dims);
    newType := PlaceBox(box, oldType.userLb || oldType.userUb, displ * extent, size * extent);
    newType.Resize(0, size * extent);
  }

  lemma {:induction false} BoxTells(box: Layout, size: nat, displ: int, t: Layout, dims: seq<Dim>)
    requires BuiltDims(box, size, displ, t, dims, |dims|)
    ensures size == Items(dims)
    ensures Shift(box.entries, displ * t.Extent()) == Place(t.entries, Scaled(Box(dims), t.Extent())) <==> !MisreadBelow(dims, t, |dims|)
  {
    assert dims[..|dims|] == dims;
    hide Items, Displacement, OriginBytes, Place, Box, Scaled, Shift, MisreadBelow;
    BoxInBytes(t.entries, dims, t.Extent());
    ShiftTells(box.entries, Place(t.entries, OriginBytes(dims, t.Extent())), displ * t.Extent());
  }

  lemma {:induction false} ShiftTells(a: seq<Entry>, b: seq<Entry>, x: int)
    ensures Shift(a, x) == Shift(b, x) <==> a == b
  {
    if Shift(a, x) == Shift(b, x) {
      assert |a| == |b|;
      forall k | 0 <= k < |a| ensures a[k] == b[k] {
        assert Shift(a, x)[k] == Shift(b, x)[k];
      }
    }
  }

  /** An aligned item of extent -1 in an array of 1 by 1 by 2: the two items of the array are
      to lie one byte apart, and are made four bytes apart. */
  lemma {:induction false} SubarrayMisread(prim: Prim)
    ensures
      var t := Layout(Data, [Entry(prim, 0)], Some(0), Some(-1), false, false, 4);
      var dims := StorageOrder([1, 1, 2], [1, 1, 2], [0, 0, 0], false);
      var rows := VectorLayout(t, 1, 1, -1, true);
      && Sound(t) && Demanded([1, 1, 2], [1, 1, 2], [0, 0, 0]) && MisreadBelow(dims, t, 3)
      && Place(t.entries, Scaled(Box(dims), t.Extent())) == [Entry(prim, 0), Entry(prim, -1)]
      && VectorLayout(rows, 2, 1, -1, rows.Extent() == -1).entries == [Entry(prim, 0), Entry(prim, 4)]
  {
    var t := Layout(Data, [Entry(prim, 0)], Some(0), Some(-1), false, false, 4);
    var dims := StorageOrder([1, 1, 2], [1, 1, 2], [0, 0, 0], false);
    assert t.Extent() == -1;
    ThreeDims(dims);
    hide StorageOrder, Demanded, Items, Displacement, VectorLayout, Place, Arith, Scaled, Box, OriginBytes, MisreadBelow;
    ThirdMisread(dims, t);
    ThirdDemanded(dims);
    TwoPlaces(Entry(prim, 0), -1);
    ThirdMade(t, prim);
  }

  lemma {:induction false} ThreeDims(dims: seq<Dim>)
    requires dims == StorageOrder([1, 1, 2], [1, 1, 2], [0, 0, 0], false)
    ensures |dims| == 3 && dims[0] == dims[1] == Dim(1, Arith(0, 1, 1), 0) && dims[2] == Dim(2, Arith(0, 1, 2), 0)
    ensures Demanded([1, 1, 2], [1, 1, 2], [0, 0, 0])
  {
    hide Arith;
  }

  lemma {:induction false} ThirdMisread(dims: seq<Dim>, t: Layout)
    requires |dims| == 3 && dims[0].size == 1 && dims[1].size == 1 && |dims[2].picks| == 2
    requires t.Extent() == -1 && t.entries != [] && !t.userUb && t.align > 1
    ensures MisreadBelow(dims, t, 3)
  {
    FirstDim(dims, 1);
    NextDim(dims, 1, 1);
    hide Items;
    assert MisreadAt(dims, t, 2);
  }

  lemma {:induction false} ThirdDemanded(dims: seq<Dim>)
    requires |dims| == 3 && dims[0] == dims[1] == Dim(1, Arith(0, 1, 1), 0) && dims[2] == Dim(2, Arith(0, 1, 2), 0)
    ensures Scaled(Box(dims), -1) == Arith(0, -1, 2)
  {
    assert dims[..3] == dims && Arith(0, -1, 1) == [0];
    hide *;
    SecondDim(dims, -1, 1, 1);
    NextDim(dims, 2, -1);
    SingleItems(1, -1, -1);
    ScaledArith(0, 1, 2, -1);
    LastDimOnly(dims, -1);
  }

  /** The vector around the first two dimensions, whose extent is rounded. */
  lemma {:induction false} ThirdMade(t: Layout, prim: Prim)
    requires t == Layout(Data, [Entry(prim, 0)], Some(0), Some(-1), false, false, 4)
    ensures
      var rows := VectorLayout(t, 1, 1, -1, true);
      VectorLayout(rows, 2, 1, -1, rows.Extent() == -1).entries == [Entry(prim, 0), Entry(prim, 4)]
  {
    var rows := VectorLayout(t, 1, 1, -1, true);
    StillRounded(t, t, -1, true);
    VectorHead(t, 1, 1, -1, true);
    VectorExact(t, 1, 1, -1, true);
    assert rows.entries == [Entry(prim, 0)];
    assert rows.kind == Data by { AddedEntries(NEW_TYPE, t, 1, 0, -1); }
    AddedToNew(rows, 2, 0, -1);
    hide Added, Place, Arith;
    TwoPlaces(Entry(prim, 0), 4);
  }

  /** The items of a subarray: those with every index between its start and its end, in
      increasing order, as many as the product of the subsizes. */
  lemma {:induction false} SubarrayMeaning(sizes: seq<nat>, subs: seq<nat>, starts: seq<nat>, orderC: bool)
    requires Demanded(sizes, subs, starts)
    ensures
      var dims := StorageOrder(sizes, subs, starts, orderC);
      && Increasing(Box(dims)) && |Box(dims)| == ChosenItems(dims)
      && (forall x: nat :: x in Box(dims) <==> InBox(dims, x))
      && forall k, q :: 0 <= k < |dims| ==>
           var i := ArrayIndex(k, |sizes|, orderC);
           q in dims[k].Chosen() <==> starts[i] <= q < starts[i] + subs[i]
  {
    var dims := StorageOrder(sizes, subs, starts, orderC);
    DemandedInRange(sizes, subs, starts, orderC);
    BoxMeaning(dims);
    hide Box, InBox, ChosenItems, Increasing;
    forall k, q | 0 <= k < |dims|
      ensures
        var i := ArrayIndex(k, |sizes|, orderC);
        q in dims[k].Chosen() <==> starts[i] <= q < starts[i] + subs[i]
    {
      var i := ArrayIndex(k, |sizes|, orderC);
      var chosen := dims[k].Chosen();
      assert |chosen| == subs[i] && forall j :: 0 <= j < |chosen| ==> chosen[j] == starts[i] + j;
      if starts[i] <= q < starts[i] + subs[i] { assert chosen[q - starts[i]] == q; }
    }
  }

  method PlaceBox(box: Type, markers: bool, displ: int, end: int) returns (newType: Type)
    requires box.Valid() && box.kind == Data
    ensures fresh(newType) && newType.Valid() && newType.kind == Data
    ensures newType.entries == Shift(box.entries, displ)
  {
    var m := box.entries;
    if markers {
      var lbType := new Type.Marker(LbMarker);
      var ubType := new Type.Marker(UbMarker);
      newType := CreateStruct([1, 1, 1], [0, displ, end], [lbType, box, ubType], NEW_TYPE);
      ThreeFields(FieldsOf([1, 1, 1], [0, displ, end], [lbType, box, ubType]), m, displ);
    } else {
      newType := CreateHindexed([1], [displ], box);
      OneBlockAt(m, displ, box.Value().Extent());
    }
  }

  lemma {:induction false} OneBlockAt(m: seq<Entry>, displ: int, extent: int)
    ensures Place(m, Blocks([1], [displ], extent)) == Shift(m, displ)
  {
    assert [1][..0] == [] && [displ][..0] == [];
    assert Blocks([1], [displ], extent) == [displ];
    PlaceLast(m, [], displ);
    assert [] + [displ] == [displ] && [] + Shift(m, displ) == Shift(m, displ);
  }

  lemma {:induction false} ThreeFields(fs: seq<Field>, m: seq<Entry>, displ: int)
    requires |fs| == 3 && fs[0].t.entries == [] && fs[2].t.entries == []
    requires fs[1].t.entries == m && fs[1].length == 1 && fs[1].disp == displ
    ensures Fields(fs) == Shift(m, displ)
  {
    assert fs[..3] == fs && Fields(fs[..0]) == [];
    FieldsLast(fs, 0);
    FieldsLast(fs, 1);
    FieldsLast(fs, 2);
    PlaceNothing(Arith(fs[0].disp, fs[0].t.Extent(), fs[0].length));
    PlaceNothing(Arith(fs[2].disp, fs[2].t.Extent(), fs[2].length));
    assert Arith(displ, fs[1].t.Extent(), 1) == [displ];
    hide Place, Fields, Arith, Shift;
    PlaceLast(m, [], displ);
    assert [] + [displ] == [displ] && [] + Shift(m, displ) == Shift(m, displ);
  }
}
