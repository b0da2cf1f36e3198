/** One dimension of a distributed array as a datatype around the type of the faster
    dimensions. */
module TypeAxes {
  import opened TypeMaps
  import opened TypeCreate
  import opened TypeIndexed
  import opened TypeBoxes
  import opened Distribution

  // ----- the indices of a cyclic dimension as blocks -----

  function SpreadPicks(size: nat, b: nat, w: nat): (r: seq<int>)
    requires b >= 1
    ensures |r| == size && forall l :: 0 <= l < size ==> r[l] == Spread(l, b, w)
  {
    seq(size, l requires 0 <= l < size => Spread(l, b, w) as int)
  }

  lemma {:induction false} MorePicks(c: nat, b: nat, w: nat, r: nat)
    requires b >= 1 && r <= b
    ensures SpreadPicks(c * b + r, b, w) == SpreadPicks(c * b, b, w) + Arith(c * w, 1, r)
  {
    hide Spread;
    var p, start := SpreadPicks(c * b + r, b, w), c * b;
    forall k | start <= k < start + r ensures p[k] == c * w + (k - start) {
      SpreadAt(b, w, c, k - start);
    }
    assert p[..start] == SpreadPicks(start, b, w);
    assert p[start..] == Arith(c * w, 1, r);
  }

  /** Whole blocks of a cyclic dimension are a vector. */
  lemma {:induction false} PicksAreBlocks(c: nat, b: nat, w: nat, x: int)
    requires b >= 1
    ensures Scaled(SpreadPicks(c * b, b, w), x) == StridedBlocks(c, b, w * x, x)
    decreases c
  {
    hide Spread, SpreadPicks, Combine, Arith, Scaled, Moved;
    if c == 0 {
      NoPicks(b, w, x);
    } else {
      var d: nat := c - 1;
      PicksAreBlocks(d, b, w, x);
      PicksStep(d, b, w, x);
    }
  }

  lemma {:induction false} NoPicks(b: nat, w: nat, x: int)
    requires b >= 1
    ensures Scaled(SpreadPicks(0 * b, b, w), x) == [] == StridedBlocks(0, b, w * x, x)
  {
    assert Arith(0, w * x, 0) == [];
  }

  lemma {:induction false} PicksStep(d: nat, b: nat, w: nat, x: int)
    requires b >= 1 && Scaled(SpreadPicks(d * b, b, w), x) == StridedBlocks(d, b, w * x, x)
    ensures Scaled(SpreadPicks((d + 1) * b, b, w), x) == StridedBlocks(d + 1, b, w * x, x)
  {
    hide Spread, SpreadPicks, Combine, Arith, Scaled, Moved;
    MorePicks(d, b, w, b);
    assert d * b + b == (d + 1) * b;
    ScaledConcat(SpreadPicks(d * b, b, w), Arith(d * w, 1, b), x);
    ScaledArith(d * w, 1, b, x);
    ArithLast(0, w * x, d);
    CombineLast(Arith(0, x, b), Arith(0, w * x, d), d * (w * x));
    MovedArith(0, x, b, d * (w * x));
    assert (d * w) * x == d * (w * x) && 1 * x == x;
  }

  /** All indices of a cyclic dimension: whole blocks and a shorter last one. */
  lemma {:induction false} PicksInBlocks(size: nat, b: nat, w: nat, x: int)
    requires b >= 1
    ensures Scaled(SpreadPicks(size, b, w), x) == StridedBlocks(size / b, b, w * x, x) + Arith((size / b) * (w * x), x, size % b)
  {
    var c, r := size / b, size % b;
    assert size == c * b + r;
    hide Spread, SpreadPicks, Combine, Arith, Scaled, Moved, StridedBlocks;
    MorePicks(c, b, w, r);
    PicksAreBlocks(c, b, w, x);
    ScaledConcat(SpreadPicks(c * b, b, w), Arith(c * w, 1, r), x);
    ScaledArith(c * w, 1, r, x);
    assert (c * w) * x == c * (w * x) && 1 * x == x;
  }

  /** Blocks of one item do not depend on the extent. */
  lemma {:induction false} AnyExtent(count: nat, stride: int, x: int, y: int)
    ensures StridedBlocks(count, 1, stride, x) == StridedBlocks(count, 1, stride, y)
  {
    SingleItems(count, stride, x);
    SingleItems(count, stride, y);
  }

  // ----- one dimension of the type -----

  /** The type of faster dimensions, placed at the picks of this one. */
  ghost predicate Extended(old': seq<Entry>, new': seq<Entry>, a: Axis, coord: nat, row: nat, extent: int)
    requires Legal(a)
  {
    new' == Place(old', Scaled(DimOf(a, coord).picks, row * extent))
  }

  lemma {:induction false} BlockPicks(a: Axis, coord: nat, row: nat, extent: int)
    requires Legal(a) && !a.dist.Cyclic?
    ensures Scaled(DimOf(a, coord).picks, row * extent) == Arith(0, row * extent, LocalSize(a, coord))
  {
    assert DimOf(a, coord).picks == Arith(0, 1, LocalSize(a, coord));
    ScaledArith(0, 1, LocalSize(a, coord), row * extent);
  }

  lemma {:induction false} CyclicPicks(a: Axis, coord: nat)
    requires Legal(a) && a.dist.Cyclic?
    ensures DimOf(a, coord).picks == SpreadPicks(LocalSize(a, coord), BlockSize(a), a.n * BlockSize(a))
  {
  }

  /** The type of a block: a repetition at the distance of rows. */
  function BlockLayout(t: Layout, size: nat, stride: int, first: bool): Layout
    requires t.align > 0
  {
    if first then Added(NEW_TYPE, t, size, 0, t.Extent()) else VectorLayout(t, size, 1, stride, t.Extent() * 1 == stride)
  }

  // ----- when a dimension comes out right -----

  /** How far apart the blocks of a cyclic dimension are. */
  function CyclicDistance(a: Axis, row: nat, extent: int): int
    requires Legal(a)
  {
    a.n * BlockSize(a) * (row * extent)
  }

  /** Where the items of a cyclic dimension go: whole blocks and a shorter last one. Inside
      a block the distance is the extent of the type of the faster dimensions. */
  function CyclicItems(a: Axis, coord: nat, row: nat, extent: int, typeExtent: int): seq<int>
    requires Legal(a)
  {
    BlocksAndRest(LocalSize(a, coord), BlockSize(a), CyclicDistance(a, row, extent), typeExtent)
  }

  function BlocksAndRest(size: nat, b: nat, stride: int, typeExtent: int): seq<int>
    requires b >= 1
  {
    StridedBlocks(size / b, b, stride, typeExtent) + Arith((size / b) * stride, typeExtent, size % b)
  }

  /** When these are the right places. */
  predicate CyclicFits(m: seq<Entry>, a: Axis, coord: nat, row: nat, extent: int, typeExtent: int)
    requires Legal(a)
  {
    m == [] || BlockSize(a) == 1 || LocalSize(a, coord) <= 1 || typeExtent == row * extent
  }

  lemma {:induction false} CyclicExact(m: seq<Entry>, a: Axis, coord: nat, row: nat, extent: int, typeExtent: int)
    requires Legal(a) && a.dist.Cyclic?
    ensures Place(m, CyclicItems(a, coord, row, extent, typeExtent)) == Place(m, Scaled(DimOf(a, coord).picks, row * extent))
      <==> CyclicFits(m, a, coord, row, extent, typeExtent)
  {
    var items, right := CyclicItems(a, coord, row, extent, typeExtent), Scaled(DimOf(a, coord).picks, row * extent);
    if m == [] {
      PlaceNothing(items);
      PlaceNothing(right);
    } else if BlockSize(a) == 1 || typeExtent == row * extent {
      RightItems(a, coord, row, extent, typeExtent);
    } else if LocalSize(a, coord) <= 1 {
      FewItems(a, coord, row, extent, typeExtent);
    } else {
      SecondItem(a, coord, row, extent, typeExtent);
      PlaceAt(m, items, 1);
      PlaceAt(m, right, 1);
    }
  }

  lemma {:induction false} RightItems(a: Axis, coord: nat, row: nat, extent: int, typeExtent: int)
    requires Legal(a) && a.dist.Cyclic? && (BlockSize(a) == 1 || typeExtent == row * extent)
    ensures CyclicItems(a, coord, row, extent, typeExtent) == Scaled(DimOf(a, coord).picks, row * extent)
  {
    var size, b, x := LocalSize(a, coord), BlockSize(a), row * extent;
    var w := a.n * b;
    CyclicPicks(a, coord);
    PicksInBlocks(size, b, w, x);
    if b == 1 {
      AnyExtent(size / b, w * x, typeExtent, x);
      ArithNone((size / b) * (w * x), typeExtent);
      ArithNone((size / b) * (w * x), x);
    }
  }

  lemma {:induction false} FewItems(a: Axis, coord: nat, row: nat, extent: int, typeExtent: int)
    requires Legal(a) && a.dist.Cyclic? && BlockSize(a) > 1 && LocalSize(a, coord) <= 1
    ensures CyclicItems(a, coord, row, extent, typeExtent) == Scaled(DimOf(a, coord).picks, row * extent)
  {
    var size, b := LocalSize(a, coord), BlockSize(a);
    var stride := CyclicDistance(a, row, extent);
    assert size / b == 0 && size % b == size;
    assert Arith(0, stride, 0) == [];
    assert StridedBlocks(0, b, stride, typeExtent) == [];
    assert size == 1 ==> DimOf(a, coord).picks[0] == Spread(0, b, a.n * b) == 0;
  }

  lemma {:induction false} SecondItem(a: Axis, coord: nat, row: nat, extent: int, typeExtent: int)
    requires Legal(a) && a.dist.Cyclic? && BlockSize(a) > 1 && LocalSize(a, coord) > 1
    ensures |CyclicItems(a, coord, row, extent, typeExtent)| > 1 && CyclicItems(a, coord, row, extent, typeExtent)[1] == typeExtent
    ensures |DimOf(a, coord).picks| > 1 && Scaled(DimOf(a, coord).picks, row * extent)[1] == row * extent
  {
    SecondPick(a, coord);
    hide BlockSize, LocalSize, CyclicDistance, DimOf, BlocksAndRest;
    if LocalSize(a, coord) < BlockSize(a) {
      SecondOfRest(LocalSize(a, coord), BlockSize(a), CyclicDistance(a, row, extent), typeExtent);
    } else {
      SecondOfBlocks(LocalSize(a, coord), BlockSize(a), CyclicDistance(a, row, extent), typeExtent);
    }
    assert 1 * (row * extent) == row * extent;
  }

  lemma {:induction false} SecondPick(a: Axis, coord: nat)
    requires Legal(a) && a.dist.Cyclic? && BlockSize(a) > 1 && LocalSize(a, coord) > 1
    ensures |DimOf(a, coord).picks| > 1 && DimOf(a, coord).picks[1] == 1
  {
    hide LocalSize;
    assert DimOf(a, coord).picks[1] == Pick(a, 1);
    SpreadAt(BlockSize(a), a.n * BlockSize(a), 0, 1);
  }

  lemma {:induction false} SecondOfRest(size: nat, b: nat, stride: int, typeExtent: int)
    requires 1 < size < b
    ensures |BlocksAndRest(size, b, stride, typeExtent)| > 1 && BlocksAndRest(size, b, stride, typeExtent)[1] == typeExtent
  {
    assert size / b == 0 && size % b == size;
    NothingYet(b, stride, typeExtent);
    hide StridedBlocks;
    assert BlocksAndRest(size, b, stride, typeExtent) == Arith(0, typeExtent, size);
  }

  lemma {:induction false} NothingYet(b: nat, stride: int, typeExtent: int)
    ensures StridedBlocks(0, b, stride, typeExtent) == []
  {
    assert Arith(0, stride, 0) == [];
  }

  lemma {:induction false} SecondOfBlocks(size: nat, b: nat, stride: int, typeExtent: int)
    requires 1 < b <= size
    ensures |BlocksAndRest(size, b, stride, typeExtent)| > 1 && BlocksAndRest(size, b, stride, typeExtent)[1] == typeExtent
  {
    DivLess(size, b, 1);
    var q := size / b;
    var block, starts := Arith(0, typeExtent, b), Arith(0, stride, q);
    CombineFirst(block, starts);
    var blocks := StridedBlocks(q, b, stride, typeExtent);
    assert blocks == Combine(block, starts);
    hide Combine, StridedBlocks, BlocksAndRest;
    assert blocks[1] == blocks[..b][1] == block[1] + starts[0];
    assert BlocksAndRest(size, b, stride, typeExtent)[..|blocks|] == blocks by { BlocksFirst(size, b, stride, typeExtent); }
  }

  lemma {:induction false} BlocksFirst(size: nat, b: nat, stride: int, typeExtent: int)
    requires b >= 1
    ensures StridedBlocks(size / b, b, stride, typeExtent) <= BlocksAndRest(size, b, stride, typeExtent)
  {
  }

  lemma {:induction false} CombineFirst(a: seq<int>, b: seq<int>)
    requires b != []
    ensures |Combine(a, b)| >= |a| && Combine(a, b)[..|a|] == Moved(a, b[0])
  {
    assert b == [b[0]] + b[1..];
    CombineConcat(a, [b[0]], b[1..]);
    CombineOne(a, b[0]);
  }

  /** Around a type with entries of extent x, the dimension is right: blocks of several
      items need rows of the right extent, and a distance of -1 is read as the extent. */
  predicate AxisFits(a: Axis, coord: nat, row: nat, extent: int, first: bool, x: int)
    requires Legal(a)
  {
    var size := LocalSize(a, coord);
    if a.dist.Cyclic? then
      && (BlockSize(a) == 1 || size <= 1 || x == row * extent)
      && !(CyclicDistance(a, row, extent) == -1 && size >= 2 && x != -1)
    else first || !(row * extent == -1 && size >= 2 && x != -1)
  }

  /** The extent it then has. Only cyclic dimensions are given that of the whole dimension. */
  function NextExtent(a: Axis, coord: nat, row: nat, extent: int, x: int, align: int, userUb: bool): int
    requires Legal(a) && align > 0
  {
    if a.dist.Cyclic? then (row * a.g) * extent
    else CopiesExtent(x, LocalSize(a, coord), row * extent, align, userUb)
  }

  /** What making one dimension gives: all entries of this process, beginning with the
      first copy, and at the right places exactly if the dimension fits. */
  ghost predicate AxisMade(a: Axis, coord: nat, row: nat, extent: int, first: bool, t: Layout, t': Layout)
    requires Legal(a)
  {
    var size, x := LocalSize(a, coord), t.Extent();
    && |t'.entries| == |t.entries| * size && (size >= 1 ==> t.entries <= t'.entries)
    && (t.entries != [] ==>
          (Extended(t.entries, t'.entries, a, coord, row, extent) <==> AxisFits(a, coord, row, extent, first, x)))
    && (t.entries != [] && size >= 1 && t.align > 0 ==>
          && t'.Bounded() && t'.align == t.align && t'.userUb == t.userUb
          && (AxisFits(a, coord, row, extent, first, x) ==>
                t'.Extent() == NextExtent(a, coord, row, extent, x, t.align, t.userUb)))
  }

  lemma {:induction false} BlockMade(a: Axis, coord: nat, row: nat, extent: int, first: bool, t: Layout)
    requires Legal(a) && !a.dist.Cyclic? && Sound(t) && t.kind == Data
    requires first ==> row == 1 && t.Extent() == extent
    ensures AxisMade(a, coord, row, extent, first, t, BlockLayout(t, LocalSize(a, coord), row * extent, first))
  {
    var size, stride := LocalSize(a, coord), row * extent;
    BlockPicks(a, coord, row, extent);
    hide LocalSize, DimOf, BlockSize, Scaled, CyclicDistance;
    if first {
      ContiguousTells(t, size);
      assert 1 * extent == extent;
    } else {
      SingleTells(t, size, stride, t.Extent() * 1 == stride);
      SingleHead(t, size, stride, t.Extent() * 1 == stride);
      assert t.Extent() * 1 == t.Extent();
    }
  }

  lemma {:induction false} ContiguousTells(t: Layout, size: nat)
    requires Sound(t) && t.kind == Data
    ensures
      var made := Added(NEW_TYPE, t, size, 0, t.Extent());
      && made.entries == Place(t.entries, Arith(0, t.Extent(), size)) && |made.entries| == |t.entries| * size
      && (size >= 1 ==> t.entries <= made.entries)
      && (t.entries != [] && size >= 1 ==>
            && made.Bounded() && made.align == t.align && made.userUb == t.userUb
            && made.Extent() == CopiesExtent(t.Extent(), size, t.Extent(), t.align, t.userUb))
  {
    AddedToNew(t, size, 0, t.Extent());
    PlaceSize(t.entries, Arith(0, t.Extent(), size));
    if size >= 1 {
      PlaceHead(t.entries, Arith(0, t.Extent(), size));
      if t.entries != [] { AddedExtent(t, size, t.Extent()); }
    }
    hide Place, Arith, AddedData, CopiesExtent;
  }

  lemma {:induction false} SingleTells(t: Layout, size: nat, stride: int, touching: bool)
    requires Sound(t) && t.kind == Data && (touching ==> t.Extent() == stride)
    ensures
      VectorLayout(t, size, 1, stride, touching).entries == Place(t.entries, Arith(0, stride, size))
      <==> !Misread(t, size, 1, stride, touching)
  {
    SingleItems(size, stride, t.Extent());
    VectorExact(t, size, 1, stride, touching);
    hide VectorLayout, Place, Arith, StridedBlocks;
    assert t.Extent() * 1 == t.Extent();
  }

  lemma {:induction false} SingleHead(t: Layout, size: nat, stride: int, touching: bool)
    requires Sound(t) && t.kind == Data && (touching ==> t.Extent() == stride)
    ensures
      var made := VectorLayout(t, size, 1, stride, touching);
      && |made.entries| == |t.entries| * size && (size >= 1 ==> t.entries <= made.entries)
      && (t.entries != [] && size >= 1 ==>
            && made.Bounded() && made.align == t.align && made.userUb == t.userUb
            && (!Misread(t, size, 1, stride, touching) ==>
                  made.Extent() == CopiesExtent(t.Extent(), size, stride, t.align, t.userUb)))
  {
    if size >= 1 {
      VectorHead(t, size, 1, stride, touching);
      if t.entries != [] {
        VectorKeeps(t, size, 1, stride, touching);
        if !Misread(t, size, 1, stride, touching) { SingleExtent(t, size, stride, touching); }
      }
      hide VectorLayout, CopiesExtent;
      assert size * 1 == size;
    }
  }

  /** A block of the indices of one dimension. A dimension that is not distributed is a
      block on one process. */
  method BlockType(a: Axis, coord: nat, row: nat, extent: int, first: bool, typeOld: Type) returns (newType: Type, offset: int)
    requires Legal(a) && !a.dist.Cyclic? && typeOld.Valid() && typeOld.kind == Data
    requires first ==> row == 1 && typeOld.Value().Extent() == extent
    ensures fresh(newType) && newType.Valid() && newType.kind == Data && offset == DimOf(a, coord).start
    ensures AxisMade(a, coord, row, extent, first, typeOld.Value(), newType.Value())
  {
    BlockMade(a, coord, row, extent, first, typeOld.Value());
    var blksize := BlockSize(a);
    var mysize := LocalSize(a, coord);
    var stride := row * extent;
    offset := if mysize == 0 then 0 else blksize * coord;
    assert blksize * coord == coord * blksize;
    assert offset == DimOf(a, coord).start;
    hide Place, Arith, Scaled, DimOf, LocalSize, BlockSize, Added, Sound, StridedBlocks, Combine, AxisMade, Extended, VectorLayout;
    if first {
      newType := CreateContiguous(mysize, typeOld);
    } else {
      newType := CreateHvector(mysize, 1, stride, typeOld);
    }
  }

  // ----- a cyclic dimension -----

  /** Its entries: a vector of whole blocks, and the rest. */
  ghost function CyclicEntries(t: Layout, size: nat, b: nat, stride: int): seq<Entry>
    requires t.align > 0 && b >= 1
  {
    VectorLayout(t, size / b, b, stride, t.Extent() * b == stride).entries
    + Place(t.entries, Arith((size / b) * stride, t.Extent(), size % b))
  }

  lemma {:induction false} CyclicTells(t: Layout, a: Axis, coord: nat, row: nat, extent: int)
    requires Legal(a) && a.dist.Cyclic? && Sound(t) && t.kind == Data && t.entries != []
    ensures
      CyclicEntries(t, LocalSize(a, coord), BlockSize(a), CyclicDistance(a, row, extent))
      == Place(t.entries, Scaled(DimOf(a, coord).picks, row * extent))
      <==> AxisFits(a, coord, row, extent, false, t.Extent())
  {
    var size, b, stride, x := LocalSize(a, coord), BlockSize(a), CyclicDistance(a, row, extent), t.Extent();
    CyclicExact(t.entries, a, coord, row, extent, x);
    MinusOneBlock(a, row, extent);
    MisreadCyclic(t, size, b, stride);
    EntriesTell(t, size, b, stride);
    assert CyclicItems(a, coord, row, extent, x) == BlocksAndRest(size, b, stride, x);
    hide LocalSize, BlockSize, CyclicDistance, DimOf, Scaled, CyclicEntries, BlocksAndRest, Place, Misread;
  }

  lemma {:induction false} MisreadCyclic(t: Layout, size: nat, b: nat, stride: int)
    requires b >= 1 && t.entries != [] && (stride == -1 ==> b == 1)
    ensures Misread(t, size / b, b, stride, t.Extent() * b == stride) <==> stride == -1 && size >= 2 && t.Extent() != -1
  {
    if stride == -1 {
      assert size / b == size && t.Extent() * b == t.Extent();
    }
  }

  lemma {:induction false} EntriesTell(t: Layout, size: nat, b: nat, stride: int)
    requires b >= 1 && Sound(t) && t.kind == Data
    ensures
      CyclicEntries(t, size, b, stride) == Place(t.entries, BlocksAndRest(size, b, stride, t.Extent()))
      <==> !Misread(t, size / b, b, stride, t.Extent() * b == stride)
  {
    var x, count := t.Extent(), size / b;
    var blocks, rest := StridedBlocks(count, b, stride, x), Arith(count * stride, x, size % b);
    VectorExact(t, count, b, stride, x * b == stride);
    PlaceConcat(t.entries, blocks, rest);
    SameTail(VectorLayout(t, count, b, stride, x * b == stride).entries, Place(t.entries, blocks), Place(t.entries, rest));
  }

  lemma {:induction false} SameTail(a: seq<Entry>, b: seq<Entry>, c: seq<Entry>)
    ensures a + c == b + c <==> a == b
  {
    if a + c == b + c {
      assert |a| == |b| && (a + c)[..|a|] == a && (b + c)[..|b|] == b;
    }
  }

  lemma {:induction false} PlaceNone(m: seq<Entry>, start: int, x: int)
    ensures Place(m, Arith(start, x, 0)) == []
  {
    assert Arith(start, x, 0) == [];
  }

  /** A distance of -1 is that of single items. */
  lemma {:induction false} MinusOneBlock(a: Axis, row: nat, extent: int)
    requires Legal(a)
    ensures CyclicDistance(a, row, extent) == -1 ==> BlockSize(a) == 1
  {
    var b, rest := BlockSize(a), a.n * (row * extent);
    assert CyclicDistance(a, row, extent) == rest * b;
    MinusOne(rest, b);
  }

  lemma {:induction false} CyclicHead(t: Layout, size: nat, b: nat, stride: int)
    requires Sound(t) && t.kind == Data && b >= 1
    ensures |CyclicEntries(t, size, b, stride)| == |t.entries| * size
    ensures size >= 1 ==> t.entries <= CyclicEntries(t, size, b, stride)
  {
    var count, rem, x := size / b, size % b, t.Extent();
    var v := VectorLayout(t, count, b, stride, x * b == stride);
    PlaceSize(t.entries, Arith(count * stride, x, rem));
    SplitSize(|t.entries|, count, b, rem, size);
    if count >= 1 {
      VectorHead(t, count, b, stride, x * b == stride);
      hide VectorLayout, Place, Arith;
    } else {
      assert v.entries == [];
      assert count * stride == 0;
      if rem >= 1 { PlaceHead(t.entries, Arith(0, x, rem)); }
      hide VectorLayout, Place, Arith;
    }
  }

  lemma {:induction false} SplitSize(x: nat, count: nat, b: nat, rem: nat, size: nat)
    requires b >= 1 && count == size / b && rem == size % b
    ensures x * size == x * (count * b) + x * rem
  {
    assert size == count * b + rem;
  }

  lemma {:induction false} VectorLike(t: Layout, count: nat, b: nat, stride: int, touching: bool)
    requires Sound(t) && t.kind == Data
    ensures Like(VectorLayout(t, count, b, stride, touching), t)
  {
    if count > 0 {
      if touching || count <= 1 {
        AddedLike(NEW_TYPE, t, count * b, 0, t.Extent(), t);
      } else if b == 1 {
        AddedLike(NEW_TYPE, t, count, 0, stride, t);
      } else {
        AddedLike(NEW_TYPE, t, b, 0, t.Extent(), t);
        AddedLike(NEW_TYPE, Added(NEW_TYPE, t, b, 0, t.Extent()), count, 0, stride, t);
      }
      hide Added;
    }
  }

  lemma {:induction false} VectorKeeps(t: Layout, count: nat, b: nat, stride: int, touching: bool)
    requires Sound(t) && t.kind == Data && t.entries != [] && count >= 1 && b >= 1 && (touching ==> t.Extent() * b == stride)
    ensures
      var v := VectorLayout(t, count, b, stride, touching);
      v.Bounded() && v.align == t.align && v.userUb == t.userUb
  {
    VectorLike(t, count, b, stride, touching);
    VectorHead(t, count, b, stride, touching);
    VectorExact(t, count, b, stride, touching);
    hide VectorLayout;
  }

  /** The blocks of a cyclic dimension, before the extent is set. */
  method CyclicBlocks(size: nat, b: nat, stride: int, typeOld: Type) returns (newType: Type)
    requires typeOld.Valid() && typeOld.kind == Data && b >= 1
    ensures fresh(newType) && newType.Valid() && newType.kind == Data
    ensures newType.entries == CyclicEntries(typeOld.Value(), size, b, stride)
    ensures Like(newType.Value(), typeOld.Value())
  {
    var count, rem := size / b, size % b;
    ghost var e, m := typeOld.Value().Extent(), typeOld.entries;
    VectorLike(typeOld.Value(), count, b, stride, e * b == stride);
    assert typeOld.align > 0;
    assert rem == 0 ==> Place(m, Arith(count * stride, e, rem)) == [] by { if rem == 0 { PlaceNone(m, count * stride, e); } }
    hide Place, Arith, StridedBlocks, VectorLayout, Sound, Like, Misread;
    newType := CreateHvector(count, b, stride, typeOld);
    if rem != 0 {
      newType := AddRest(newType, typeOld, rem, count * stride);
    }
  }

  /** A last block that is shorter than the others. */
  method AddRest(blocks: Type, typeOld: Type, rem: nat, disp: int) returns (newType: Type)
    requires blocks.Valid() && blocks.kind == Data && typeOld.Valid() && typeOld.kind == Data
    requires Like(blocks.Value(), typeOld.Value())
    ensures fresh(newType) && newType.Valid() && newType.kind == Data
    ensures newType.entries == blocks.entries + Place(typeOld.entries, Arith(disp, typeOld.Value().Extent(), rem))
    ensures Like(newType.Value(), typeOld.Value())
  {
    newType := CreateStruct([1, rem], [0, disp], [blocks, typeOld], typeOld.Value());
    TwoFields(FieldsOf([1, rem], [0, disp], [blocks, typeOld]), blocks.entries);
  }

  lemma {:induction false} TwoFields(fs: seq<Field>, first: seq<Entry>)
    requires |fs| == 2 && fs[0].t.entries == first && fs[0].length == 1 && fs[0].disp == 0
    ensures Fields(fs) == first + Place(fs[1].t.entries, Arith(fs[1].disp, fs[1].t.Extent(), fs[1].length))
  {
    FieldsLast(fs, 0);
    FieldsLast(fs, 1);
    assert Arith(0, fs[0].t.Extent(), 1) == [0];
    PlaceHere(first);
    assert fs[..2] == fs && Fields(fs[..0]) == [] && [] + first == first;
  }

  lemma {:induction false} CyclicMade(a: Axis, coord: nat, row: nat, extent: int, t: Layout, t': Layout)
    requires Legal(a) && a.dist.Cyclic? && Sound(t) && t.kind == Data && Like(t', t)
    requires t'.entries == CyclicEntries(t, LocalSize(a, coord), BlockSize(a), CyclicDistance(a, row, extent))
    requires t'.Bounded() && t'.Extent() == (row * a.g) * extent
    ensures forall first :: AxisMade(a, coord, row, extent, first, t, t')
  {
    var size, b, stride := LocalSize(a, coord), BlockSize(a), CyclicDistance(a, row, extent);
    CyclicHead(t, size, b, stride);
    if t.entries != [] { CyclicTells(t, a, coord, row, extent); }
    hide LocalSize, BlockSize, CyclicDistance, DimOf, Scaled, CyclicEntries, Place;
    if t.entries != [] && size >= 1 { assert t'.entries[0] == t.entries[0]; }
    assert forall first :: AxisFits(a, coord, row, extent, first, t.Extent()) <==> AxisFits(a, coord, row, extent, false, t.Extent());
  }

  /** A cyclic dimension; its extent is set to that of the whole dimension. */
  method CyclicType(a: Axis, coord: nat, row: nat, extent: int, typeOld: Type) returns (newType: Type, offset: int)
    requires Legal(a) && a.dist.Cyclic? && typeOld.Valid() && typeOld.kind == Data
    ensures fresh(newType) && newType.Valid() && newType.kind == Data && offset == DimOf(a, coord).start
    ensures forall first :: AxisMade(a, coord, row, extent, first, typeOld.Value(), newType.Value())
    ensures newType.Value().Bounded() && newType.Value().Extent() == (row * a.g) * extent
  {
    var b, size := BlockSize(a), LocalSize(a, coord);
    var stride := CyclicDistance(a, row, extent);
    offset := if size == 0 then 0 else coord * b;
    assert offset == DimOf(a, coord).start;
    hide Place, Arith, Scaled, DimOf, LocalSize, BlockSize, StridedBlocks, Sound, Combine, CyclicDistance, AxisMade, CyclicEntries;
    newType := CyclicBlocks(size, b, stride, typeOld);
    newType.Resize(0, (row * a.g) * extent);
    CyclicMade(a, coord, row, extent, typeOld.Value(), newType.Value());
  }
}
