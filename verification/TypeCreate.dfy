/** The datatype constructors: contiguous, vector, indexed and struct. They append to
    freshly created datatypes and merge blocks that touch. */
module TypeCreate {
  import opened TypeMaps

  class Type {
    const kind: Kind
    var entries: seq<Entry>
    var lb: Bound
    var ub: Bound
    var userLb: bool
    var userUb: bool
    var align: int

    function Value(): Layout
      reads this
    {
      Layout(kind, entries, lb, ub, userLb, userUb, align)
    }

    ghost predicate Valid()
      reads this
    {
      Sound(Value())
    }

    constructor ()
      ensures Valid() && Value() == NEW_TYPE
    {
      kind, entries, lb, ub, userLb, userUb, align := Data, [], None, None, false, false, 1;
    }

    constructor Marker(kind: Kind)
      ensures Valid() && Value() == NEW_TYPE.(kind := kind)
    {
      this.kind, entries, lb, ub, userLb, userUb, align := kind, [], None, None, false, false, 1;
    }

    constructor Copy(t: Type)
      requires t.Valid()
      ensures Valid() && Value() == t.Value()
    {
      kind, entries, lb, ub, userLb, userUb, align := t.kind, t.entries, t.lb, t.ub, t.userLb, t.userUb, t.align;
    }

    /** Adds count copies of t. */
    method Add(t: Type, count: nat, disp: int, extent: int)
      requires Valid() && t.Valid() && t != this && kind == Data
      modifies this
      ensures Valid() && Value() == Added(old(Value()), t.Value(), count, disp, extent)
      ensures entries == old(entries) + Place(t.entries, Arith(disp, if extent == -1 then t.Value().Extent() else extent, count))
    {
      AddedEntries(Value(), t.Value(), count, disp, extent);
      AddedSound(Value(), t.Value(), count, disp, extent);
      hide Place, Arith, Sound, AddedData, Least, Greatest;
      if count == 0 {
        return;
      }
      var step := if extent == -1 then t.Value().Extent() else extent;
      if t.kind == LbMarker {
        lb := if userLb then Least(lb, Some(disp)) else Some(disp);
        userLb := true;
        return;
      }
      if t.kind == UbMarker {
        ub := if userUb then Greatest(ub, Some(disp)) else Some(disp);
        userUb := true;
        return;
      }
      AddData(t, count, disp, step);
    }

    method AddData(t: Type, count: nat, disp: int, step: int)
      requires align > 0 && t.align > 0 && t != this
      modifies this
      ensures Value() == AddedData(old(Value()), t.Value(), count, disp, step)
    {
      hide Place, Arith, RoundedUb, NewLb, NewUb, Plus, LastAt;
      var last := LastAt(disp, step, count);
      var low := Plus(t.lb, if disp < last then disp else last);
      var high := Plus(t.ub, if disp < last then last else disp);
      var newLb, newUb := NewLb(lb, userLb, low, t.userLb), NewUb(ub, userUb, high, t.userUb);
      var newAlign := if align < t.align then t.align else align;
      if !userUb && !t.userUb && newLb.Some? && newUb.Some? {
        newUb := Some(RoundedUb(newLb.value, newUb.value, newAlign));
      }
      var more := Place(t.entries, Arith(disp, step, count));
      lb, ub, userLb, userUb, align, entries := newLb, newUb, userLb || t.userLb, userUb || t.userUb, newAlign, entries + more;
    }

    method Resize(newLb: int, extent: int)
      requires Valid() && kind == Data
      modifies this`lb, this`ub
      ensures Valid() && Value() == old(Value()).(lb := Some(newLb), ub := Some(newLb + extent))
    {
      lb := Some(newLb);
      ub := Some(newLb + extent);
    }
  }

  /** Markers have no items, and a datatype with items has bounds. */
  ghost predicate Sound(t: Layout) {
    t.align > 0 && (t.kind == Data || t.entries == []) && (t.entries != [] ==> t.Bounded())
    && (t.userLb ==> t.lb.Some?) && (t.userUb ==> t.ub.Some?)
  }

  lemma {:induction false} AddedSound(p: Layout, t: Layout, count: nat, disp: int, extent: int)
    requires Sound(p) && Sound(t) && p.kind == Data
    ensures Sound(Added(p, t, count, disp, extent))
  {
    PlaceNothing(Arith(disp, if extent == -1 then t.Extent() else extent, count));
  }

  /** Rounding up the bounds changes nothing for extents that are multiples of z. */
  predicate Padless(t: Layout, z: int) {
    t.align > 0 && (t.userUb || z % t.align == 0)
  }

  /** Alignment and kind of bounds are those of the model, if there are items, and ask for
      no more than it otherwise. */
  predicate Like(t: Layout, model: Layout) {
    && t.align <= model.align && (t.userUb ==> model.userUb)
    && (t.entries != [] ==> t.align == model.align && t.userUb == model.userUb)
  }

  lemma {:induction false} AddedLike(p: Layout, t: Layout, count: nat, disp: int, extent: int, model: Layout)
    requires p.align > 0 && t.align > 0 && t.kind == Data && Like(p, model) && Like(t, model)
    ensures Like(Added(p, t, count, disp, extent), model)
  {
    var step := if extent == -1 then t.Extent() else extent;
    if t.entries == [] { PlaceNothing(Arith(disp, step, count)); }
    hide Place, Arith;
    assert Added(p, t, count, disp, extent).entries == (if count == 0 then p.entries else p.entries + Place(t.entries, Arith(disp, step, count)));
  }

  // ----- contiguous and vector -----

  /** What the standard says: count blocks of b items, the blocks a stride apart. */
  function StridedBlocks(count: nat, b: nat, stride: int, extent: int): seq<int> {
    Combine(Arith(0, extent, b), Arith(0, stride, count))
  }

  /** What the constructors of vectors build. */
  function VectorLayout(t: Layout, count: nat, b: nat, stride: int, touching: bool): Layout
    requires t.align > 0
  {
    if count == 0 then NEW_TYPE
    else if touching || count <= 1 then Added(NEW_TYPE, t, count * b, 0, t.Extent())
    else if b == 1 then Added(NEW_TYPE, t, count, 0, stride)
    else Added(NEW_TYPE, Added(NEW_TYPE, t, b, 0, t.Extent()), count, 0, stride)
  }

  /** Blocks that are to lie one byte before each other: the stride is taken for the
      request to use the extent. */
  predicate Misread(t: Layout, count: nat, b: nat, stride: int, touching: bool) {
    stride == -1 && !touching && count >= 2 && b >= 1 && t.entries != [] && !(b == 1 && t.Extent() == -1)
  }

  lemma {:induction false} AddedToNew(t: Layout, count: nat, disp: int, extent: int)
    requires Sound(t) && t.kind == Data
    ensures Sound(Added(NEW_TYPE, t, count, disp, extent)) && Added(NEW_TYPE, t, count, disp, extent).kind == Data
    ensures
      Added(NEW_TYPE, t, count, disp, extent).entries
      == Place(t.entries, Arith(disp, if extent == -1 then t.Extent() else extent, count))
  {
    AddedEntries(NEW_TYPE, t, count, disp, extent);
    AddedSound(NEW_TYPE, t, count, disp, extent);
    hide Added, Place, Arith, Sound;
  }

  lemma {:induction false} RoundsUp(lb: int, ub: int, align: int)
    requires align > 0
    ensures RoundedUb(lb, ub, align) >= ub
  {
  }

  lemma {:induction false} SpreadOut(e: int, b: nat)
    requires b >= 2
    ensures if 0 < LastAt(0, e, b) then LastAt(0, e, b) >= e > 0 else LastAt(0, e, b) <= e <= 0
  {
    assert e * (b - 1) == e + e * (b - 2);
    if e > 0 { assert e * (b - 2) >= 0; } else { assert e * (b - 2) <= 0; }
  }

  /** The extent of a block of two or more is not negative. */
  lemma {:induction false} BlockExtent(t: Layout, b: nat)
    requires Sound(t) && t.kind == Data && t.entries != [] && b >= 2
    ensures Added(NEW_TYPE, t, b, 0, t.Extent()).Extent() >= 0
  {
    var e := t.Extent();
    var last, r := LastAt(0, e, b), AddedData(NEW_TYPE, t, b, 0, e);
    SpreadOut(e, b);
    var low, high := t.lb.value + (if 0 < last then 0 else last), t.ub.value + (if 0 < last then last else 0);
    RoundsUp(low, high, if 1 < t.align then t.align else 1);
    hide Place, Arith, LastAt, RoundedUb;
    assert r.lb == Some(low);
    assert r.ub.Some? && r.ub.value >= high;
  }

  /** The constructed vector is what the standard says exactly when its stride is not misread. */
  lemma {:induction false} VectorExact(t: Layout, count: nat, b: nat, stride: int, touching: bool)
    requires Sound(t) && t.kind == Data && (touching ==> t.Extent() * b == stride)
    ensures Sound(VectorLayout(t, count, b, stride, touching))
    ensures VectorLayout(t, count, b, stride, touching).entries == Place(t.entries, StridedBlocks(count, b, stride, t.Extent()))
      <==> !Misread(t, count, b, stride, touching)
  {
    assert Sound(NEW_TYPE);
    hide Added, Place, Arith, Sound, Combine;
    var e, m := t.Extent(), t.entries;
    var all := StridedBlocks(count, b, stride, e);
    if count == 0 {
      NoBlocks(m, b, stride, e);
    } else if touching || count <= 1 {
      AddedToNew(t, count * b, 0, e);
      assert Arith(0, e, count * b) == all by {
        if touching { CombineTouching(e, b, count); assert e * b == b * e; } else { OneBlock(b, stride, e); }
      }
    } else if b == 1 {
      AddedToNew(t, count, 0, stride);
      assert all == Arith(0, stride, count) by { SingleItems(count, stride, e); }
      if stride == -1 && m != [] && e != -1 && Place(m, Arith(0, e, count)) == Place(m, Arith(0, -1, count)) {
        PlaceDistance(m, e, -1, count);
      }
      if m == [] { PlaceNothing(Arith(0, stride, count)); PlaceNothing(Arith(0, e, count)); }
    } else {
      var block := Added(NEW_TYPE, t, b, 0, e);
      AddedToNew(t, b, 0, e);
      AddedToNew(block, count, 0, stride);
      PlaceTwice(m, Arith(0, e, b), Arith(0, stride, count));
      BlockItems(t, b, block, count, stride);
    }
  }

  /** A vector of three bytes, each to lie before the last one, lies the other way round. */
  lemma {:induction false} VectorMisread(prim: Prim)
    ensures
      var t := Layout(Data, [Entry(prim, 0)], Some(0), Some(1), false, false, 1);
      && Sound(t) && Misread(t, 3, 1, -1, false)
      && Place(t.entries, StridedBlocks(3, 1, -1, 1)) == [Entry(prim, 0), Entry(prim, -1), Entry(prim, -2)]
      && VectorLayout(t, 3, 1, -1, false).entries == [Entry(prim, 0), Entry(prim, 1), Entry(prim, 2)]
  {
    var t := Layout(Data, [Entry(prim, 0)], Some(0), Some(1), false, false, 1);
    AddedToNew(t, 3, 0, -1);
    SingleItems(3, -1, 1);
    hide Added, StridedBlocks;
    ThreePlaces(Entry(prim, 0), 1);
    ThreePlaces(Entry(prim, 0), -1);
  }

  lemma {:induction false} ThreePlaces(e: Entry, step: int)
    ensures Place([e], Arith(0, step, 3)) == [e, Entry(e.prim, e.disp + step), Entry(e.prim, e.disp + 2 * step)]
  {
    assert Arith(0, step, 3) == [] + [0] + [step] + [2 * step];
    PlaceLast([e], [], 0);
    PlaceLast([e], [] + [0], step);
    PlaceLast([e], [] + [0] + [step], 2 * step);
  }

  lemma {:induction false} TwoPlaces(e: Entry, step: int)
    ensures Place([e], Arith(0, step, 2)) == [e, Entry(e.prim, e.disp + step)]
  {
    assert Arith(0, step, 2) == [] + [0] + [step];
    PlaceLast([e], [], 0);
    PlaceLast([e], [] + [0], step);
  }

  // ----- extents, and what goes wrong stays wrong -----

  lemma {:induction false} AddedExtent(t: Layout, count: nat, step: int)
    requires Sound(t) && t.kind == Data && t.Bounded() && count >= 1
    ensures
      var r := AddedData(NEW_TYPE, t, count, 0, step);
      && r.Bounded() && r.align == t.align && r.userUb == t.userUb
      && r.Extent() == CopiesExtent(t.Extent(), count, step, t.align, t.userUb)
  {
    hide Place, Arith;
    var r := AddedData(NEW_TYPE, t, count, 0, step);
    var last := step * (count - 1);
    var far := if step >= 0 then last else -last;
    SignOf(step, count - 1);
    var low, high := t.lb.value + (if 0 < last then 0 else last), t.ub.value + (if 0 < last then last else 0);
    assert high - low == t.Extent() + far;
    RoundedAt(low, high, t.align);
    assert r.lb == Some(low);
  }

  lemma {:induction false} SignOf(step: int, n: nat)
    ensures step >= 0 ==> step * n >= 0
    ensures step < 0 ==> step * n <= 0 && -(step * n) == (-step) * n
  {
  }

  lemma {:induction false} RoundedAt(lb: int, ub: int, align: int)
    requires align > 0
    ensures RoundedUb(lb, ub, align) == lb + RoundedUb(0, ub - lb, align)
  {
  }

  /** A vector of at least one item begins with a copy of it, and has all copies. */
  lemma {:induction false} VectorHead(t: Layout, count: nat, b: nat, stride: int, touching: bool)
    requires Sound(t) && t.kind == Data && count >= 1 && b >= 1 && (touching ==> t.Extent() * b == stride)
    ensures
      var v := VectorLayout(t, count, b, stride, touching);
      t.entries <= v.entries && |v.entries| == |t.entries| * (count * b)
  {
    assert t.align > 0 && NEW_TYPE.align > 0;
    hide Place, Sound, Added;
    var e := t.Extent();
    if touching || count <= 1 {
      assert count * b >= 1;
      AddedToNew(t, count * b, 0, e);
      PlaceHead(t.entries, Arith(0, e, count * b));
    } else if b == 1 {
      AddedToNew(t, count, 0, stride);
      PlaceHead(t.entries, Arith(0, if stride == -1 then e else stride, count));
    } else {
      BlocksHead(t, count, b, stride);
    }
  }

  lemma {:induction false} BlocksHead(t: Layout, count: nat, b: nat, stride: int)
    requires Sound(t) && t.kind == Data && count >= 1 && b >= 1
    ensures
      var v := Added(NEW_TYPE, Added(NEW_TYPE, t, b, 0, t.Extent()), count, 0, stride);
      t.entries <= v.entries && |v.entries| == |t.entries| * (count * b)
  {
    var e := t.Extent();
    var block := Added(NEW_TYPE, t, b, 0, e);
    AddedToNew(t, b, 0, e);
    AddedToNew(block, count, 0, stride);
    hide Place, Sound, Added;
    PlaceHead(t.entries, Arith(0, e, b));
    PlaceHead(block.entries, Arith(0, if stride == -1 then block.Extent() else stride, count));
    TimesOver(|t.entries|, b, count);
  }

  lemma {:induction false} TimesOver(x: nat, b: nat, count: nat)
    ensures (x * b) * count == x * (count * b)
  {
  }

  /** A vector of single items that is not misread keeps the alignment and the kind of
      bounds, and has the extent that its stride gives. */
  lemma {:induction false} SingleExtent(t: Layout, count: nat, stride: int, touching: bool)
    requires Sound(t) && t.kind == Data && t.entries != [] && count >= 1 && (touching ==> t.Extent() == stride)
    requires !Misread(t, count, 1, stride, touching)
    ensures
      var v := VectorLayout(t, count, 1, stride, touching);
      && v.Bounded() && v.align == t.align && v.userUb == t.userUb
      && v.Extent() == CopiesExtent(t.Extent(), count, stride, t.align, t.userUb)
  {
    var e := t.Extent();
    if touching || count <= 1 {
      AddedExtent(t, count, e);
      assert count == 1 ==> CopiesExtent(e, count, e, t.align, t.userUb) == CopiesExtent(e, count, stride, t.align, t.userUb);
    } else {
      AddedExtent(t, count, if stride == -1 then e else stride);
    }
    hide AddedData, CopiesExtent;
    assert count * 1 == count;
  }

  lemma {:induction false} BlockItems(t: Layout, b: nat, block: Layout, count: nat, stride: int)
    requires Sound(t) && t.kind == Data && b != 1 && count >= 2 && block == Added(NEW_TYPE, t, b, 0, t.Extent())
    requires block.entries == Place(t.entries, Arith(0, t.Extent(), b))
    ensures Place(block.entries, Arith(0, if stride == -1 then block.Extent() else stride, count))
         == Place(block.entries, Arith(0, stride, count))
      <==> !(stride == -1 && b >= 1 && t.entries != [])
  {
    hide Added, Sound;
    PlaceSize(t.entries, Arith(0, t.Extent(), b));
    if b == 0 || t.entries == [] {
      assert |t.entries| * b == 0;
      assert block.entries == [];
      PlaceNothing(Arith(0, stride, count));
      PlaceNothing(Arith(0, block.Extent(), count));
    } else if stride == -1 {
      assert |t.entries| * b > 0;
      BlockExtent(t, b);
      if Place(block.entries, Arith(0, block.Extent(), count)) == Place(block.entries, Arith(0, -1, count)) {
        PlaceDistance(block.entries, block.Extent(), -1, count);
      }
    }
  }

  lemma {:induction false} NoBlocks(m: seq<Entry>, b: nat, stride: int, extent: int)
    ensures Place(m, StridedBlocks(0, b, stride, extent)) == []
  {
    assert Arith(0, stride, 0) == [];
  }

  lemma {:induction false} OneBlock(b: nat, stride: int, extent: int)
    ensures StridedBlocks(1, b, stride, extent) == Arith(0, extent, 1 * b)
  {
    assert Arith(0, stride, 1) == [0];
    CombineOne(Arith(0, extent, b), 0);
    assert Moved(Arith(0, extent, b), 0) == Arith(0, extent, 1 * b);
  }

  lemma {:induction false} SingleItems(count: nat, stride: int, extent: int)
    ensures StridedBlocks(count, 1, stride, extent) == Arith(0, stride, count)
  {
    assert Arith(0, extent, 1) == [0];
    CombineWithOne(Arith(0, stride, count));
  }

  method CreateContiguous(count: nat, oldType: Type) returns (newType: Type)
    requires oldType.Valid() && oldType.kind == Data
    ensures fresh(newType) && newType.Valid() && newType.kind == Data
    ensures newType.entries == Place(oldType.entries, Arith(0, oldType.Value().Extent(), count))
    ensures newType.Value() == Added(NEW_TYPE, oldType.Value(), count, 0, oldType.Value().Extent())
  {
    AddedToNew(oldType.Value(), count, 0, oldType.Value().Extent());
    hide Sound, Added, Place, Arith;
    newType := new Type();
    newType.Add(oldType, count, 0, oldType.Value().Extent());
  }

  /** The stride is in bytes. */
  method CreateHvector(count: nat, b: nat, stride: int, oldType: Type) returns (newType: Type)
    requires oldType.Valid() && oldType.kind == Data
    ensures fresh(newType) && newType.Valid() && newType.kind == Data
    ensures newType.Value() == VectorLayout(oldType.Value(), count, b, stride, oldType.Value().Extent() * b == stride)
    ensures newType.entries == Place(oldType.entries, StridedBlocks(count, b, stride, oldType.Value().Extent()))
      <==> !Misread(oldType.Value(), count, b, stride, oldType.Value().Extent() * b == stride)
  {
    var extent := oldType.Value().Extent();
    VectorExact(oldType.Value(), count, b, stride, extent * b == stride);
    hide Place, Arith, StridedBlocks, Misread, Added;
    newType := new Type();
    if count == 0 {
      return;
    }
    if extent * b == stride || 1 >= count {
      newType.Add(oldType, count * b, 0, extent);
    } else if 1 == b {
      newType.Add(oldType, count, 0, stride);
    } else {
      newType.Add(oldType, b, 0, extent);
      var block := newType;
      newType := new Type();
      newType.Add(block, count, 0, stride);
    }
  }

  /** The stride is in items. */
  method CreateVector(count: nat, b: nat, stride: int, oldType: Type) returns (newType: Type)
    requires oldType.Valid() && oldType.kind == Data
    ensures fresh(newType) && newType.Valid() && newType.kind == Data
    ensures newType.Value() == VectorLayout(oldType.Value(), count, b, oldType.Value().Extent() * stride, b == stride)
    ensures newType.entries == Place(oldType.entries, StridedBlocks(count, b, oldType.Value().Extent() * stride, oldType.Value().Extent()))
      <==> !Misread(oldType.Value(), count, b, oldType.Value().Extent() * stride, b == stride)
  {
    var extent := oldType.Value().Extent();
    VectorExact(oldType.Value(), count, b, extent * stride, b == stride);
    hide Place, Arith, StridedBlocks, Misread, Added;
    newType := new Type();
    if 0 == count {
      return;
    }
    if b == stride || 1 >= count {
      newType.Add(oldType, count * b, 0, extent);
    } else if 1 == b {
      newType.Add(oldType, count, 0, extent * stride);
    } else {
      newType.Add(oldType, b, 0, extent);
      var block := newType;
      newType := new Type();
      newType.Add(block, count, 0, extent * stride);
    }
  }
}
