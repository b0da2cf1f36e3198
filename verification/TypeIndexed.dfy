/** The constructors for irregular layouts merge a block into the one before it when
    it starts where that one ends; the type map stays that of the separate blocks. */
module TypeIndexed {
  import opened TypeMaps
  import opened TypeCreate

  /** The displacements of all blocks, one block after the other. */
  function Blocks(lengths: seq<nat>, starts: seq<int>, extent: int): seq<int>
    requires |lengths| == |starts|
  {
    if lengths == [] then []
    else
      var n := |lengths| - 1;
      Blocks(lengths[..n], starts[..n], extent) + Arith(starts[n], extent, lengths[n])
  }

  lemma {:induction false} BlocksLast(lengths: seq<nat>, starts: seq<int>, extent: int, i: nat)
    requires |lengths| == |starts| && i < |lengths|
    ensures Blocks(lengths[..i + 1], starts[..i + 1], extent) == Blocks(lengths[..i], starts[..i], extent) + Arith(starts[i], extent, lengths[i])
  {
    assert lengths[..i + 1][..i] == lengths[..i] && starts[..i + 1][..i] == starts[..i];
  }

  /** Everything added so far and the block that is still open make up the first i blocks. */
  ghost predicate Merged(m: seq<Entry>, added: seq<Entry>, lengths: seq<nat>, starts: seq<int>, extent: int, i: nat, disp: int, length: nat)
    requires |lengths| == |starts| && i <= |lengths|
  {
    added + Place(m, Arith(disp, extent, length)) == Place(m, Blocks(lengths[..i], starts[..i], extent))
  }

  lemma {:induction false} FirstBlock(m: seq<Entry>, lengths: seq<nat>, starts: seq<int>, extent: int)
    requires |lengths| == |starts| > 0
    ensures Merged(m, [], lengths, starts, extent, 1, starts[0], lengths[0])
  {
    BlocksLast(lengths, starts, extent, 0);
    assert Blocks([], [], extent) == [];
    assert [] + Arith(starts[0], extent, lengths[0]) == Arith(starts[0], extent, lengths[0]);
    assert [] + Place(m, Arith(starts[0], extent, lengths[0])) == Place(m, Arith(starts[0], extent, lengths[0]));
  }

  /** The next block continues the open one. */
  lemma {:induction false} JoinBlock(
    m: seq<Entry>, added: seq<Entry>, lengths: seq<nat>, starts: seq<int>, extent: int, i: nat, disp: int, length: nat)
    requires |lengths| == |starts| && i < |lengths| && Merged(m, added, lengths, starts, extent, i, disp, length)
    requires starts[i] == disp + length * extent
    ensures Merged(m, added, lengths, starts, extent, i + 1, disp, length + lengths[i])
  {
    hide Place, Arith, Blocks;
    var open, next := Arith(disp, extent, length), Arith(starts[i], extent, lengths[i]);
    BlocksLast(lengths, starts, extent, i);
    PlaceConcat(m, Blocks(lengths[..i], starts[..i], extent), next);
    ArithSplit(disp, extent, length, lengths[i]);
    PlaceConcat(m, open, next);
    assert added + (Place(m, open) + Place(m, next)) == added + Place(m, open) + Place(m, next);
  }

  /** The open block is added, and the next one opened. */
  lemma {:induction false} CloseBlock(
    m: seq<Entry>, added: seq<Entry>, lengths: seq<nat>, starts: seq<int>, extent: int, i: nat, disp: int, length: nat)
    requires |lengths| == |starts| && i < |lengths| && Merged(m, added, lengths, starts, extent, i, disp, length)
    ensures Merged(m, added + Place(m, Arith(disp, extent, length)), lengths, starts, extent, i + 1, starts[i], lengths[i])
  {
    hide Place, Arith, Blocks;
    BlocksLast(lengths, starts, extent, i);
    PlaceConcat(m, Blocks(lengths[..i], starts[..i], extent), Arith(starts[i], extent, lengths[i]));
  }

  lemma {:induction false} LastBlock(m: seq<Entry>, added: seq<Entry>, lengths: seq<nat>, starts: seq<int>, extent: int, disp: int, length: nat)
    requires |lengths| == |starts| && Merged(m, added, lengths, starts, extent, |lengths|, disp, length)
    ensures added + Place(m, Arith(disp, extent, length)) == Place(m, Blocks(lengths, starts, extent))
  {
    assert lengths[..|lengths|] == lengths && starts[..|starts|] == starts;
  }

  /** A block of consecutive items. */
  method Append(p: Type, t: Type, count: nat, disp: int)
    requires p.Valid() && t.Valid() && p != t && p.kind == Data
    modifies p
    ensures p.Valid() && p.entries == old(p.entries) + Place(t.entries, Arith(disp, t.Value().Extent(), count))
    ensures p.Value() == Added(old(p.Value()), t.Value(), count, disp, t.Value().Extent())
  {
    p.Add(t, count, disp, t.Value().Extent());
  }

  /** Displacements in bytes. */
  method CreateHindexed(lengths: seq<nat>, disps: seq<int>, oldType: Type) returns (newType: Type)
    requires |lengths| == |disps| && oldType.Valid() && oldType.kind == Data
    ensures fresh(newType) && newType.Valid() && newType.kind == Data
    ensures newType.entries == Place(oldType.entries, Blocks(lengths, disps, oldType.Value().Extent()))
  {
    newType := new Type();
    if |lengths| == 0 {
      return;
    }
    var extent, m := oldType.Value().Extent(), oldType.entries;
    var disp, dLength: nat := disps[0], lengths[0];
    var endat := disp + dLength * extent;
    FirstBlock(m, lengths, disps, extent);
    hide Place, Arith, Blocks, Merged, Added, Sound;
    var i := 1;
    while i < |lengths|
      invariant 1 <= i <= |lengths| && fresh(newType) && newType.Valid() && newType.kind == Data
      invariant endat == disp + dLength * extent
      invariant Merged(m, newType.entries, lengths, disps, extent, i, disp, dLength)
    {
      if endat == disps[i] {
        JoinBlock(m, newType.entries, lengths, disps, extent, i, disp, dLength);
        Distribute(dLength, lengths[i], extent);
        dLength := dLength + lengths[i];
        endat := endat + lengths[i] * extent;
      } else {
        CloseBlock(m, newType.entries, lengths, disps, extent, i, disp, dLength);
        Append(newType, oldType, dLength, disp);
        disp := disps[i];
        dLength := lengths[i];
        endat := disp + lengths[i] * extent;
      }
      i := i + 1;
    }
    LastBlock(m, newType.entries, lengths, disps, extent, disp, dLength);
    Append(newType, oldType, dLength, disp);
  }

  lemma {:induction false} Distribute(a: int, b: int, extent: int)
    ensures (a + b) * extent == a * extent + b * extent
  {
  }

  /** Displacements in items. */
  method CreateIndexed(lengths: seq<nat>, disps: seq<int>, oldType: Type) returns (newType: Type)
    requires |lengths| == |disps| && oldType.Valid() && oldType.kind == Data
    ensures fresh(newType) && newType.Valid() && newType.kind == Data
    ensures newType.entries
      == Place(oldType.entries, Blocks(lengths, Scaled(disps, oldType.Value().Extent()), oldType.Value().Extent()))
  {
    newType := new Type();
    if |lengths| == 0 {
      return;
    }
    var extent, m := oldType.Value().Extent(), oldType.entries;
    var disp, dLength: nat := disps[0], lengths[0];
    var endat := disp + dLength;
    ghost var starts := Scaled(disps, extent);
    FirstBlock(m, lengths, starts, extent);
    hide Place, Arith, Blocks, Merged, Added, Sound, Scaled;
    var i := 1;
    while i < |lengths|
      invariant 1 <= i <= |lengths| && fresh(newType) && newType.Valid() && newType.kind == Data
      invariant endat == disp + dLength
      invariant Merged(m, newType.entries, lengths, starts, extent, i, disp * extent, dLength)
    {
      if endat == disps[i] {
        Distribute(disp, dLength, extent);
        JoinBlock(m, newType.entries, lengths, starts, extent, i, disp * extent, dLength);
        dLength := dLength + lengths[i];
        endat := endat + lengths[i];
      } else {
        CloseBlock(m, newType.entries, lengths, starts, extent, i, disp * extent, dLength);
        Append(newType, oldType, dLength, disp * extent);
        disp := disps[i];
        dLength := lengths[i];
        endat := disp + lengths[i];
      }
      i := i + 1;
    }
    LastBlock(m, newType.entries, lengths, starts, extent, disp * extent, dLength);
    Append(newType, oldType, dLength, disp * extent);
  }

  function Same(n: nat, b: nat): (r: seq<nat>)
    ensures |r| == n && forall i :: 0 <= i < n ==> r[i] == b
  {
    seq(n, _ => b)
  }

  lemma {:induction false} EmptyBlocks(starts: seq<int>, extent: int)
    ensures Blocks(Same(|starts|, 0), starts, extent) == []
    decreases |starts|
  {
    if starts != [] {
      var n := |starts| - 1;
      EmptyBlocks(starts[..n], extent);
      assert Same(|starts|, 0)[..n] == Same(n, 0);
      assert Arith(starts[n], extent, 0) == [];
    }
  }

  /** Blocks of equal length. */
  method CreateIndexedBlock(b: nat, disps: seq<int>, oldType: Type) returns (newType: Type)
    requires oldType.Valid() && oldType.kind == Data
    ensures fresh(newType) && newType.Valid() && newType.kind == Data
    ensures newType.entries
      == Place(oldType.entries, Blocks(Same(|disps|, b), Scaled(disps, oldType.Value().Extent()), oldType.Value().Extent()))
  {
    newType := new Type();
    var extent, m := oldType.Value().Extent(), oldType.entries;
    ghost var starts, lengths := Scaled(disps, extent), Same(|disps|, b);
    if |disps| == 0 || b == 0 {
      EmptyBlocks(starts, extent);
      if |disps| > 0 {
        newType.Add(oldType, 0, disps[0] * extent, extent);
      }
      return;
    }
    var disp, dLength: nat := disps[0], b;
    var endat := disp + dLength;
    FirstBlock(m, lengths, starts, extent);
    hide Place, Arith, Blocks, Merged, Added, Sound, Scaled, Same;
    var i := 1;
    while i < |disps|
      invariant 1 <= i <= |disps| && fresh(newType) && newType.Valid() && newType.kind == Data
      invariant endat == disp + dLength
      invariant Merged(m, newType.entries, lengths, starts, extent, i, disp * extent, dLength)
    {
      if endat == disps[i] {
        Distribute(disp, dLength, extent);
        JoinBlock(m, newType.entries, lengths, starts, extent, i, disp * extent, dLength);
        dLength := dLength + b;
        endat := endat + b;
      } else {
        CloseBlock(m, newType.entries, lengths, starts, extent, i, disp * extent, dLength);
        Append(newType, oldType, dLength, disp * extent);
        disp := disps[i];
        dLength := b;
        endat := disp + b;
      }
      i := i + 1;
    }
    LastBlock(m, newType.entries, lengths, starts, extent, disp * extent, dLength);
    Append(newType, oldType, dLength, disp * extent);
  }

  // ----- struct -----

  /** One member of a struct: length items of a type from a displacement on. */
  datatype Field = Field(length: nat, disp: int, t: Layout)

  /** The members one after the other, each added separately. */
  function Fields(fs: seq<Field>): seq<Entry> {
    if fs == [] then []
    else
      var f := fs[|fs| - 1];
      Fields(fs[..|fs| - 1]) + Place(f.t.entries, Arith(f.disp, f.t.Extent(), f.length))
  }

  ghost function FieldsOf(lengths: seq<nat>, disps: seq<int>, types: seq<Type>): (fs: seq<Field>)
    requires |lengths| == |disps| == |types|
    reads types
    ensures |fs| == |types| && forall i :: 0 <= i < |fs| ==> fs[i] == Field(lengths[i], disps[i], types[i].Value())
  {
    seq(|types|, i requires 0 <= i < |types| reads types => Field(lengths[i], disps[i], types[i].Value()))
  }

  lemma {:induction false} FieldsLast(fs: seq<Field>, i: nat)
    requires i < |fs|
    ensures Fields(fs[..i + 1]) == Fields(fs[..i]) + Place(fs[i].t.entries, Arith(fs[i].disp, fs[i].t.Extent(), fs[i].length))
  {
    assert fs[..i + 1][..i] == fs[..i];
  }

  ghost predicate MergedFields(added: seq<Entry>, fs: seq<Field>, i: nat, t: Layout, disp: int, length: nat)
    requires i <= |fs|
  {
    added + Place(t.entries, Arith(disp, t.Extent(), length)) == Fields(fs[..i])
  }

  lemma {:induction false} FirstField(fs: seq<Field>)
    requires fs != []
    ensures MergedFields([], fs, 1, fs[0].t, fs[0].disp, fs[0].length)
  {
    FieldsLast(fs, 0);
    var p := Place(fs[0].t.entries, Arith(fs[0].disp, fs[0].t.Extent(), fs[0].length));
    assert Fields(fs[..0]) == [] && [] + p == p;
  }

  lemma {:induction false} JoinField(added: seq<Entry>, fs: seq<Field>, i: nat, t: Layout, disp: int, length: nat)
    requires i < |fs| && MergedFields(added, fs, i, t, disp, length) && fs[i].t == t && fs[i].disp == EndOf(disp, length, t.Extent())
    ensures MergedFields(added, fs, i + 1, t, disp, length + fs[i].length)
  {
    hide Place, Arith, Fields;
    FieldsLast(fs, i);
    var open, next := Arith(disp, t.Extent(), length), Arith(fs[i].disp, t.Extent(), fs[i].length);
    ArithSplit(disp, t.Extent(), length, fs[i].length);
    PlaceConcat(t.entries, open, next);
    assert added + (Place(t.entries, open) + Place(t.entries, next)) == added + Place(t.entries, open) + Place(t.entries, next);
  }

  lemma {:induction false} CloseField(added: seq<Entry>, fs: seq<Field>, i: nat, t: Layout, disp: int, length: nat)
    requires i < |fs| && MergedFields(added, fs, i, t, disp, length)
    ensures MergedFields(added + Place(t.entries, Arith(disp, t.Extent(), length)), fs, i + 1, fs[i].t, fs[i].disp, fs[i].length)
  {
    hide Place, Arith, Fields;
    FieldsLast(fs, i);
  }

  function EndOf(disp: int, length: nat, extent: int): int {
    disp + extent * length
  }

  /** The members are those the arguments describe. */
  ghost predicate Describe(fs: seq<Field>, lengths: seq<nat>, disps: seq<int>, types: seq<Type>)
    reads types
  {
    && |fs| == |lengths| == |disps| == |types|
    && forall i :: 0 <= i < |fs| ==> types[i].Valid() && fs[i] == Field(lengths[i], disps[i], types[i].Value())
  }

  lemma {:induction false} DescribeAt(fs: seq<Field>, lengths: seq<nat>, disps: seq<int>, types: seq<Type>, i: nat)
    requires Describe(fs, lengths, disps, types) && i < |types|
    ensures |fs| == |lengths| == |disps| == |types|
    ensures types[i].Valid() && fs[i] == Field(lengths[i], disps[i], types[i].Value())
  {
  }

  /** All types have the kind of bounds and the alignment of the model, as far as they have items. */
  ghost predicate AllLike(types: seq<Type>, model: Layout)
    reads types
  {
    forall i :: 0 <= i < |types| ==> types[i].kind == Data && Like(types[i].Value(), model)
  }

  method CreateStruct(lengths: seq<nat>, disps: seq<int>, types: seq<Type>, ghost model: Layout) returns (newType: Type)
    requires |lengths| == |disps| == |types| && model.align > 0
    requires forall i :: 0 <= i < |types| ==> types[i].Valid()
    ensures fresh(newType) && newType.Valid() && newType.kind == Data
    ensures newType.entries == Fields(FieldsOf(lengths, disps, types))
    ensures AllLike(types, model) ==> Like(newType.Value(), model)
  {
    ghost var fs := FieldsOf(lengths, disps, types);
    assert Describe(fs, lengths, disps, types);
    newType := new Type();
    if |types| == 0 {
      return;
    }
    AddFields(newType, fs, lengths, disps, types, model);
  }

  /** The loop over the members. */
  method AddFields(newType: Type, ghost fs: seq<Field>, lengths: seq<nat>, disps: seq<int>, types: seq<Type>, ghost model: Layout)
    requires Describe(fs, lengths, disps, types) && types != [] && newType !in types
    requires newType.Valid() && newType.kind == Data && newType.entries == [] && Like(newType.Value(), model)
    modifies newType
    ensures newType.Valid() && newType.entries == Fields(fs)
    ensures AllLike(types, model) ==> Like(newType.Value(), model)
  {
    DescribeAt(fs, lengths, disps, types, 0);
    var last: nat, lastBlock: nat, lastDisp := 0, lengths[0], disps[0];
    FirstField(fs);
    hide *;
    var i := 1;
    while i < |types|
      invariant 1 <= i <= |types| && last < i && newType.Valid()
      invariant Describe(fs, lengths, disps, types)
      invariant MergedFields(newType.entries, fs, i, fs[last].t, lastDisp, lastBlock)
      invariant AllLike(types, model) ==> Like(newType.Value(), model)
    {
      last, lastBlock, lastDisp := NextField(newType, fs, lengths, disps, types, i, last, lastBlock, lastDisp, model);
      i := i + 1;
    }
    DescribeAt(fs, lengths, disps, types, last);
    LastField(newType.entries, fs, fs[last].t, lastDisp, lastBlock);
    AppendLike(newType, types, last, lastBlock, lastDisp, model);
    Append(newType, types[last], lastBlock, lastDisp);
  }

  lemma {:induction false} AppendLike(p: Type, types: seq<Type>, i: nat, count: nat, disp: int, model: Layout)
    requires p.Valid() && i < |types| && types[i].Valid()
    ensures AllLike(types, model) && Like(p.Value(), model)
      ==> Like(Added(p.Value(), types[i].Value(), count, disp, types[i].Value().Extent()), model)
  {
    if AllLike(types, model) && Like(p.Value(), model) {
      AddedLike(p.Value(), types[i].Value(), count, disp, types[i].Value().Extent(), model);
    }
  }

  /** Member i: joins the open block, or has it added and opens its own. */
  method NextField(
    newType: Type, ghost fs: seq<Field>, lengths: seq<nat>, disps: seq<int>, types: seq<Type>,
    i: nat, last: nat, lastBlock: nat, lastDisp: int, ghost model: Layout)
    returns (last': nat, lastBlock': nat, lastDisp': int)
    requires Describe(fs, lengths, disps, types) && last < i < |types| && newType !in types
    requires newType.Valid() && newType.kind == Data
    requires MergedFields(newType.entries, fs, i, fs[last].t, lastDisp, lastBlock)
    modifies newType
    ensures newType.Valid() && last' <= i && Describe(fs, lengths, disps, types)
    ensures MergedFields(newType.entries, fs, i + 1, fs[last'].t, lastDisp', lastBlock')
    ensures AllLike(types, model) && old(Like(newType.Value(), model)) ==> Like(newType.Value(), model)
  {
    DescribeAt(fs, lengths, disps, types, i);
    DescribeAt(fs, lengths, disps, types, last);
    hide Place, Arith, Fields, MergedFields, Sound, Describe, EndOf, Like, AllLike;
    var lastType := types[last];
    var endto := EndOf(lastDisp, lastBlock, lastType.Value().Extent());
    if types[i] == lastType && disps[i] == endto {
      JoinField(newType.entries, fs, i, fs[last].t, lastDisp, lastBlock);
      return last, lastBlock + lengths[i], lastDisp;
    }
    CloseField(newType.entries, fs, i, fs[last].t, lastDisp, lastBlock);
    AppendLike(newType, types, last, lastBlock, lastDisp, model);
    Append(newType, lastType, lastBlock, lastDisp);
    return i, lengths[i], disps[i];
  }

  lemma {:induction false} LastField(added: seq<Entry>, fs: seq<Field>, t: Layout, disp: int, length: nat)
    requires MergedFields(added, fs, |fs|, t, disp, length)
    ensures added + Place(t.entries, Arith(disp, t.Extent(), length)) == Fields(fs)
  {
    assert fs[..|fs|] == fs;
  }
}
