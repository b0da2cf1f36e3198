/** Datatype objects with the arguments they were made with, and the packing of
    their descriptions into a byte buffer through a moving cursor. */
module DescPacking {
  import opened DescFormat

  // ----- the recorded arguments -----

  /** The source and length of each array are what the combiner says; the arrays
      may go on behind that. */
  predicate Pointers(c: Combiner, i: seq<seq<Int32>>) {
    var n: int := if |i| > 0 && |i[0]| > 0 then i[0][0] else -1;
    var dims: int := if |i| > 2 && |i[2]| > 0 then i[2][0] else -1;
    match c
    case Named => false
    case Dup | Resized => true
    case Contiguous | F90Integer => |i| == 1 && |i[0]| > 0
    case Vector => |i| == 3 && |i[0]| > 0 && |i[1]| > 0 && |i[2]| > 0
    case HvectorInteger | Hvector | F90Real | F90Complex => |i| == 2 && |i[0]| > 0 && |i[1]| > 0
    case Indexed => |i| == 3 && 0 <= n <= |i[1]| && n <= |i[2]|
    case HindexedInteger | Hindexed | StructInteger | Struct => |i| == 2 && 0 <= n <= |i[1]|
    case IndexedBlock => |i| == 3 && |i[1]| > 0 && 0 <= n <= |i[2]|
    case Subarray => |i| == 5 && 0 <= n <= |i[1]| && n <= |i[2]| && n <= |i[3]| && |i[4]| > 0
    case Darray =>
      && |i| == 8 && |i[0]| > 0 && |i[1]| > 0
      && 0 <= dims <= |i[3]| && dims <= |i[4]| && dims <= |i[5]| && dims <= |i[6]| && |i[7]| > 0
  }

  /** The integers recorded for a combiner. */
  function Recorded(c: Combiner, i: seq<seq<Int32>>): seq<Int32>
    requires Pointers(c, i)
  {
    match c
    case Dup | Resized => []
    case Contiguous | F90Integer => [i[0][0]]
    case Vector => [i[0][0], i[1][0], i[2][0]]
    case HvectorInteger | Hvector | F90Real | F90Complex => [i[0][0], i[1][0]]
    case Indexed => [i[0][0]] + i[1][..i[0][0]] + i[2][..i[0][0]]
    case HindexedInteger | Hindexed | StructInteger | Struct => [i[0][0]] + i[1][..i[0][0]]
    case IndexedBlock => [i[0][0], i[1][0]] + i[2][..i[0][0]]
    case Subarray => [i[0][0]] + i[1][..i[0][0]] + i[2][..i[0][0]] + i[3][..i[0][0]] + [i[4][0]]
    case Darray =>
      [i[0][0], i[1][0], i[2][0]] + i[3][..i[2][0]] + i[4][..i[2][0]] + i[5][..i[2][0]] + i[6][..i[2][0]] + [i[7][0]]
  }

  /** Where the receiver finds these integers in the array it has unpacked. */
  function Located(c: Combiner, ints: seq<Int32>, aints: nat, kids: nat): seq<seq<Int32>>
    requires Shape(c, ints, aints, kids)
  {
    match c
    case Dup | Resized => []
    case Contiguous | F90Integer => [ints]
    case Vector => [ints, ints[1..], ints[2..]]
    case HvectorInteger | Hvector | F90Real | F90Complex => [ints, ints[1..]]
    case Indexed => LocatedIndexed(ints)
    case HindexedInteger | Hindexed | StructInteger | Struct => [ints, ints[1..]]
    case IndexedBlock => [ints, ints[1..], ints[2..]]
    case Subarray => LocatedSubarray(ints)
    case Darray => LocatedDarray(ints)
  }

  function LocatedIndexed(ints: seq<Int32>): seq<seq<Int32>>
    requires |ints| > 0 && 0 <= ints[0] as int <= |ints| - 1
  {
    var n: int := ints[0];
    [ints, ints[1..], ints[1 + n..]]
  }

  function LocatedSubarray(ints: seq<Int32>): seq<seq<Int32>>
    requires |ints| > 0 && 0 <= 3 * (ints[0] as int) <= |ints| - 1
  {
    var n: int := ints[0];
    [ints, ints[1..], ints[1 + n..], ints[1 + 2 * n..], ints[1 + 3 * n..]]
  }

  function LocatedDarray(ints: seq<Int32>): seq<seq<Int32>>
    requires |ints| > 3 && 0 <= 4 * (ints[2] as int) <= |ints| - 3
  {
    var n: int := ints[2];
    [ints, ints[1..], ints[2..], ints[3..], ints[3 + n..], ints[3 + 2 * n..], ints[3 + 3 * n..], ints[3 + 4 * n..]]
  }

  lemma {:induction false} Cut(xs: seq<Int32>, lo: nat, n: nat)
    requires lo + n <= |xs|
    ensures xs[..lo] + xs[lo..][..n] == xs[..lo + n]
  {
  }

  lemma {:induction false} RecordedIndexed(ints: seq<Int32>)
    requires Shape(Indexed, ints, 0, 1)
    ensures Pointers(Indexed, Located(Indexed, ints, 0, 1)) && Recorded(Indexed, Located(Indexed, ints, 0, 1)) == ints
  {
    var n: int := ints[0];
    assert ints == ints[..1] + ints[1..][..n] + ints[1 + n..][..n] by {
      Cut(ints, 1, n);
      Cut(ints, 1 + n, n);
    }
    assert ints[..1] == [ints[0]];
  }

  lemma {:induction false} SubarrayPieces(xs: seq<Int32>, n: nat)
    requires |xs| == 3 * n + 2
    ensures xs == [xs[0]] + xs[1..][..n] + xs[1 + n..][..n] + xs[1 + 2 * n..][..n] + [xs[1 + 3 * n]]
  {
    Cut(xs, 1, n);
    Cut(xs, 1 + n, n);
    Cut(xs, 1 + 2 * n, n);
    assert xs[..1] == [xs[0]];
    assert xs == xs[..1 + 3 * n] + [xs[1 + 3 * n]];
  }

  lemma {:induction false} RecordedSubarray(ints: seq<Int32>)
    requires Shape(Subarray, ints, 0, 1)
    ensures Pointers(Subarray, Located(Subarray, ints, 0, 1)) && Recorded(Subarray, Located(Subarray, ints, 0, 1)) == ints
  {
    SubarrayPieces(ints, ints[0]);
  }

  lemma {:induction false} DarrayPieces(xs: seq<Int32>, n: nat)
    requires |xs| == 4 * n + 4
    ensures xs == [xs[0], xs[1], xs[2]] + xs[3..][..n] + xs[3 + n..][..n] + xs[3 + 2 * n..][..n] + xs[3 + 3 * n..][..n]
                  + [xs[3 + 4 * n]]
  {
    Cut(xs, 3, n);
    Cut(xs, 3 + n, n);
    Cut(xs, 3 + 2 * n, n);
    Cut(xs, 3 + 3 * n, n);
    assert xs[..3] == [xs[0], xs[1], xs[2]];
    assert xs == xs[..3 + 4 * n] + [xs[3 + 4 * n]];
  }

  lemma {:induction false} RecordedDarray(ints: seq<Int32>)
    requires Shape(Darray, ints, 0, 1)
    ensures Pointers(Darray, Located(Darray, ints, 0, 1)) && Recorded(Darray, Located(Darray, ints, 0, 1)) == ints
  {
    DarrayPieces(ints, ints[2]);
  }

  /** The receiver takes its arrays apart at the places where the sender's were put together. */
  lemma {:induction false} RecordedLocated(c: Combiner, ints: seq<Int32>, aints: nat, kids: nat)
    requires Shape(c, ints, aints, kids)
    ensures Pointers(Plain(c), Located(c, ints, aints, kids))
    ensures Recorded(Plain(c), Located(c, ints, aints, kids)) == ints
  {
    match c
    case Indexed => RecordedIndexed(ints);
    case Subarray => RecordedSubarray(ints);
    case Darray => RecordedDarray(ints);
    case IndexedBlock => RecordedIndexedBlock(ints);
    case HindexedInteger => RecordedCounted(c, ints, aints, kids);
    case Hindexed => RecordedCounted(c, ints, aints, kids);
    case StructInteger => RecordedCounted(c, ints, aints, kids);
    case Struct => RecordedCounted(c, ints, aints, kids);
    case _ =>
  }

  lemma {:induction false} RecordedIndexedBlock(ints: seq<Int32>)
    requires Shape(IndexedBlock, ints, 0, 1)
    ensures Pointers(IndexedBlock, Located(IndexedBlock, ints, 0, 1)) && Recorded(IndexedBlock, Located(IndexedBlock, ints, 0, 1)) == ints
  {
    assert ints == [ints[0], ints[1]] + ints[2..];
  }

  lemma {:induction false} RecordedCounted(c: Combiner, ints: seq<Int32>, aints: nat, kids: nat)
    requires c in {HindexedInteger, Hindexed, StructInteger, Struct} && Shape(c, ints, aints, kids)
    ensures Pointers(Plain(c), Located(c, ints, aints, kids)) && Recorded(Plain(c), Located(c, ints, aints, kids)) == ints
  {
    assert ints == [ints[0]] + ints[1..];
  }

  // ----- the precomputed size -----

  lemma {:induction false} TotalCovers(c: Combiner, xs: seq<Int32>, ws: seq<Int64>, ds: seq<Desc>, size: int, first: int)
    requires Shape(c, xs, |ws|, |ds|)
    requires c != Dup ==> size >= (4 + |xs| + |ds|) * INT_SIZE + |ws| * AINT_SIZE + SizeOfKids(ds)
    requires c == Dup ==> size == INT_SIZE + (if ds[0].Leaf? then 0 else first)
    requires c == Dup && !ds[0].Leaf? ==> first >= Size(ds[0]) - INT_SIZE
    ensures var d := Made(c, xs, ws, ds); if BareDup(d) then size == Size(d) - INT_SIZE else Size(d) <= size
  {
  }

  /** A duplicate of a predefined datatype, of which no size is recorded. */
  predicate BareDup(d: Desc) {
    d.Made? && d.comb == Dup && |d.kids| > 0 && d.kids[0].Leaf?
  }

  class Datatype {
    const comb: Combiner
    const id: nat
    const ints: seq<Int32>
    const aints: seq<Int64>
    const kids: seq<Datatype>
    ghost const desc: Desc
    var total: int
    var packed: array?<Byte>

    /** The recorded arguments are those of the description. */
    ghost predicate Means()
      decreases desc
    {
      match desc
      case Leaf(i) => comb == Named && id == i
      case Made(c, xs, ws, ds) =>
        && c != Named && comb == c && ints == xs && aints == ws && |kids| == |ds|
        && forall i :: 0 <= i < |ds| ==> kids[i].desc == ds[i] && kids[i].Means()
    }

    /** The recorded size is large enough, except for a bare duplicate, where it is
        one integer short. */
    ghost predicate Sized()
      reads this
    {
      desc.Made? ==> if BareDup(desc) then total == Size(desc) - INT_SIZE else Size(desc) <= total
    }

    constructor Predefined(id: nat)
      requires id < MAX_PREDEFINED
      ensures Means() && Sized() && desc == Leaf(id) && packed == null
    {
      comb, this.id, ints, aints, kids := Named, id, [], [], [];
      desc := Leaf(id);
      total, packed := 0, null;
    }

    /** Records the arguments of a new datatype, and the size of its description: large
        enough, except for a bare duplicate, for which it is one integer short. */
    constructor SetArgs(i: seq<seq<Int32>>, a: seq<Int64>, d: seq<Datatype>, c: Combiner)
      requires Pointers(c, i) && Shape(c, Recorded(c, i), |a|, |d|)
      requires forall k :: 0 <= k < |d| ==> d[k].Means() && d[k].Sized()
      ensures Means() && Sized() && packed == null
      ensures desc == Made(c, Recorded(c, i), a, Descs(d))
      ensures Size(desc) <= total <==> !BareDup(desc)
      ensures Size(desc) <= total + INT_SIZE
    {
      var copied := RecordInts(c, i);
      comb, id, ints, aints, kids := c, 0, copied[..], a, d;
      desc := Made(c, Recorded(c, i), a, Descs(d));
      packed := null;
      var size := DescriptionSize(c, |Recorded(c, i)|, |a|, d);
      total := size;
      assert c == Dup ==> |d| == 1;
      hide Shape, Pointers, Recorded, SizeOfKids, Size;
      TotalCovers(c, Recorded(c, i), a, Descs(d), size, if |d| > 0 then d[0].total else 0);
    }

    /** Copies the integer arguments one after the other into the array of the datatype. */
    static method RecordInts(c: Combiner, i: seq<seq<Int32>>) returns (xs: array<Int32>)
      requires Pointers(c, i)
      ensures fresh(xs) && xs[..] == Recorded(c, i)
    {
      xs := new Int32[|Recorded(c, i)|](_ => 0);
      if c in {Indexed, HindexedInteger, Hindexed, StructInteger, Struct, IndexedBlock} {
        RecordBlocks(c, xs, i);
      } else if c == Subarray {
        RecordSubarray(xs, i);
      } else if c == Darray {
        RecordDarray(xs, i);
      } else {
        RecordSingle(c, xs, i);
      }
    }

    static method RecordSingle(c: Combiner, xs: array<Int32>, i: seq<seq<Int32>>)
      requires Pointers(c, i) && xs.Length == |Recorded(c, i)|
      requires c in {Dup, Resized, Contiguous, F90Integer, Vector, HvectorInteger, Hvector, F90Real, F90Complex}
      modifies xs
      ensures xs[..] == Recorded(c, i)
    {
      if c !in {Dup, Resized} {
        xs[0] := i[0][0];
        if c !in {Contiguous, F90Integer} {
          xs[1] := i[1][0];
          if c == Vector {
            xs[2] := i[2][0];
          }
        }
      }
    }

    static method RecordBlocks(c: Combiner, xs: array<Int32>, i: seq<seq<Int32>>)
      requires c in {Indexed, HindexedInteger, Hindexed, StructInteger, Struct, IndexedBlock}
      requires Pointers(c, i) && xs.Length == |Recorded(c, i)|
      modifies xs
      ensures xs[..] == Recorded(c, i)
    {
      ghost var all := Recorded(c, i);
      ghost var count := [i[0][0]];
      xs[0] := i[0][0];
      var pos := 1;
      if c == IndexedBlock {
        assert all == [i[0][0], i[1][0]] + i[2][..i[0][0]];
        hide Recorded, Pointers;
        xs[1] := i[1][0];
        pos := Put(xs, 2, i[2], i[0][0], [i[0][0], i[1][0]]);
      } else {
        assert c == Indexed ==> all == count + i[1][..i[0][0]] + i[2][..i[0][0]];
        assert c != Indexed ==> all == count + i[1][..i[0][0]];
        assert c == Indexed ==> i[0][0] as int <= |i[2]|;
        hide Recorded, Pointers;
        pos := Put(xs, 1, i[1], i[0][0], count);
        if c == Indexed {
          pos := Put(xs, pos, i[2], i[0][0], count + i[1][..i[0][0]]);
        }
      }
      assert xs[..] == xs[..pos];
    }

    static method RecordSubarray(xs: array<Int32>, i: seq<seq<Int32>>)
      requires Pointers(Subarray, i) && xs.Length == |Recorded(Subarray, i)|
      modifies xs
      ensures xs[..] == Recorded(Subarray, i)
    {
      var n := i[0][0];
      ghost var a := [n];
      ghost var b := a + i[1][..n];
      ghost var d := b + i[2][..n];
      ghost var e := d + i[3][..n];
      assert Recorded(Subarray, i) == e + [i[4][0]];
      hide Recorded, Pointers;
      xs[0] := n;
      var pos := Put(xs, 1, i[1], xs[0], a);
      pos := Put(xs, pos, i[2], n, b);
      pos := Put(xs, pos, i[3], n, d);
      xs[pos] := i[4][0];
      assert xs[..] == xs[..pos] + [xs[pos]];
    }

    static method RecordDarray(xs: array<Int32>, i: seq<seq<Int32>>)
      requires Pointers(Darray, i) && xs.Length == |Recorded(Darray, i)|
      modifies xs
      ensures xs[..] == Recorded(Darray, i)
    {
      var n := i[2][0];
      ghost var a := [i[0][0], i[1][0], n];
      ghost var b := a + i[3][..n];
      ghost var d := b + i[4][..n];
      ghost var e := d + i[5][..n];
      ghost var f := e + i[6][..n];
      assert Recorded(Darray, i) == f + [i[7][0]];
      hide Recorded, Pointers;
      xs[0], xs[1], xs[2] := i[0][0], i[1][0], n;
      var pos := Put(xs, 3, i[3], n, a);
      pos := Put(xs, pos, i[4], n, b);
      pos := Put(xs, pos, i[5], n, d);
      pos := Put(xs, pos, i[6], n, e);
      xs[pos] := i[7][0];
      assert xs[..] == xs[..pos] + [xs[pos]];
    }

    /** Copies the first n integers behind what is there, and returns the position behind them. */
    static method Put(xs: array<Int32>, pos: nat, from: seq<Int32>, n: Int32, ghost before: seq<Int32>) returns (end: nat)
      requires 0 <= n as int <= |from| && pos + n as int <= xs.Length && xs[..pos] == before
      modifies xs
      ensures end == pos + n as int && xs[..end] == before + from[..n]
    {
      end := pos;
      while end < pos + n as int
        invariant pos <= end <= pos + n as int
        invariant xs[..end] == before + from[..end - pos]
      {
        xs[end] := from[end - pos];
        end := end + 1;
        assert xs[..end] == xs[..end - 1] + [from[end - 1 - pos]];
        assert from[..end - pos] == from[..end - 1 - pos] + [from[end - 1 - pos]];
      }
    }

    /** The size of the arguments of this datatype and of its children, with one more
        integer for each child. */
    static method DescriptionSize(c: Combiner, ci: nat, ca: nat, d: seq<Datatype>) returns (size: int)
      requires forall k :: 0 <= k < |d| ==> d[k].Means() && d[k].Sized()
      ensures c != Dup ==> size >= (4 + ci + |d|) * INT_SIZE + ca * AINT_SIZE + SizeOfKids(Descs(d))
      ensures c == Dup && |d| == 1 ==> size == INT_SIZE + if d[0].desc.Leaf? then 0 else d[0].total
    {
      size := (4 + ci + |d|) * INT_SIZE + ca * AINT_SIZE;
      if c == Dup {
        size := 0;
      }
      ghost var start, ds := size, Descs(d);
      var pos := 0;
      while pos < |d|
        invariant 0 <= pos <= |d|
        invariant size >= start + SizeOfKids(ds[..pos])
        invariant pos == 1 ==> size == start + INT_SIZE + if ds[0].Leaf? then 0 else d[0].total
        invariant pos == 0 ==> size == start
      {
        hide Size;
        assert d[pos].Means() && d[pos].Sized();
        assert ds[..pos + 1][..pos] == ds[..pos];
        SizedAtLeast(d[pos]);
        if d[pos].comb != Named {
          size := size + d[pos].total;
        }
        size := size + INT_SIZE;
        pos := pos + 1;
      }
      assert ds[..|d|] == ds;
    }
  }

  /** The duplicate of a predefined datatype: its description takes two integers, and
      the size recorded for it is one. */
  method DuplicatePredefined(id: nat) returns (d: Datatype)
    requires id < MAX_PREDEFINED
    ensures fresh(d) && d.desc == Made(Dup, [], [], [Leaf(id)])
    ensures d.total == INT_SIZE && Size(d.desc) == 2 * INT_SIZE
  {
    var target := new Datatype.Predefined(id);
    d := new Datatype.SetArgs([], [], [target], Dup);
    assert Descs([target]) == [Leaf(id)];
  }

  lemma {:induction false} SizedAtLeast(d: Datatype)
    requires d.Means() && d.Sized()
    ensures d.comb == Named <==> d.desc.Leaf?
    ensures d.desc.Made? ==> Size(d.desc) <= d.total + INT_SIZE
  {
  }

  ghost function Descs(d: seq<Datatype>): (ds: seq<Desc>)
    ensures |ds| == |d| && forall k :: 0 <= k < |d| ==> ds[k] == d[k].desc
  {
    seq(|d|, k requires 0 <= k < |d| => d[k].desc)
  }
}
