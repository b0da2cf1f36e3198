/** The byte format of a packed datatype description, as functions on the tree of
    constructor calls a datatype was made with. */
module DescFormat {

  type Byte = x: int | 0 <= x < 256

  const MAX_PREDEFINED := 47
  const INT_SIZE := 4
  const AINT_SIZE := 8
  const INT_RANGE := 0x1_0000_0000
  const AINT_RANGE := 0x1_0000_0000_0000_0000

  type Int32 = x: int | -0x8000_0000 <= x < 0x8000_0000
  type Int64 = x: int | -0x8000_0000_0000_0000 <= x < 0x8000_0000_0000_0000

  lemma {:induction false} Constants()
    ensures MAX_PREDEFINED == 47 && INT_SIZE == 4 && AINT_SIZE == 8
  {
  }

  // ----- integers in memory -----

  function Digits(u: nat, n: nat): (bytes: seq<Byte>)
    ensures |bytes| == n
  {
    if n == 0 then [] else [u % 256] + Digits(u / 256, n - 1)
  }

  function Number(bytes: seq<Byte>): (u: nat) {
    if bytes == [] then 0 else bytes[0] + 256 * Number(bytes[1..])
  }

  function Range(n: nat): (r: nat)
    ensures r > 0
  {
    if n == 0 then 1 else 256 * Range(n - 1)
  }

  lemma {:induction false} NumberOfDigits(u: nat, n: nat)
    requires u < Range(n)
    ensures Number(Digits(u, n)) == u
  {
    if n > 0 {
      assert u / 256 < Range(n - 1);
      NumberOfDigits(u / 256, n - 1);
      assert Digits(u, n)[1..] == Digits(u / 256, n - 1);
    }
  }

  /** Two's complement. */
  function IntBytes(x: Int32): (bytes: seq<Byte>)
    ensures |bytes| == INT_SIZE
  {
    Digits(x % INT_RANGE, INT_SIZE)
  }

  function AintBytes(x: Int64): (bytes: seq<Byte>)
    ensures |bytes| == AINT_SIZE
  {
    Digits(x % AINT_RANGE, AINT_SIZE)
  }

  function BytesInt(bytes: seq<Byte>): int {
    var u := Number(bytes);
    if u < INT_RANGE / 2 then u else u - INT_RANGE
  }

  function BytesAint(bytes: seq<Byte>): int {
    var u := Number(bytes);
    if u < AINT_RANGE / 2 then u else u - AINT_RANGE
  }

  lemma {:induction false} IntRoundTrip(x: Int32)
    ensures BytesInt(IntBytes(x)) == x
  {
    assert Range(4) == INT_RANGE by { assert Range(2) == 65536; }
    NumberOfDigits(x % INT_RANGE, INT_SIZE);
  }

  lemma {:induction false} AintRoundTrip(x: Int64)
    ensures BytesAint(AintBytes(x)) == x
  {
    assert Range(8) == AINT_RANGE by { assert Range(2) == 65536; assert Range(4) == INT_RANGE; assert Range(6) == 0x1_0000_0000_0000; }
    NumberOfDigits(x % AINT_RANGE, AINT_SIZE);
  }

  function IntsBytes(xs: seq<Int32>): (bytes: seq<Byte>)
    ensures |bytes| == INT_SIZE * |xs|
  {
    if xs == [] then [] else IntsBytes(xs[..|xs| - 1]) + IntBytes(xs[|xs| - 1])
  }

  function AintsBytes(xs: seq<Int64>): (bytes: seq<Byte>)
    ensures |bytes| == AINT_SIZE * |xs|
  {
    if xs == [] then [] else AintsBytes(xs[..|xs| - 1]) + AintBytes(xs[|xs| - 1])
  }

  // ----- descriptions -----

  datatype Combiner =
    | Named | Dup | Contiguous | Vector | HvectorInteger | Hvector | Indexed | HindexedInteger | Hindexed
    | IndexedBlock | StructInteger | Struct | Subarray | Darray | F90Real | F90Complex | F90Integer | Resized

  function Code(c: Combiner): Int32 {
    match c
    case Named => 0
    case Dup => 1
    case Contiguous => 2
    case Vector => 3
    case HvectorInteger => 4
    case Hvector => 5
    case Indexed => 6
    case HindexedInteger => 7
    case Hindexed => 8
    case IndexedBlock => 9
    case StructInteger => 10
    case Struct => 11
    case Subarray => 12
    case Darray => 13
    case F90Real => 14
    case F90Complex => 15
    case F90Integer => 16
    case Resized => 17
  }

  /** Leaf: a predefined datatype; Made: one made with a combiner from integer
      arguments, address arguments and other datatypes. */
  datatype Desc =
    | Leaf(id: nat)
    | Made(comb: Combiner, ints: seq<Int32>, aints: seq<Int64>, kids: seq<Desc>)

  /** The numbers of arguments the constructors record. */
  predicate Shape(c: Combiner, ints: seq<Int32>, aints: nat, kids: nat) {
    var first: int := if |ints| > 0 then ints[0] else -1;
    var third: int := if |ints| > 2 then ints[2] else -1;
    match c
    case Named => false
    case Dup => |ints| == 0 && aints == 0 && kids == 1
    case Contiguous => |ints| == 1 && aints == 0 && kids == 1
    case Vector => |ints| == 3 && aints == 0 && kids == 1
    case HvectorInteger | Hvector => |ints| == 2 && aints == 1 && kids == 1
    case Indexed => first >= 0 && |ints| == 2 * first + 1 && aints == 0 && kids == 1
    case HindexedInteger | Hindexed => first >= 0 && |ints| == first + 1 && aints == first && kids == 1
    case IndexedBlock => first >= 0 && |ints| == first + 2 && aints == 0 && kids == 1
    case StructInteger | Struct => first >= 0 && |ints| == first + 1 && aints == first && kids == first
    case Subarray => first >= 0 && |ints| == 3 * first + 2 && aints == 0 && kids == 1
    case Darray => third >= 0 && |ints| == 4 * third + 4 && aints == 0 && kids == 1
    case F90Real | F90Complex => |ints| == 2 && aints == 0 && kids == 0
    case F90Integer => |ints| == 1 && aints == 0 && kids == 0
    case Resized => |ints| == 0 && aints == 2 && kids == 1
  }

  predicate WellFormed(d: Desc) {
    match d
    case Leaf(id) => id < MAX_PREDEFINED
    case Made(c, ints, aints, kids) =>
      && Shape(c, ints, |aints|, |kids|) && |ints| < 0x8000_0000
      && forall i :: 0 <= i < |kids| ==> WellFormed(kids[i])
  }

  function Plain(c: Combiner): Combiner {
    match c
    case HvectorInteger => Hvector
    case HindexedInteger => Hindexed
    case StructInteger => Struct
    case _ => c
  }

  /** What a description means to the receiver: duplicates are their targets, and the
      combiners of the Fortran integer interface their plain forms. */
  function Normal(d: Desc): Desc {
    match d
    case Leaf(_) => d
    case Made(c, ints, aints, kids) =>
      if c == Dup && |kids| > 0 then Normal(kids[0])
      else Made(Plain(c), ints, aints, seq(|kids|, i requires 0 <= i < |kids| => Normal(kids[i])))
  }

  predicate IsF90(c: Combiner) {
    c in {F90Real, F90Complex, F90Integer}
  }

  /** A Fortran 90 datatype somewhere inside, which the receiver cannot rebuild. The program
      packs such a datatype as a predefined one, so only bytes from elsewhere say this. */
  predicate HasF90(d: Desc) {
    match d
    case Leaf(_) => false
    case Made(c, ints, aints, kids) => IsF90(c) || exists i :: 0 <= i < |kids| && HasF90(kids[i])
  }

  // ----- the bytes -----

  datatype Packed = Packed(bytes: seq<Byte>, next: int)
  datatype PackedKids = PackedKids(ids: seq<Int32>, bytes: seq<Byte>, next: int)

  /** The number of ids the packing of a description hands out. */
  function Nested(d: Desc): nat {
    match d
    case Leaf(_) => 0
    case Made(c, _, _, kids) => if c == Dup && |kids| > 0 then Nested(kids[0]) else NestedKids(kids)
  }

  function NestedKids(kids: seq<Desc>): nat {
    if kids == [] then 0
    else
      var kid := kids[|kids| - 1];
      NestedKids(kids[..|kids| - 1]) + if kid.Leaf? then 0 else 1 + Nested(kid)
  }

  /** The ids that are handed out fit an int. */
  predicate Fits(d: Desc, next: int) {
    MAX_PREDEFINED <= next && next + Nested(d) < 0x8000_0000
  }

  function Encoding(d: Desc, next: int): (r: Packed)
    requires WellFormed(d) && Fits(d, next)
    ensures r.next == next + Nested(d)
    decreases d
  {
    match d
    case Leaf(id) => Packed(IntBytes(Code(Named)) + IntBytes(id), next)
    case Made(c, ints, aints, kids) =>
      if c == Dup then Encoding(kids[0], next)
      else
        var r := EncodingOfKids(kids, next);
        Packed(Head(d) + IntsBytes(r.ids) + IntsBytes(ints) + r.bytes, r.next)
  }

  function Head(d: Desc): (bytes: seq<Byte>)
    requires WellFormed(d) && d.Made?
    ensures |bytes| == 4 * INT_SIZE + AINT_SIZE * |d.aints|
  {
    IntBytes(Code(d.comb)) + IntBytes(|d.ints|) + IntBytes(|d.aints|) + IntBytes(|d.kids|) + AintsBytes(d.aints)
  }

  predicate KidsFit(kids: seq<Desc>, next: int) {
    && MAX_PREDEFINED <= next && next + NestedKids(kids) < 0x8000_0000
    && forall i :: 0 <= i < |kids| ==> WellFormed(kids[i])
  }

  function EncodingOfKids(kids: seq<Desc>, next: int): (r: PackedKids)
    requires KidsFit(kids, next)
    ensures r.next == next + NestedKids(kids)
    ensures |r.ids| == |kids|
    decreases kids
  {
    if kids == [] then PackedKids([], [], next)
    else
      var kid := kids[|kids| - 1];
      var before := EncodingOfKids(kids[..|kids| - 1], next);
      if kid.Leaf? then
        PackedKids(before.ids + [kid.id], before.bytes, before.next)
      else
        var r := Encoding(kid, before.next + 1);
        PackedKids(before.ids + [before.next], before.bytes + r.bytes, r.next)
  }

  // ----- sizes -----

  function Size(d: Desc): nat {
    match d
    case Leaf(_) => 2 * INT_SIZE
    case Made(c, ints, aints, kids) =>
      if c == Dup && |kids| > 0 then Size(kids[0])
      else (4 + |ints| + |kids|) * INT_SIZE + |aints| * AINT_SIZE + SizeOfKids(kids)
  }

  function SizeOfKids(kids: seq<Desc>): nat {
    if kids == [] then 0
    else
      var kid := kids[|kids| - 1];
      SizeOfKids(kids[..|kids| - 1]) + if kid.Leaf? then 0 else Size(kid)
  }

  lemma {:induction false} EncodingSize(d: Desc, next: int)
    requires WellFormed(d) && Fits(d, next)
    ensures |Encoding(d, next).bytes| == Size(d)
    decreases d
  {
    if d.Made? && d.comb == Dup {
      EncodingSize(d.kids[0], next);
    } else if d.Made? {
      EncodingOfKidsSize(d.kids, next);
    }
  }

  lemma {:induction false} EncodingOfKidsSize(kids: seq<Desc>, next: int)
    requires KidsFit(kids, next)
    ensures |EncodingOfKids(kids, next).bytes| == SizeOfKids(kids)
    decreases kids
  {
    if kids != [] {
      var before, kid := kids[..|kids| - 1], kids[|kids| - 1];
      LastKid(kids, next);
      hide WellFormed, KidsFit, Encoding, EncodingOfKids, Size, SizeOfKids;
      EncodingOfKidsSize(before, next);
      if !kid.Leaf? {
        EncodingSize(kid, EncodingOfKids(before, next).next + 1);
      }
    }
  }

  /** What the last kid adds. */
  lemma {:induction false} LastKid(kids: seq<Desc>, next: int)
    requires KidsFit(kids, next) && kids != []
    ensures KidsFit(kids[..|kids| - 1], next)
    ensures
      var before, kid := EncodingOfKids(kids[..|kids| - 1], next), kids[|kids| - 1];
      var all := EncodingOfKids(kids, next);
      if kid.Leaf? then
        all == PackedKids(before.ids + [kid.id], before.bytes, before.next) && SizeOfKids(kids) == SizeOfKids(kids[..|kids| - 1])
      else
        && WellFormed(kid) && Fits(kid, before.next + 1)
        && all == PackedKids(before.ids + [before.next], before.bytes + Encoding(kid, before.next + 1).bytes,
                             Encoding(kid, before.next + 1).next)
        && SizeOfKids(kids) == SizeOfKids(kids[..|kids| - 1]) + Size(kid)
  {
    hide WellFormed, Encoding, Size;
    assert KidsFit(kids[..|kids| - 1], next);
  }

  /** The ids and bytes of the first kids come first. */
  lemma {:induction false} KidsInOrder(kids: seq<Desc>, next: int, i: nat)
    requires KidsFit(kids, next) && i <= |kids|
    ensures KidsFit(kids[..i], next)
    ensures EncodingOfKids(kids[..i], next).ids == EncodingOfKids(kids, next).ids[..i]
    ensures EncodingOfKids(kids[..i], next).bytes <= EncodingOfKids(kids, next).bytes
    ensures EncodingOfKids(kids[..i], next).next <= EncodingOfKids(kids, next).next
    decreases |kids|
  {
    if i == |kids| {
      assert kids[..i] == kids;
    } else {
      var before := kids[..|kids| - 1];
      LastKid(kids, next);
      hide WellFormed, KidsFit, Encoding, EncodingOfKids;
      KidsInOrder(before, next, i);
      assert before[..i] == kids[..i];
    }
  }

  /** An id below the number of predefined datatypes is one; any other stands for a
      description that follows. */
  lemma {:induction false} IdsTell(kids: seq<Desc>, next: int, i: nat)
    requires KidsFit(kids, next) && i < |kids|
    ensures EncodingOfKids(kids, next).ids[i] < MAX_PREDEFINED <==> kids[i].Leaf?
    ensures kids[i].Leaf? ==> 0 <= EncodingOfKids(kids, next).ids[i] == kids[i].id
  {
    hide *;
    Constants();
    var upto := kids[..i + 1];
    KidsInOrder(kids, next, i + 1);
    assert upto[|upto| - 1] == kids[i];
    LastKid(upto, next);
    WellFormedKid(kids, next, i);
    FitsFrom(upto[..|upto| - 1], next);
  }

  lemma {:induction false} WellFormedKid(kids: seq<Desc>, next: int, i: nat)
    requires KidsFit(kids, next) && i < |kids|
    ensures WellFormed(kids[i]) && (kids[i].Leaf? ==> kids[i].id < MAX_PREDEFINED)
  {
  }

  lemma {:induction false} FitsFrom(kids: seq<Desc>, next: int)
    requires KidsFit(kids, next)
    ensures MAX_PREDEFINED <= next <= EncodingOfKids(kids, next).next
  {
  }
}
