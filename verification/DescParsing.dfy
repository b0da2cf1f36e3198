/** What a buffer of bytes describes, and that this undoes the packing. */
module DescParsing {
  import opened DescFormat

  /** Unsupported: a datatype the receiver cannot rebuild; Malformed: bytes that are
      not a packed description. */
  datatype Parsed = Done(desc: Desc, end: nat) | Unsupported | Malformed
  datatype ParsedKids = KidsDone(kids: seq<Desc>, end: nat) | KidsUnsupported | KidsMalformed

  function IntAt(s: seq<Byte>, pos: nat): int
    requires pos + INT_SIZE <= |s|
  {
    BytesInt(s[pos..pos + INT_SIZE])
  }

  function AintAt(s: seq<Byte>, pos: nat): int
    requires pos + AINT_SIZE <= |s|
  {
    BytesAint(s[pos..pos + AINT_SIZE])
  }

  lemma {:induction false} NumberBound(bytes: seq<Byte>)
    ensures Number(bytes) < Range(|bytes|)
  {
    if bytes != [] { NumberBound(bytes[1..]); }
  }

  function Int32At(s: seq<Byte>, pos: nat): (x: Int32)
    requires pos + INT_SIZE <= |s|
    ensures x == IntAt(s, pos)
  {
    NumberBound(s[pos..pos + INT_SIZE]);
    assert Range(4) == INT_RANGE by { assert Range(2) == 65536; }
    IntAt(s, pos)
  }

  function Int64At(s: seq<Byte>, pos: nat): (x: Int64)
    requires pos + AINT_SIZE <= |s|
    ensures x == AintAt(s, pos)
  {
    NumberBound(s[pos..pos + AINT_SIZE]);
    assert Range(8) == AINT_RANGE by { assert Range(2) == 65536; assert Range(4) == INT_RANGE; assert Range(6) == 0x1_0000_0000_0000; }
    AintAt(s, pos)
  }

  function IntsAt(s: seq<Byte>, pos: nat, n: nat): (xs: seq<Int32>)
    requires pos + INT_SIZE * n <= |s|
    ensures |xs| == n
  {
    if n == 0 then [] else IntsAt(s, pos, n - 1) + [Int32At(s, pos + INT_SIZE * (n - 1))]
  }

  function AintsAt(s: seq<Byte>, pos: nat, n: nat): (xs: seq<Int64>)
    requires pos + AINT_SIZE * n <= |s|
    ensures |xs| == n
  {
    if n == 0 then [] else AintsAt(s, pos, n - 1) + [Int64At(s, pos + AINT_SIZE * (n - 1))]
  }

  lemma {:induction false} IntsAtRoundTrip(s: seq<Byte>, pos: nat, xs: seq<Int32>)
    requires pos + INT_SIZE * |xs| <= |s| && s[pos..pos + INT_SIZE * |xs|] == IntsBytes(xs)
    ensures IntsAt(s, pos, |xs|) == xs
  {
    if xs != [] {
      var n := |xs| - 1;
      var all, here := IntsBytes(xs), pos + INT_SIZE * n;
      assert all == IntsBytes(xs[..n]) + IntBytes(xs[n]);
      assert IntsAt(s, pos, n + 1) == IntsAt(s, pos, n) + [Int32At(s, here)];
      hide IntsBytes, IntBytes, BytesInt, IntsAt;
      assert s[pos..here] == all[..INT_SIZE * n] == IntsBytes(xs[..n]);
      IntsAtRoundTrip(s, pos, xs[..n]);
      assert s[here..here + INT_SIZE] == all[INT_SIZE * n..] == IntBytes(xs[n]);
      IntRoundTrip(xs[n]);
    }
  }

  lemma {:induction false} AintsAtRoundTrip(s: seq<Byte>, pos: nat, xs: seq<Int64>)
    requires pos + AINT_SIZE * |xs| <= |s| && s[pos..pos + AINT_SIZE * |xs|] == AintsBytes(xs)
    ensures AintsAt(s, pos, |xs|) == xs
  {
    if xs != [] {
      var n := |xs| - 1;
      var all, here := AintsBytes(xs), pos + AINT_SIZE * n;
      assert all == AintsBytes(xs[..n]) + AintBytes(xs[n]);
      assert AintsAt(s, pos, n + 1) == AintsAt(s, pos, n) + [Int64At(s, here)];
      hide AintsBytes, AintBytes, BytesAint, AintsAt;
      assert s[pos..here] == all[..AINT_SIZE * n] == AintsBytes(xs[..n]);
      AintsAtRoundTrip(s, pos, xs[..n]);
      assert s[here..here + AINT_SIZE] == all[AINT_SIZE * n..] == AintBytes(xs[n]);
      AintRoundTrip(xs[n]);
    }
  }

  function FromCode(code: int): Combiner
    requires Code(Contiguous) <= code <= Code(Resized)
  {
    match code
    case 2 => Contiguous
    case 3 => Vector
    case 4 => HvectorInteger
    case 5 => Hvector
    case 6 => Indexed
    case 7 => HindexedInteger
    case 8 => Hindexed
    case 9 => IndexedBlock
    case 10 => StructInteger
    case 11 => Struct
    case 12 => Subarray
    case 13 => Darray
    case 14 => F90Real
    case 15 => F90Complex
    case 16 => F90Integer
    case _ => Resized
  }

  function Parse(s: seq<Byte>, pos: nat): (r: Parsed)
    ensures r.Done? ==> pos < r.end <= |s|
    decreases |s| - pos, 0, 0
  {
    if pos + 2 * INT_SIZE > |s| then Malformed
    else
      var code := IntAt(s, pos);
      if code == Code(Named) then
        var id := IntAt(s, pos + INT_SIZE);
        if 0 <= id < MAX_PREDEFINED then Done(Leaf(id), pos + 2 * INT_SIZE) else Malformed
      else if !(Code(Contiguous) <= code <= Code(Resized)) || pos + 4 * INT_SIZE > |s| then Malformed
      else
        var ci, ca, cd := IntAt(s, pos + INT_SIZE), IntAt(s, pos + 2 * INT_SIZE), IntAt(s, pos + 3 * INT_SIZE);
        if ci < 0 || ca < 0 || cd < 0 || pos + 4 * INT_SIZE + AINT_SIZE * ca + INT_SIZE * (cd + ci) > |s| then Malformed
        else ParseMade(s, pos + 4 * INT_SIZE, FromCode(code), ci, ca, cd)
  }

  /** Behind the header: addresses, ids, integers and the described children. */
  function ParseMade(s: seq<Byte>, pos: nat, c: Combiner, ci: nat, ca: nat, cd: nat): (r: Parsed)
    requires pos + AINT_SIZE * ca + INT_SIZE * (cd + ci) <= |s|
    ensures r.Done? ==> pos <= r.end <= |s|
    decreases |s| - pos, 2, 0
  {
    var ids := pos + AINT_SIZE * ca;
    var aints, ints := AintsAt(s, pos, ca), IntsAt(s, ids + INT_SIZE * cd, ci);
    if !Shape(c, ints, ca, cd) then Malformed
    else
      match ParseKids(s, ids, cd, ids + INT_SIZE * (cd + ci))
      case KidsMalformed => Malformed
      case KidsUnsupported => Unsupported
      case KidsDone(kids, end) => if IsF90(c) then Unsupported else Done(Made(Plain(c), ints, aints, kids), end)
  }

  /** The first n children, whose ids are at ids; descriptions follow at the cursor. */
  function ParseKids(s: seq<Byte>, ids: nat, n: nat, cursor: nat): (r: ParsedKids)
    requires ids + INT_SIZE * n <= cursor <= |s|
    ensures r.KidsDone? ==> cursor <= r.end <= |s| && |r.kids| == n
    decreases |s| - cursor, 1, n
  {
    if n == 0 then KidsDone([], cursor)
    else
      var before := ParseKids(s, ids, n - 1, cursor);
      if !before.KidsDone? then before
      else
        var id := IntAt(s, ids + INT_SIZE * (n - 1));
        if id < 0 then KidsMalformed
        else if id < MAX_PREDEFINED then KidsDone(before.kids + [Leaf(id)], before.end)
        else
          match Parse(s, before.end)
          case Malformed => KidsMalformed
          case Unsupported => KidsUnsupported
          case Done(kid, end) => KidsDone(before.kids + [kid], end)
  }

  // ----- round trip -----

  ghost predicate Holds(s: seq<Byte>, pos: nat, bytes: seq<Byte>) {
    pos + |bytes| <= |s| && s[pos..pos + |bytes|] == bytes
  }

  lemma {:induction false} HoldsParts(s: seq<Byte>, pos: nat, a: seq<Byte>, b: seq<Byte>)
    requires Holds(s, pos, a + b)
    ensures Holds(s, pos, a) && Holds(s, pos + |a|, b)
  {
    assert s[pos..pos + |a|] == (a + b)[..|a|];
    assert s[pos + |a|..pos + |a| + |b|] == (a + b)[|a|..];
  }

  lemma {:induction false} HoldsInt(s: seq<Byte>, pos: nat, x: Int32)
    requires Holds(s, pos, IntBytes(x))
    ensures pos + INT_SIZE <= |s| && IntAt(s, pos) == x
  {
    IntRoundTrip(x);
  }

  lemma {:induction false} HoldsIntsAt(s: seq<Byte>, pos: nat, xs: seq<Int32>, i: nat)
    requires Holds(s, pos, IntsBytes(xs)) && i < |xs|
    ensures pos + INT_SIZE * |xs| <= |s| && IntAt(s, pos + INT_SIZE * i) == xs[i]
  {
    IntsAtRoundTrip(s, pos, xs);
    IntsAtIndex(s, pos, |xs|, i);
  }

  lemma {:induction false} IntsAtIndex(s: seq<Byte>, pos: nat, n: nat, i: nat)
    requires pos + INT_SIZE * n <= |s| && i < n
    ensures IntsAt(s, pos, n)[i] == IntAt(s, pos + INT_SIZE * i)
  {
    if i < n - 1 { IntsAtIndex(s, pos, n - 1, i); }
  }

  /** What the receiver makes of a description. */
  function Expected(d: Desc, end: nat): Parsed {
    if HasF90(d) then Unsupported else Done(Normal(d), end)
  }

  function ExpectedKids(kids: seq<Desc>, end: nat): ParsedKids {
    if exists i :: 0 <= i < |kids| && HasF90(kids[i]) then KidsUnsupported
    else KidsDone(seq(|kids|, i requires 0 <= i < |kids| => Normal(kids[i])), end)
  }

  /** Unpacking a packed description rebuilds the same tree with every duplicate replaced
      by its target and each combiner by its plain form, and consumes exactly the bytes
      written; it fails exactly if there is a Fortran 90 datatype inside. */
  lemma {:induction false} RoundTrip(d: Desc, next: int, s: seq<Byte>, pos: nat)
    requires WellFormed(d) && Fits(d, next) && Holds(s, pos, Encoding(d, next).bytes)
    ensures Parse(s, pos) == Expected(d, pos + |Encoding(d, next).bytes|)
    decreases d, 1
  {
    if d.Leaf? {
      RoundTripLeaf(d, next, s, pos);
    } else if d.comb == Dup {
      DupTarget(d, next);
      RoundTrip(d.kids[0], next, s, pos);
    } else {
      RoundTripMade(d, next, s, pos);
    }
  }

  lemma {:induction false} RoundTripLeaf(d: Desc, next: int, s: seq<Byte>, pos: nat)
    requires WellFormed(d) && Fits(d, next) && d.Leaf? && Holds(s, pos, Encoding(d, next).bytes)
    ensures Parse(s, pos) == Expected(d, pos + |Encoding(d, next).bytes|)
  {
    HoldsParts(s, pos, IntBytes(Code(Named)), IntBytes(d.id));
    HoldsInt(s, pos, Code(Named));
    HoldsInt(s, pos + INT_SIZE, d.id);
  }

  lemma {:induction false} DupTarget(d: Desc, next: int)
    requires WellFormed(d) && Fits(d, next) && d.Made? && d.comb == Dup
    ensures |d.kids| == 1 && WellFormed(d.kids[0]) && Fits(d.kids[0], next) && Encoding(d, next) == Encoding(d.kids[0], next)
    ensures forall end: nat :: Expected(d, end) == Expected(d.kids[0], end)
  {
    var kid := d.kids[0];
    assert HasF90(d) <==> HasF90(kid);
    assert Normal(d) == Normal(kid);
  }

  lemma {:induction false} CodeRoundTrip(c: Combiner)
    requires c != Named && c != Dup
    ensures Code(Contiguous) <= Code(c) <= Code(Resized) && FromCode(Code(c)) == c
  {
  }

  function Layout(
    h0: seq<Byte>, h1: seq<Byte>, h2: seq<Byte>, h3: seq<Byte>, a: seq<Byte>, b: seq<Byte>, e: seq<Byte>, r: seq<Byte>): (bytes: seq<Byte>)
    ensures |bytes| == |h0| + |h1| + |h2| + |h3| + |a| + |b| + |e| + |r|
  {
    h0 + h1 + h2 + h3 + a + b + e + r
  }

  lemma {:induction false} HoldsLayout(
    s: seq<Byte>, pos: nat, h0: seq<Byte>, h1: seq<Byte>, h2: seq<Byte>, h3: seq<Byte>, a: seq<Byte>, b: seq<Byte>, e: seq<Byte>, r: seq<Byte>,
    atB: nat, atE: nat, atR: nat)
    requires Holds(s, pos, Layout(h0, h1, h2, h3, a, b, e, r))
    requires |h0| == |h1| == |h2| == |h3| == INT_SIZE
    requires atB == pos + 4 * INT_SIZE + |a| && atE == atB + |b| && atR == atE + |e|
    ensures Holds(s, pos, h0) && Holds(s, pos + INT_SIZE, h1) && Holds(s, pos + 2 * INT_SIZE, h2) && Holds(s, pos + 3 * INT_SIZE, h3)
    ensures Holds(s, pos + 4 * INT_SIZE, a) && Holds(s, atB, b) && Holds(s, atE, e) && Holds(s, atR, r)
  {
    hide Holds;
    HoldsParts(s, pos, h0 + h1 + h2 + h3 + a + b + e, r);
    HoldsParts(s, pos, h0 + h1 + h2 + h3 + a + b, e);
    HoldsParts(s, pos, h0 + h1 + h2 + h3 + a, b);
    HoldsParts(s, pos, h0 + h1 + h2 + h3, a);
    HoldsParts(s, pos, h0 + h1 + h2, h3);
    HoldsParts(s, pos, h0 + h1, h2);
    HoldsParts(s, pos, h0, h1);
  }

  /** The place behind the header and the addresses. */
  function IdsPlace(d: Desc, pos: nat): nat
    requires d.Made?
  {
    pos + 4 * INT_SIZE + AINT_SIZE * |d.aints|
  }

  function KidsPlace(d: Desc, pos: nat): nat
    requires d.Made?
  {
    IdsPlace(d, pos) + INT_SIZE * |d.kids| + INT_SIZE * |d.ints|
  }

  lemma {:induction false} HoldsHeader(d: Desc, next: int, s: seq<Byte>, pos: nat)
    requires WellFormed(d) && Fits(d, next) && d.Made? && d.comb != Dup && KidsFit(d.kids, next)
    requires Holds(s, pos, Encoding(d, next).bytes)
    ensures |d.ints| < 0x8000_0000 && |d.aints| < 0x8000_0000 && |d.kids| < 0x8000_0000
    ensures Holds(s, pos, IntBytes(Code(d.comb))) && Holds(s, pos + INT_SIZE, IntBytes(|d.ints|))
    ensures Holds(s, pos + 2 * INT_SIZE, IntBytes(|d.aints|)) && Holds(s, pos + 3 * INT_SIZE, IntBytes(|d.kids|))
  {
    EncodingLayout(d, next);
    hide *;
    var a, r := AintsBytes(d.aints), EncodingOfKids(d.kids, next);
    var b, e := IntsBytes(r.ids), IntsBytes(d.ints);
    var place := pos + 4 * INT_SIZE + |a|;
    HoldsLayout(s, pos, IntBytes(Code(d.comb)), IntBytes(|d.ints|), IntBytes(|d.aints|), IntBytes(|d.kids|), a, b, e, r.bytes,
                place, place + |b|, place + |b| + |e|);
  }

  lemma {:induction false} HoldsArrays(d: Desc, next: int, s: seq<Byte>, pos: nat)
    requires WellFormed(d) && Fits(d, next) && d.Made? && d.comb != Dup && KidsFit(d.kids, next)
    requires Holds(s, pos, Encoding(d, next).bytes)
    ensures Holds(s, pos + 4 * INT_SIZE, AintsBytes(d.aints))
    ensures Holds(s, IdsPlace(d, pos), IntsBytes(EncodingOfKids(d.kids, next).ids))
    ensures Holds(s, IdsPlace(d, pos) + INT_SIZE * |d.kids|, IntsBytes(d.ints))
    ensures Holds(s, KidsPlace(d, pos), EncodingOfKids(d.kids, next).bytes)
  {
    EncodingLayout(d, next);
    hide *;
    Places(d, pos);
    var r := EncodingOfKids(d.kids, next);
    HoldsLayout(s, pos, IntBytes(Code(d.comb)), IntBytes(|d.ints|), IntBytes(|d.aints|), IntBytes(|d.kids|),
                AintsBytes(d.aints), IntsBytes(r.ids), IntsBytes(d.ints), r.bytes,
                IdsPlace(d, pos), IdsPlace(d, pos) + INT_SIZE * |d.kids|, KidsPlace(d, pos));
  }

  lemma {:induction false} EncodingEnd(d: Desc, next: int, pos: nat)
    requires WellFormed(d) && Fits(d, next) && d.Made? && d.comb != Dup && KidsFit(d.kids, next)
    ensures |Encoding(d, next).bytes| == KidsPlace(d, pos) - pos + |EncodingOfKids(d.kids, next).bytes|
  {
    EncodingLayout(d, next);
    hide Encoding, EncodingOfKids, IntBytes, IntsBytes, AintsBytes, WellFormed, Fits, KidsFit, Code, Layout;
  }

  lemma {:induction false} Places(d: Desc, pos: nat)
    requires d.Made?
    ensures IdsPlace(d, pos) == pos + 4 * INT_SIZE + AINT_SIZE * |d.aints|
    ensures KidsPlace(d, pos) == IdsPlace(d, pos) + INT_SIZE * |d.kids| + INT_SIZE * |d.ints|
  {
  }

  lemma {:induction false} EncodingLayout(d: Desc, next: int)
    requires WellFormed(d) && Fits(d, next) && d.Made? && d.comb != Dup && KidsFit(d.kids, next)
    ensures |d.ints| < 0x8000_0000 && |d.aints| < 0x8000_0000 && |d.kids| < 0x8000_0000
    ensures
      var r := EncodingOfKids(d.kids, next);
      Encoding(d, next).bytes
      == Layout(IntBytes(Code(d.comb)), IntBytes(|d.ints|), IntBytes(|d.aints|), IntBytes(|d.kids|),
                AintsBytes(d.aints), IntsBytes(r.ids), IntsBytes(d.ints), r.bytes)
  {
    ShapeOfMade(d.comb, d.ints, |d.aints|, |d.kids|);
    hide Shape, IntBytes, IntsBytes, AintsBytes, EncodingOfKids, KidsFit;
  }

  /** Reading back everything in front of the children. */
  lemma {:induction false} ReadsHead(d: Desc, next: int, s: seq<Byte>, pos: nat)
    requires WellFormed(d) && Fits(d, next) && d.Made? && d.comb != Dup && KidsFit(d.kids, next)
    requires Holds(s, pos, Encoding(d, next).bytes)
    ensures KidsPlace(d, pos) <= |s|
    ensures IntAt(s, pos) == Code(d.comb) && IntAt(s, pos + INT_SIZE) == |d.ints|
    ensures IntAt(s, pos + 2 * INT_SIZE) == |d.aints| && IntAt(s, pos + 3 * INT_SIZE) == |d.kids|
    ensures AintsAt(s, pos + 4 * INT_SIZE, |d.aints|) == d.aints
    ensures IntsAt(s, IdsPlace(d, pos) + INT_SIZE * |d.kids|, |d.ints|) == d.ints
  {
    hide *;
    Constants();
    HoldsHeader(d, next, s, pos);
    HoldsArrays(d, next, s, pos);
    Places(d, pos);
    HoldsInt(s, pos, Code(d.comb));
    HoldsInt(s, pos + INT_SIZE, |d.ints|);
    HoldsInt(s, pos + 2 * INT_SIZE, |d.aints|);
    HoldsInt(s, pos + 3 * INT_SIZE, |d.kids|);
    HoldsAints(s, pos + 4 * INT_SIZE, d.aints);
    HoldsInts(s, IdsPlace(d, pos) + INT_SIZE * |d.kids|, d.ints);
    HoldsWithin(s, KidsPlace(d, pos), EncodingOfKids(d.kids, next).bytes);
  }

  lemma {:induction false} HoldsInts(s: seq<Byte>, pos: nat, xs: seq<Int32>)
    requires Holds(s, pos, IntsBytes(xs))
    ensures pos + INT_SIZE * |xs| <= |s| && IntsAt(s, pos, |xs|) == xs
  {
    IntsAtRoundTrip(s, pos, xs);
  }

  lemma {:induction false} HoldsAints(s: seq<Byte>, pos: nat, xs: seq<Int64>)
    requires Holds(s, pos, AintsBytes(xs))
    ensures pos + AINT_SIZE * |xs| <= |s| && AintsAt(s, pos, |xs|) == xs
  {
    AintsAtRoundTrip(s, pos, xs);
  }

  lemma {:induction false} HoldsWithin(s: seq<Byte>, pos: nat, bytes: seq<Byte>)
    requires Holds(s, pos, bytes)
    ensures pos + |bytes| <= |s|
  {
  }

  lemma {:induction false} RoundTripMade(d: Desc, next: int, s: seq<Byte>, pos: nat)
    requires WellFormed(d) && Fits(d, next) && d.Made? && d.comb != Dup
    requires Holds(s, pos, Encoding(d, next).bytes)
    ensures Parse(s, pos) == Expected(d, pos + |Encoding(d, next).bytes|)
    decreases d, 0
  {
    hide *;
    Constants();
    MadeFacts(d, next);
    var r, cursor := EncodingOfKids(d.kids, next), KidsPlace(d, pos);
    HoldsArrays(d, next, s, pos);
    ReadsHead(d, next, s, pos);
    EncodingEnd(d, next, pos);
    PlacesInOrder(d, pos);
    RoundTripKids(d.kids, next, s, IdsPlace(d, pos), cursor, |d.kids|);
    ExpectedMade(d, cursor + |r.bytes|);
    ParseOfMade(s, pos, d);
  }

  lemma {:induction false} MadeFacts(d: Desc, next: int)
    requires WellFormed(d) && Fits(d, next) && d.Made? && d.comb != Dup
    ensures KidsFit(d.kids, next) && d.comb != Named && Shape(d.comb, d.ints, |d.aints|, |d.kids|)
    ensures d.kids[..|d.kids|] == d.kids
  {
    ShapeOfMade(d.comb, d.ints, |d.aints|, |d.kids|);
    hide Shape;
    assert Nested(d) == NestedKids(d.kids);
    assert d.kids[..|d.kids|] == d.kids;
    assert forall i :: 0 <= i < |d.kids| ==> WellFormed(d.kids[i]);
  }

  lemma {:induction false} ShapeOfMade(c: Combiner, ints: seq<Int32>, aints: nat, kids: nat)
    requires Shape(c, ints, aints, kids)
    ensures c != Named && (|ints| < 0x8000_0000 ==> aints < 0x8000_0000 && kids < 0x8000_0000)
  {
  }

  lemma {:induction false} PlacesInOrder(d: Desc, pos: nat)
    requires d.Made?
    ensures IdsPlace(d, pos) + INT_SIZE * |d.kids| <= KidsPlace(d, pos)
  {
  }

  lemma {:induction false} ExpectedMade(d: Desc, end: nat)
    requires d.Made? && d.comb != Dup
    ensures Expected(d, end)
        == if IsF90(d.comb) then Unsupported
           else match ExpectedKids(d.kids, end)
             case KidsDone(kids, end) => Done(Made(Plain(d.comb), d.ints, d.aints, kids), end)
             case _ => Unsupported
    ensures !ExpectedKids(d.kids, end).KidsMalformed?
  {
  }

  /** What the receiver does with the header of d. */
  lemma {:induction false} ParseOfMade(s: seq<Byte>, pos: nat, d: Desc)
    requires d.Made? && d.comb != Named && d.comb != Dup && KidsPlace(d, pos) <= |s|
    requires Shape(d.comb, d.ints, |d.aints|, |d.kids|)
    requires IntAt(s, pos) == Code(d.comb) && IntAt(s, pos + INT_SIZE) == |d.ints|
    requires IntAt(s, pos + 2 * INT_SIZE) == |d.aints| && IntAt(s, pos + 3 * INT_SIZE) == |d.kids|
    requires AintsAt(s, pos + 4 * INT_SIZE, |d.aints|) == d.aints
    requires IntsAt(s, IdsPlace(d, pos) + INT_SIZE * |d.kids|, |d.ints|) == d.ints
    ensures Parse(s, pos)
         == match ParseKids(s, IdsPlace(d, pos), |d.kids|, KidsPlace(d, pos))
            case KidsMalformed => Malformed
            case KidsUnsupported => Unsupported
            case KidsDone(kids, end) => if IsF90(d.comb) then Unsupported else Done(Made(Plain(d.comb), d.ints, d.aints, kids), end)
  {
    CodeRoundTrip(d.comb);
    hide ParseKids, ParseMade, Shape, FromCode, Code, IntAt, IntsAt, AintsAt, IsF90, Plain;
    assert Parse(s, pos) == ParseMade(s, pos + 4 * INT_SIZE, d.comb, |d.ints|, |d.aints|, |d.kids|);
    ParseOfMadeBody(s, pos, d);
  }

  lemma {:induction false} ParseOfMadeBody(s: seq<Byte>, pos: nat, d: Desc)
    requires d.Made? && KidsPlace(d, pos) <= |s|
    requires Shape(d.comb, d.ints, |d.aints|, |d.kids|)
    requires AintsAt(s, pos + 4 * INT_SIZE, |d.aints|) == d.aints
    requires IntsAt(s, IdsPlace(d, pos) + INT_SIZE * |d.kids|, |d.ints|) == d.ints
    ensures ParseMade(s, pos + 4 * INT_SIZE, d.comb, |d.ints|, |d.aints|, |d.kids|)
         == match ParseKids(s, IdsPlace(d, pos), |d.kids|, KidsPlace(d, pos))
            case KidsMalformed => Malformed
            case KidsUnsupported => Unsupported
            case KidsDone(kids, end) => if IsF90(d.comb) then Unsupported else Done(Made(Plain(d.comb), d.ints, d.aints, kids), end)
  {
    hide ParseKids, Shape, IntsAt, AintsAt, IsF90, Plain;
    assert IdsPlace(d, pos) + INT_SIZE * (|d.kids| + |d.ints|) == KidsPlace(d, pos);
  }

  lemma {:induction false} RoundTripKids(kids: seq<Desc>, next: int, s: seq<Byte>, ids: nat, cursor: nat, n: nat)
    requires KidsFit(kids, next) && n <= |kids| && ids + INT_SIZE * |kids| <= cursor <= |s|
    requires Holds(s, ids, IntsBytes(EncodingOfKids(kids, next).ids)) && Holds(s, cursor, EncodingOfKids(kids, next).bytes)
    ensures KidsFit(kids[..n], next)
    ensures ParseKids(s, ids, n, cursor) == ExpectedKids(kids[..n], cursor + |EncodingOfKids(kids[..n], next).bytes|)
    decreases kids, 0, n
  {
    hide *;
    Constants();
    KidsInOrder(kids, next, n);
    if n == 0 {
      NoKidsExpected(kids, next, s, ids, cursor);
    } else {
      var upto, kid := kids[..n], kids[n - 1];
      assert upto[..|upto| - 1] == kids[..n - 1] && upto[|upto| - 1] == kid;
      RoundTripKids(kids, next, s, ids, cursor, n - 1);
      KidsInOrder(kids, next, n - 1);
      LastKid(upto, next);
      var before := EncodingOfKids(kids[..n - 1], next);
      HoldsPrefix(s, cursor, EncodingOfKids(upto, next).bytes, EncodingOfKids(kids, next).bytes);
      if !kid.Leaf? {
        HoldsParts(s, cursor, before.bytes, Encoding(kid, before.next + 1).bytes);
        RoundTrip(kid, before.next + 1, s, cursor + |before.bytes|);
      }
      RoundTripLastKid(kids, next, s, ids, cursor, n);
    }
  }

  lemma {:induction false} RoundTripLastKid(kids: seq<Desc>, next: int, s: seq<Byte>, ids: nat, cursor: nat, n: nat)
    requires KidsFit(kids, next) && 0 < n <= |kids| && ids + INT_SIZE * |kids| <= cursor <= |s|
    requires Holds(s, ids, IntsBytes(EncodingOfKids(kids, next).ids))
    requires KidsFit(kids[..n - 1], next) && KidsFit(kids[..n], next)
    requires ParseKids(s, ids, n - 1, cursor) == ExpectedKids(kids[..n - 1], cursor + |EncodingOfKids(kids[..n - 1], next).bytes|)
    requires !kids[n - 1].Leaf? ==>
      Parse(s, cursor + |EncodingOfKids(kids[..n - 1], next).bytes|)
      == Expected(kids[n - 1], cursor + |EncodingOfKids(kids[..n], next).bytes|)
    ensures ParseKids(s, ids, n, cursor) == ExpectedKids(kids[..n], cursor + |EncodingOfKids(kids[..n], next).bytes|)
  {
    hide *;
    Constants();
    var upto, kid := kids[..n], kids[n - 1];
    assert upto[..|upto| - 1] == kids[..n - 1] && upto[|upto| - 1] == kid;
    var middle := cursor + |EncodingOfKids(kids[..n - 1], next).bytes|;
    var end := cursor + |EncodingOfKids(upto, next).bytes|;
    IdsTell(kids, next, n - 1);
    HoldsIntsAt(s, ids, EncodingOfKids(kids, next).ids, n - 1);
    assert kid.Leaf? ==> middle == end by { LastKid(upto, next); }
    ExpectedLast(upto, middle, end);
    ParseLastKid(s, ids, n, cursor);
  }

  lemma {:induction false} HoldsPrefix(s: seq<Byte>, pos: nat, a: seq<Byte>, b: seq<Byte>)
    requires Holds(s, pos, b) && a <= b
    ensures Holds(s, pos, a)
  {
    assert s[pos..pos + |a|] == b[..|a|];
  }

  lemma {:induction false} NoKidsExpected(kids: seq<Desc>, next: int, s: seq<Byte>, ids: nat, cursor: nat)
    requires KidsFit(kids, next) && KidsFit(kids[..0], next) && ids <= cursor <= |s|
    ensures ParseKids(s, ids, 0, cursor) == ExpectedKids(kids[..0], cursor + |EncodingOfKids(kids[..0], next).bytes|)
  {
  }

  lemma {:induction false} ExpectedLast(kids: seq<Desc>, middle: nat, end: nat)
    requires kids != []
    ensures
      var before, kid := ExpectedKids(kids[..|kids| - 1], middle), kids[|kids| - 1];
      ExpectedKids(kids, end)
      == if before.KidsUnsupported? then before
         else match Expected(kid, end)
           case Done(d, e) => KidsDone(before.kids + [d], e)
           case _ => KidsUnsupported
    ensures !ExpectedKids(kids[..|kids| - 1], middle).KidsMalformed? && !Expected(kids[|kids| - 1], end).Malformed?
    ensures kids[|kids| - 1].Leaf? ==> Expected(kids[|kids| - 1], end) == Done(kids[|kids| - 1], end)
    ensures ExpectedKids(kids[..|kids| - 1], middle).KidsDone? ==> ExpectedKids(kids[..|kids| - 1], middle).end == middle
  {
    var before := kids[..|kids| - 1];
    hide HasF90, Normal;
    assert (exists i :: 0 <= i < |kids| && HasF90(kids[i]))
      <==> (exists i :: 0 <= i < |before| && HasF90(before[i])) || HasF90(kids[|kids| - 1]) by {
      if i :| 0 <= i < |before| && HasF90(before[i]) { assert HasF90(kids[i]); }
      if i :| 0 <= i < |kids| && HasF90(kids[i]) { assert i < |before| ==> HasF90(before[i]); }
    }
    assert kids[|kids| - 1].Leaf? ==> Expected(kids[|kids| - 1], end) == Done(kids[|kids| - 1], end) by { ExpectedLeaf(kids[|kids| - 1], end); }
  }

  lemma {:induction false} ExpectedLeaf(d: Desc, end: nat)
    ensures d.Leaf? ==> Expected(d, end) == Done(d, end)
  {
  }

  lemma {:induction false} ParseLastKid(s: seq<Byte>, ids: nat, n: nat, cursor: nat)
    requires n > 0 && ids + INT_SIZE * n <= cursor <= |s|
    requires IntAt(s, ids + INT_SIZE * (n - 1)) >= 0
    ensures
      var before, id := ParseKids(s, ids, n - 1, cursor), IntAt(s, ids + INT_SIZE * (n - 1));
      ParseKids(s, ids, n, cursor)
      == if !before.KidsDone? then before
         else match (if id < MAX_PREDEFINED then Done(Leaf(id), before.end) else Parse(s, before.end))
           case Malformed => KidsMalformed
           case Unsupported => KidsUnsupported
           case Done(kid, end) => KidsDone(before.kids + [kid], end)
  {
    hide Parse;
  }
}
