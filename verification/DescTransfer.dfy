/** Packing a description into a buffer, and rebuilding the datatype from it. */
module DescTransfer {
  import opened DescFormat
  import opened DescPacking

  function Spliced(s: seq<Byte>, pos: nat, bytes: seq<Byte>): (r: seq<Byte>)
    requires pos + |bytes| <= |s|
    ensures |r| == |s|
  {
    s[..pos] + bytes + s[pos + |bytes|..]
  }

  lemma {:induction false} SplicedTwice(s: seq<Byte>, pos: nat, a: seq<Byte>, b: seq<Byte>)
    requires pos + |a| + |b| <= |s|
    ensures Spliced(Spliced(s, pos, a), pos + |a|, b) == Spliced(s, pos, a + b)
  {
  }

  lemma {:induction false} SplicedAround(s: seq<Byte>, pos: nat, bytes: seq<Byte>)
    requires pos + |bytes| <= |s|
    ensures Spliced(s, pos, bytes)[..pos] == s[..pos]
    ensures Spliced(s, pos, bytes)[pos..pos + |bytes|] == bytes
    ensures Spliced(s, pos, bytes)[pos + |bytes|..] == s[pos + |bytes|..]
  {
  }

  /** Copies bytes to a place in the buffer. */
  method CopyIn(buf: array<Byte>, pos: nat, bytes: seq<Byte>)
    requires pos + |bytes| <= buf.Length
    modifies buf
    ensures buf[..] == Spliced(old(buf[..]), pos, bytes)
  {
    forall k | 0 <= k < |bytes| {
      buf[pos + k] := bytes[k];
    }
  }

  /** Everything in front of the descriptions of the children but the ids. */
  method PackHead(d: Datatype, buf: array<Byte>, pos: nat)
    requires d.Means() && WellFormed(d.desc) && d.desc.Made?
    requires pos + |Head(d.desc)| <= buf.Length
    modifies buf
    ensures buf[..] == Spliced(old(buf[..]), pos, Head(d.desc))
  {
    ghost var was := buf[..];
    CopyIn(buf, pos, IntBytes(Code(d.comb)));
    CopyIn(buf, pos + INT_SIZE, IntBytes(|d.ints|));
    SplicedTwice(was, pos, IntBytes(Code(d.comb)), IntBytes(|d.ints|));
    CopyIn(buf, pos + 2 * INT_SIZE, IntBytes(|d.aints|));
    SplicedTwice(was, pos, IntBytes(Code(d.comb)) + IntBytes(|d.ints|), IntBytes(|d.aints|));
    CopyIn(buf, pos + 3 * INT_SIZE, IntBytes(|d.kids|));
    SplicedTwice(was, pos, IntBytes(Code(d.comb)) + IntBytes(|d.ints|) + IntBytes(|d.aints|), IntBytes(|d.kids|));
    CopyIn(buf, pos + 4 * INT_SIZE, AintsBytes(d.aints));
    SplicedTwice(was, pos, IntBytes(Code(d.comb)) + IntBytes(|d.ints|) + IntBytes(|d.aints|) + IntBytes(|d.kids|), AintsBytes(d.aints));
  }

  /** A buffer that has at pos a head, then room for gap bytes that is filled with
      ids up to somewhere, then a tail, and otherwise what it had before. */
  ghost predicate PartlyPacked(was: seq<Byte>, now: seq<Byte>, pos: nat, head: seq<Byte>, ids: seq<Byte>, gap: nat, tail: seq<Byte>) {
    var rest := pos + |head| + gap;
    && |now| == |was| && rest + |tail| <= |was| && |ids| <= gap
    && now[..pos + |head| + |ids|] == was[..pos] + head + ids
    && now[rest..rest + |tail|] == tail
    && now[rest + |tail|..] == was[rest + |tail|..]
  }

  lemma {:induction false} PackedHead(was: seq<Byte>, now: seq<Byte>, pos: nat, head: seq<Byte>, gap: nat, tail: seq<Byte>)
    requires pos + |head| + gap + |tail| <= |was|
    requires now == Spliced(Spliced(was, pos, head), pos + |head| + gap, tail)
    ensures PartlyPacked(was, now, pos, head, [], gap, tail)
  {
    assert now[..pos + |head|] == Spliced(was, pos, head)[..pos + |head|];
  }

  lemma {:induction false} PackedId(
    was: seq<Byte>, now: seq<Byte>, pos: nat, head: seq<Byte>, ids: seq<Byte>, gap: nat, tail: seq<Byte>, id: seq<Byte>)
    requires PartlyPacked(was, now, pos, head, ids, gap, tail) && |ids| + |id| <= gap
    ensures PartlyPacked(was, Spliced(now, pos + |head| + |ids|, id), pos, head, ids + id, gap, tail)
  {
    var spliced, rest := Spliced(now, pos + |head| + |ids|, id), pos + |head| + gap;
    assert spliced[rest..rest + |tail|] == now[rest..rest + |tail|];
    assert spliced[rest + |tail|..] == now[rest + |tail|..];
  }

  lemma {:induction false} PackedMore(
    was: seq<Byte>, now: seq<Byte>, pos: nat, head: seq<Byte>, ids: seq<Byte>, gap: nat, tail: seq<Byte>, more: seq<Byte>)
    requires PartlyPacked(was, now, pos, head, ids, gap, tail) && pos + |head| + gap + |tail| + |more| <= |was|
    ensures PartlyPacked(was, Spliced(now, pos + |head| + gap + |tail|, more), pos, head, ids, gap, tail + more)
  {
    var rest := pos + |head| + gap;
    var end := rest + |tail|;
    var spliced := Spliced(now, end, more);
    assert spliced[..pos + |head| + |ids|] == now[..pos + |head| + |ids|];
    assert spliced[rest..end + |more|] == now[rest..end] + more;
    assert spliced[end + |more|..] == now[end..][|more|..] == was[end..][|more|..] == was[end + |more|..];
  }

  lemma {:induction false} PackedAll(was: seq<Byte>, now: seq<Byte>, pos: nat, head: seq<Byte>, ids: seq<Byte>, tail: seq<Byte>)
    requires PartlyPacked(was, now, pos, head, ids, |ids|, tail)
    ensures now == Spliced(was, pos, head + ids + tail)
  {
    var rest := pos + |head| + |ids|;
    assert now == now[..rest] + now[rest..rest + |tail|] + now[rest + |tail|..];
  }

  /** Packs the description of d at pos; the ids of nested descriptions count up from
      next. Writes exactly the bytes of the encoding and nothing else. */
  method PackDescription(d: Datatype, buf: array<Byte>, pos: nat, next: int) returns (end: nat, next': int)
    requires d.Means() && WellFormed(d.desc) && Fits(d.desc, next)
    requires pos + Size(d.desc) <= buf.Length
    modifies buf
    ensures end == pos + |Encoding(d.desc, next).bytes| <= buf.Length && next' == Encoding(d.desc, next).next
    ensures buf[..] == Spliced(old(buf[..]), pos, Encoding(d.desc, next).bytes)
    decreases d.desc, 2
  {
    ghost var was := buf[..];
    EncodingSize(d.desc, next);
    if d.comb == Named {
      CopyIn(buf, pos, IntBytes(Code(Named)));
      CopyIn(buf, pos + INT_SIZE, IntBytes(d.id));
      SplicedTwice(was, pos, IntBytes(Code(Named)), IntBytes(d.id));
      return pos + 2 * INT_SIZE, next;
    }
    if d.comb == Dup {
      end, next' := PackDescription(d.kids[0], buf, pos, next);
      return;
    }
    end, next' := PackMade(d, buf, pos, next);
  }

  /** The header, the addresses and, behind the room for the ids, the integers. */
  method PackFront(d: Datatype, buf: array<Byte>, pos: nat) returns (position: nat, end: nat)
    requires d.Means() && WellFormed(d.desc) && d.desc.Made?
    requires pos + |Head(d.desc)| + INT_SIZE * (|d.kids| + |d.ints|) <= buf.Length
    modifies buf
    ensures position == pos + |Head(d.desc)| && end == position + INT_SIZE * (|d.kids| + |d.ints|)
    ensures PartlyPacked(old(buf[..]), buf[..], pos, Head(d.desc), [], INT_SIZE * |d.kids|, IntsBytes(d.ints))
  {
    ghost var was := buf[..];
    PackHead(d, buf, pos);
    position := pos + 4 * INT_SIZE + AINT_SIZE * |d.aints|;
    end := position + INT_SIZE * |d.kids|;
    CopyIn(buf, end, IntsBytes(d.ints));
    end := end + INT_SIZE * |d.ints|;
    PackedHead(was, buf[..], pos, Head(d.desc), INT_SIZE * |d.kids|, IntsBytes(d.ints));
  }

  lemma {:induction false} MadeEncoding(d: Desc, next: int)
    requires WellFormed(d) && Fits(d, next) && d.Made? && d.comb != Dup
    ensures KidsFit(d.kids, next)
    ensures
      var r := EncodingOfKids(d.kids, next);
      && Encoding(d, next) == Packed(Head(d) + IntsBytes(r.ids) + (IntsBytes(d.ints) + r.bytes), r.next)
      && Size(d) == |Head(d)| + INT_SIZE * (|d.kids| + |d.ints|) + SizeOfKids(d.kids)
      && |Encoding(d, next).bytes| == Size(d)
  {
    EncodingSize(d, next);
    var r := EncodingOfKids(d.kids, next);
    assert Encoding(d, next).bytes == Head(d) + IntsBytes(r.ids) + IntsBytes(d.ints) + r.bytes;
    assert Size(d) == |Head(d)| + INT_SIZE * (|d.kids| + |d.ints|) + SizeOfKids(d.kids);
    hide *;
    Constants();
    assert Head(d) + IntsBytes(r.ids) + IntsBytes(d.ints) + r.bytes == Head(d) + IntsBytes(r.ids) + (IntsBytes(d.ints) + r.bytes);
  }

  method PackMade(d: Datatype, buf: array<Byte>, pos: nat, next: int) returns (end: nat, next': int)
    requires d.Means() && WellFormed(d.desc) && Fits(d.desc, next) && d.desc.Made? && d.comb != Dup
    requires pos + Size(d.desc) <= buf.Length
    modifies buf
    ensures end == pos + |Encoding(d.desc, next).bytes| <= buf.Length && next' == Encoding(d.desc, next).next
    ensures buf[..] == Spliced(old(buf[..]), pos, Encoding(d.desc, next).bytes)
    decreases d.desc, 1
  {
    ghost var was, desc, ints := buf[..], d.desc, d.desc.ints;
    KidsMean(d);
    MadeEncoding(desc, next);
    ghost var r := EncodingOfKids(desc.kids, next);
    var position;
    position, end := PackFront(d, buf, pos);
    hide *;
    Constants();
    end, next' := PackKids(d, buf, position, end, next, was, pos, Head(desc), IntsBytes(ints));
    PackedAll(was, buf[..], pos, Head(desc), IntsBytes(r.ids), IntsBytes(ints) + r.bytes);
  }

  // What one child adds: its id, and its description unless it is predefined.

  predicate KidFits(kid: Desc, next: int) {
    WellFormed(kid) && MAX_PREDEFINED <= next < 0x8000_0000 && (kid.Made? ==> Fits(kid, next + 1))
  }

  function KidId(kid: Desc, next: int): Int32
    requires KidFits(kid, next)
  {
    if kid.Leaf? then kid.id else next
  }

  function KidBytes(kid: Desc, next: int): seq<Byte>
    requires KidFits(kid, next)
  {
    if kid.Leaf? then [] else Encoding(kid, next + 1).bytes
  }

  function KidNext(kid: Desc, next: int): int {
    if kid.Leaf? then next else next + 1 + Nested(kid)
  }

  /** The id of a child at its place, and its description at the cursor. */
  method PackKid(
    kid: Datatype, buf: array<Byte>, place: nat, cursor: nat, next: int,
    ghost was: seq<Byte>, ghost pos: nat, ghost head: seq<Byte>, ghost ids: seq<Byte>, ghost gap: nat, ghost tail: seq<Byte>)
    returns (end: nat, next': int)
    requires kid.Means() && KidFits(kid.desc, next)
    requires PartlyPacked(was, buf[..], pos, head, ids, gap, tail) && |ids| + INT_SIZE <= gap
    requires place == pos + |head| + |ids| && cursor == pos + |head| + gap + |tail|
    requires cursor + |KidBytes(kid.desc, next)| <= buf.Length == |was|
    modifies buf
    ensures end == cursor + |KidBytes(kid.desc, next)| && next' == KidNext(kid.desc, next)
    ensures PartlyPacked(was, buf[..], pos, head, ids + IntBytes(KidId(kid.desc, next)), gap, tail + KidBytes(kid.desc, next))
    decreases kid.desc, 4
  {
    hide *;
    Constants();
    if kid.comb == Named {
      LeafKid(kid, next, tail);
      PutId(buf, place, kid.id, was, pos, head, ids, gap, tail);
      end, next' := cursor, next;
    } else {
      NestedKid(kid, next);
      PutId(buf, place, next, was, pos, head, ids, gap, tail);
      end, next' := PackNested(kid, buf, cursor, next + 1, was, pos, head, ids + IntBytes(next), gap, tail);
    }
  }

  method PackNested(
    kid: Datatype, buf: array<Byte>, cursor: nat, next: int,
    ghost was: seq<Byte>, ghost pos: nat, ghost head: seq<Byte>, ghost ids: seq<Byte>, ghost gap: nat, ghost tail: seq<Byte>)
    returns (end: nat, next': int)
    requires kid.Means() && WellFormed(kid.desc) && Fits(kid.desc, next)
    requires PartlyPacked(was, buf[..], pos, head, ids, gap, tail)
    requires cursor == pos + |head| + gap + |tail| && cursor + Size(kid.desc) <= buf.Length == |was|
    modifies buf
    ensures
      var r := Encoding(kid.desc, next);
      end == cursor + |r.bytes| && next' == r.next && PartlyPacked(was, buf[..], pos, head, ids, gap, tail + r.bytes)
    decreases kid.desc, 3
  {
    hide *;
    Constants();
    EncodingSize(kid.desc, next);
    PackedMore(was, buf[..], pos, head, ids, gap, tail, Encoding(kid.desc, next).bytes);
    end, next' := PackDescription(kid, buf, cursor, next);
  }

  lemma {:induction false} LeafKid(kid: Datatype, next: int, tail: seq<Byte>)
    requires kid.Means() && kid.comb == Named && KidFits(kid.desc, next)
    ensures kid.desc.Leaf? && KidId(kid.desc, next) == kid.id
    ensures KidBytes(kid.desc, next) == [] && tail + KidBytes(kid.desc, next) == tail && KidNext(kid.desc, next) == next
  {
  }

  lemma {:induction false} NestedKid(kid: Datatype, next: int)
    requires kid.Means() && kid.comb != Named && KidFits(kid.desc, next)
    ensures WellFormed(kid.desc) && Fits(kid.desc, next + 1) && KidId(kid.desc, next) == next < 0x8000_0000
    ensures KidBytes(kid.desc, next) == Encoding(kid.desc, next + 1).bytes && KidNext(kid.desc, next) == Encoding(kid.desc, next + 1).next
    ensures |KidBytes(kid.desc, next)| == Size(kid.desc)
  {
    EncodingSize(kid.desc, next + 1);
  }

  method PutId(
    buf: array<Byte>, place: nat, id: Int32,
    ghost was: seq<Byte>, ghost pos: nat, ghost head: seq<Byte>, ghost ids: seq<Byte>, ghost gap: nat, ghost tail: seq<Byte>)
    requires PartlyPacked(was, buf[..], pos, head, ids, gap, tail) && |ids| + INT_SIZE <= gap
    requires place == pos + |head| + |ids|
    modifies buf
    ensures PartlyPacked(was, buf[..], pos, head, ids + IntBytes(id), gap, tail)
  {
    PackedId(was, buf[..], pos, head, ids, gap, tail, IntBytes(id));
    CopyIn(buf, place, IntBytes(id));
  }

  lemma {:induction false} EncodingKid(kid: Desc, next: int)
    requires KidFits(kid, next)
    ensures kid.Leaf? ==> KidBytes(kid, next) == [] && KidNext(kid, next) == next
    ensures kid.Made? ==> WellFormed(kid) && Fits(kid, next + 1) && |KidBytes(kid, next)| == Size(kid)
    ensures kid.Made? ==> Encoding(kid, next + 1) == Packed(KidBytes(kid, next), KidNext(kid, next))
  {
    if kid.Made? { EncodingSize(kid, next + 1); }
  }

  /** The loop over the children. */
  method PackKids(
    d: Datatype, buf: array<Byte>, position: nat, cursor: nat, next: int,
    ghost was: seq<Byte>, ghost pos: nat, ghost head: seq<Byte>, ghost tail: seq<Byte>)
    returns (end: nat, next': int)
    requires d.Means() && d.desc.Made? && KidsFit(d.desc.kids, next)
    requires PartlyPacked(was, buf[..], pos, head, [], INT_SIZE * |d.kids|, tail)
    requires position == pos + |head| && cursor == position + INT_SIZE * |d.kids| + |tail|
    requires cursor + SizeOfKids(d.desc.kids) <= buf.Length == |was|
    modifies buf
    ensures
      var r := EncodingOfKids(d.desc.kids, next);
      && end == cursor + |r.bytes| && next' == r.next
      && PartlyPacked(was, buf[..], pos, head, IntsBytes(r.ids), INT_SIZE * |d.kids|, tail + r.bytes)
    decreases d.desc, 0
  {
    ghost var ds, gap := d.desc.kids, INT_SIZE * |d.kids|;
    ghost var r := PackedKids([], [], next);
    next', end := next, cursor;
    NoKids(ds, next, tail);
    KidsMean(d);
    hide *;
    Constants();
    var i := 0;
    while i < |d.kids|
      invariant 0 <= i <= |d.kids|
      invariant KidsFit(ds[..i], next) && r == EncodingOfKids(ds[..i], next)
      invariant next' == r.next && end == cursor + |r.bytes|
      invariant PartlyPacked(was, buf[..], pos, head, IntsBytes(r.ids), gap, tail + r.bytes)
    {
      NextKid(ds, next, i);
      AddedKid(r.ids, KidId(ds[i], next'), tail, r.bytes, KidBytes(ds[i], next'));
      end, next' := PackKid(
        d.kids[i], buf, position + INT_SIZE * i, end, next', was, pos, head, IntsBytes(r.ids), gap, tail + r.bytes);
      i := i + 1;
      r := EncodingOfKids(ds[..i], next);
    }
    assert ds[..i] == ds;
  }

  lemma {:induction false} NoKids(kids: seq<Desc>, next: int, tail: seq<Byte>)
    requires KidsFit(kids, next)
    ensures KidsFit(kids[..0], next) && EncodingOfKids(kids[..0], next) == PackedKids([], [], next)
    ensures IntsBytes([]) == [] && tail + [] == tail
  {
    KidsInOrder(kids, next, 0);
  }

  lemma {:induction false} KidsMean(d: Datatype)
    requires d.Means() && d.desc.Made?
    ensures |d.desc.kids| == |d.kids| && d.comb != Named && d.ints == d.desc.ints
    ensures forall k :: 0 <= k < |d.kids| ==> d.kids[k].desc == d.desc.kids[k] && d.kids[k].Means()
  {
  }

  lemma {:induction false} AddedKid(ids: seq<Int32>, id: Int32, tail: seq<Byte>, bytes: seq<Byte>, more: seq<Byte>)
    ensures IntsBytes(ids + [id]) == IntsBytes(ids) + IntBytes(id)
    ensures tail + bytes + more == tail + (bytes + more)
  {
    assert (ids + [id])[..|ids|] == ids;
  }

  /** What packing kid i adds to the ids and bytes of the kids before it. */
  lemma {:induction false} NextKid(kids: seq<Desc>, next: int, i: nat)
    requires KidsFit(kids, next) && i < |kids| && KidsFit(kids[..i], next)
    ensures KidsFit(kids[..i + 1], next) && |EncodingOfKids(kids[..i], next).ids| == i
    ensures
      var before, kid, after := EncodingOfKids(kids[..i], next), kids[i], EncodingOfKids(kids[..i + 1], next);
      && KidFits(kid, before.next)
      && after == PackedKids(before.ids + [KidId(kid, before.next)], before.bytes + KidBytes(kid, before.next), KidNext(kid, before.next))
      && |before.bytes| + |KidBytes(kid, before.next)| <= SizeOfKids(kids)
  {
    hide *;
    Constants();
    var upto, kid, before := kids[..i + 1], kids[i], EncodingOfKids(kids[..i], next);
    NextKidFits(kids, next, i);
    KidsInOrder(kids, next, i + 1);
    assert upto[..|upto| - 1] == kids[..i] && upto[|upto| - 1] == kid;
    LastKid(upto, next);
    SizeOfFirst(kids, next, i);
    EncodingKid(kid, before.next);
    KidIds(kid, before.next);
    assert before.bytes + [] == before.bytes;
  }

  lemma {:induction false} KidIds(kid: Desc, next: int)
    requires KidFits(kid, next)
    ensures KidId(kid, next) == if kid.Leaf? then kid.id else next
  {
  }

  lemma {:induction false} NextKidFits(kids: seq<Desc>, next: int, i: nat)
    requires KidsFit(kids, next) && i < |kids| && KidsFit(kids[..i], next)
    ensures KidFits(kids[i], EncodingOfKids(kids[..i], next).next)
  {
    var upto, kid, before := kids[..i + 1], kids[i], EncodingOfKids(kids[..i], next);
    KidsInOrder(kids, next, i + 1);
    assert upto[..|upto| - 1] == kids[..i] && upto[|upto| - 1] == kid;
    LastKid(upto, next);
    FitsFrom(kids[..i], next);
    WellFormedKid(kids, next, i);
    KidsBelow(kids, next, i);
    hide WellFormed, EncodingOfKids, Encoding, KidsFit;
    assert kid.Made? ==> Fits(kid, before.next + 1);
  }

  lemma {:induction false} KidsBelow(kids: seq<Desc>, next: int, i: nat)
    requires KidsFit(kids, next) && i <= |kids| && KidsFit(kids[..i], next)
    ensures EncodingOfKids(kids[..i], next).next < 0x8000_0000
  {
  }

  lemma {:induction false} SizeOfFirst(kids: seq<Desc>, next: int, i: nat)
    requires KidsFit(kids, next) && i < |kids| && KidsFit(kids[..i], next)
    ensures |EncodingOfKids(kids[..i], next).bytes| + (if kids[i].Leaf? then 0 else Size(kids[i])) <= SizeOfKids(kids)
  {
    var upto := kids[..i + 1];
    KidsInOrder(kids, next, i + 1);
    EncodingOfKidsSize(kids, next);
    EncodingOfKidsSize(upto, next);
    EncodingOfKidsSize(kids[..i], next);
    hide Encoding, EncodingOfKids, KidsFit, Size;
    assert upto[..i] == kids[..i];
    assert SizeOfKids(upto) == SizeOfKids(kids[..i]) + if kids[i].Leaf? then 0 else Size(kids[i]);
  }

  // ----- the description of a datatype, packed once -----

  /** A packed description that is kept is the right one, and its size is recorded. */
  ghost predicate Cached(d: Datatype)
    reads d, d.packed
  {
    d.packed != null ==>
      && WellFormed(d.desc) && Fits(d.desc, MAX_PREDEFINED) && Size(d.desc) <= d.packed.Length
      && d.packed[..Size(d.desc)] == Encoding(d.desc, MAX_PREDEFINED).bytes
      && (d.desc.Made? ==> d.total == Size(d.desc))
  }

  /** Packs the description on first use into a buffer of the recorded size, and then
      records the size that was really needed. */
  method GetPackDescription(d: Datatype) returns (buf: array<Byte>)
    requires d.Means() && d.Sized() && Cached(d)
    requires WellFormed(d.desc) && Fits(d.desc, MAX_PREDEFINED) && !BareDup(d.desc)
    modifies d
    ensures d.Sized() && Cached(d) && buf == d.packed
    ensures old(d.packed) != null ==> buf == old(d.packed) && d.total == old(d.total)
    ensures Size(d.desc) <= buf.Length && buf[..Size(d.desc)] == Encoding(d.desc, MAX_PREDEFINED).bytes
    ensures d.desc.Made? ==> d.total == Size(d.desc) && (old(d.packed) == null ==> d.total <= old(d.total))
  {
    if d.packed != null {
      return d.packed;
    }
    if d.comb == Named {
      buf := new Byte[2 * INT_SIZE](_ => 0);
    } else {
      buf := new Byte[d.total](_ => 0);
    }
    EncodingSize(d.desc, MAX_PREDEFINED);
    ghost var was := buf[..];
    var end, next := PackDescription(d, buf, 0, MAX_PREDEFINED);
    SplicedAround(was, 0, Encoding(d.desc, MAX_PREDEFINED).bytes);
    assert buf[..end] == buf[..][0..end];
    d.packed := buf;
    if d.comb != Named {
      d.total := end;
    }
  }

  method PackDescriptionLength(d: Datatype) returns (n: nat)
    requires d.Means() && d.Sized() && Cached(d)
    requires WellFormed(d.desc) && Fits(d.desc, MAX_PREDEFINED) && !BareDup(d.desc)
    modifies d
    ensures d.Sized() && Cached(d)
    ensures n == |Encoding(d.desc, MAX_PREDEFINED).bytes|
  {
    EncodingSize(d.desc, MAX_PREDEFINED);
    if d.comb == Named {
      return 2 * INT_SIZE;
    }
    if d.packed == null {
      var buf := GetPackDescription(d);
    }
    n := d.total;
  }
}
