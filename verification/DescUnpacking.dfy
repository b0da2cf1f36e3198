/** Rebuilding a datatype from the bytes of its description. */
module DescUnpacking {
  import opened DescFormat
  import opened DescPacking
  import opened DescParsing
  import opened DescTransfer

  method ReadInt(buf: array<Byte>, pos: nat) returns (x: Int32)
    requires pos + INT_SIZE <= buf.Length
    ensures x == IntAt(buf[..], pos)
  {
    x := Int32At(buf[..], pos);
  }

  method ReadInts(buf: array<Byte>, pos: nat, n: nat) returns (xs: seq<Int32>)
    requires pos + INT_SIZE * n <= buf.Length
    ensures xs == IntsAt(buf[..], pos, n)
  {
    xs := [];
    var i := 0;
    while i < n
      invariant 0 <= i <= n && xs == IntsAt(buf[..], pos, i)
    {
      var x := ReadInt(buf, pos + INT_SIZE * i);
      xs := xs + [x];
      i := i + 1;
    }
  }

  method ReadAints(buf: array<Byte>, pos: nat, n: nat) returns (xs: seq<Int64>)
    requires pos + AINT_SIZE * n <= buf.Length
    ensures xs == AintsAt(buf[..], pos, n)
  {
    xs := [];
    var i := 0;
    while i < n
      invariant 0 <= i <= n && xs == AintsAt(buf[..], pos, i)
    {
      xs := xs + [Int64At(buf[..], pos + AINT_SIZE * i)];
      i := i + 1;
    }
  }

  /** A new datatype from the arrays of a description, null for the Fortran 90 ones. */
  method CreateFromArgs(c: Combiner, ints: seq<Int32>, aints: seq<Int64>, kids: seq<Datatype>) returns (r: Datatype?)
    requires c != Dup && Shape(c, ints, |aints|, |kids|)
    requires forall k :: 0 <= k < |kids| ==> kids[k].Means() && kids[k].Sized()
    ensures r == null <==> IsF90(c)
    ensures r != null ==> r.Means() && r.Sized() && r.desc == Made(Plain(c), ints, aints, Descs(kids))
  {
    if IsF90(c) {
      return null;
    }
    RecordedLocated(c, ints, |aints|, |kids|);
    PlainShape(c, ints, |aints|, |kids|);
    hide Shape, Pointers, Recorded, Located, Plain;
    r := new Datatype.SetArgs(Located(c, ints, |aints|, |kids|), aints, kids, Plain(c));
  }

  lemma {:induction false} PlainShape(c: Combiner, ints: seq<Int32>, aints: nat, kids: nat)
    requires Shape(c, ints, aints, kids)
    ensures Shape(Plain(c), ints, aints, kids)
  {
  }

  ghost predicate Table(basic: seq<Datatype>) {
    |basic| == MAX_PREDEFINED && forall k :: 0 <= k < |basic| ==> basic[k].Means() && basic[k].desc == Leaf(k)
  }

  /** Builds exactly what the bytes describe, and returns the place behind them. */
  method CreateFromPackedDescription(buf: array<Byte>, pos: nat, basic: seq<Datatype>) returns (r: Datatype?, end: nat)
    requires Table(basic) && !Parse(buf[..], pos).Malformed?
    ensures r == null <==> Parse(buf[..], pos).Unsupported?
    ensures r != null ==> r.Means() && r.Sized() && Parse(buf[..], pos) == Done(r.desc, end)
    decreases buf.Length - pos, 0
  {
    var createType := ReadInt(buf, pos);
    if createType == Code(Named) {
      var dataId := ReadInt(buf, pos + INT_SIZE);
      return basic[dataId], pos + 2 * INT_SIZE;
    }
    var ci := ReadInt(buf, pos + INT_SIZE);
    var ca := ReadInt(buf, pos + 2 * INT_SIZE);
    var cd := ReadInt(buf, pos + 3 * INT_SIZE);
    hide IntAt, ParseMade, FromCode;
    r, end := CreateMade(buf, pos + 4 * INT_SIZE, FromCode(createType), ci, ca, cd, basic);
  }

  method CreateMade(buf: array<Byte>, pos: nat, c: Combiner, ci: nat, ca: nat, cd: nat, basic: seq<Datatype>)
    returns (r: Datatype?, end: nat)
    requires Table(basic) && c != Dup && pos + AINT_SIZE * ca + INT_SIZE * (cd + ci) <= buf.Length
    requires !ParseMade(buf[..], pos, c, ci, ca, cd).Malformed?
    ensures r == null <==> ParseMade(buf[..], pos, c, ci, ca, cd).Unsupported?
    ensures r != null ==> r.Means() && r.Sized() && ParseMade(buf[..], pos, c, ci, ca, cd) == Done(r.desc, end)
    decreases buf.Length - pos, 4
  {
    hide *;
    Constants();
    MadeParts(buf[..], pos, c, ci, ca, cd);
    var position := pos + AINT_SIZE * ca;
    var aints := ReadAints(buf, pos, ca);
    var ints := ReadInts(buf, position + INT_SIZE * cd, ci);
    var kids, cursor := CreateKids(buf, position, cd, position + INT_SIZE * (cd + ci), basic);
    if |kids| < cd {
      return null, pos;
    }
    r := CreateFromArgs(c, ints, aints, kids);
    end := cursor;
  }

  lemma {:induction false} MadeParts(s: seq<Byte>, pos: nat, c: Combiner, ci: nat, ca: nat, cd: nat)
    requires pos + AINT_SIZE * ca + INT_SIZE * (cd + ci) <= |s|
    requires !ParseMade(s, pos, c, ci, ca, cd).Malformed?
    ensures
      var ids := pos + AINT_SIZE * ca;
      var kids := ParseKids(s, ids, cd, ids + INT_SIZE * (cd + ci));
      && Shape(c, IntsAt(s, ids + INT_SIZE * cd, ci), ca, cd) && !kids.KidsMalformed?
      && ParseMade(s, pos, c, ci, ca, cd)
         == if kids.KidsUnsupported? || IsF90(c) then Unsupported
            else Done(Made(Plain(c), IntsAt(s, ids + INT_SIZE * cd, ci), AintsAt(s, pos, ca), kids.kids), kids.end)
  {
    hide ParseKids, Shape, IntsAt, AintsAt, Plain, IsF90;
  }

  /** The children in order; fewer than asked for if one could not be rebuilt. */
  method CreateKids(buf: array<Byte>, ids: nat, n: nat, cursor: nat, basic: seq<Datatype>) returns (kids: seq<Datatype>, end: nat)
    requires Table(basic) && ids + INT_SIZE * n <= cursor <= buf.Length
    requires !ParseKids(buf[..], ids, n, cursor).KidsMalformed?
    ensures |kids| <= n && (|kids| < n <==> ParseKids(buf[..], ids, n, cursor).KidsUnsupported?)
    ensures |kids| == n ==> ParseKids(buf[..], ids, n, cursor) == KidsDone(Descs(kids), end)
    ensures forall k :: 0 <= k < |kids| ==> kids[k].Means() && kids[k].Sized()
    decreases buf.Length - cursor, 3
  {
    ghost var s := buf[..];
    kids, end := [], cursor;
    assert Built(s, ids, 0, cursor, kids, end);
    hide ParseKids, Built;
    var i := 0;
    while i < n
      invariant 0 <= i <= n
      invariant Built(s, ids, i, cursor, kids, end)
    {
      var more, next := AddKid(buf, ids, i, n, cursor, kids, end, basic);
      if |more| == |kids| {
        BuiltMeans(s, ids, i, cursor, kids, end);
        return;
      }
      kids, end, i := more, next, i + 1;
    }
    BuiltMeans(s, ids, n, cursor, kids, end);
  }

  /** The first i children have been rebuilt. */
  ghost predicate Built(s: seq<Byte>, ids: nat, i: nat, cursor: nat, kids: seq<Datatype>, end: nat)
    requires ids + INT_SIZE * i <= cursor <= |s|
    reads kids
  {
    && |kids| == i && cursor <= end <= |s| && ParseKids(s, ids, i, cursor) == KidsDone(Descs(kids), end)
    && forall k :: 0 <= k < |kids| ==> kids[k].Means() && kids[k].Sized()
  }

  lemma {:induction false} BuiltMeans(s: seq<Byte>, ids: nat, i: nat, cursor: nat, kids: seq<Datatype>, end: nat)
    requires ids + INT_SIZE * i <= cursor <= |s| && Built(s, ids, i, cursor, kids, end)
    ensures |kids| == i && ParseKids(s, ids, i, cursor) == KidsDone(Descs(kids), end)
    ensures forall k :: 0 <= k < |kids| ==> kids[k].Means() && kids[k].Sized()
  {
  }

  /** One more child, or the same children if it could not be rebuilt. */
  method AddKid(buf: array<Byte>, ids: nat, i: nat, n: nat, cursor: nat, kids: seq<Datatype>, end: nat, basic: seq<Datatype>)
    returns (more: seq<Datatype>, next: nat)
    requires Table(basic) && i < n && ids + INT_SIZE * n <= cursor <= buf.Length
    requires Built(buf[..], ids, i, cursor, kids, end) && !ParseKids(buf[..], ids, n, cursor).KidsMalformed?
    ensures |more| == |kids| ==> ParseKids(buf[..], ids, n, cursor).KidsUnsupported?
    ensures |more| != |kids| ==> Built(buf[..], ids, i + 1, cursor, more, next)
    decreases buf.Length - cursor, 2
  {
    BuiltMeans(buf[..], ids, i, cursor, kids, end);
    KidStep(buf[..], ids, i, n, cursor, Descs(kids), end);
    hide Parse, ParseKids, KidAt, IntAt, Table, Built, Descs;
    var kid;
    kid, next := CreateKid(buf, ids + INT_SIZE * i, end, basic);
    if kid == null {
      return kids, next;
    }
    BuiltMore(buf[..], ids, i, cursor, kids, end, kid, next);
    more := kids + [kid];
  }

  lemma {:induction false} BuiltMore(
    s: seq<Byte>, ids: nat, i: nat, cursor: nat, kids: seq<Datatype>, end: nat, kid: Datatype, next: nat)
    requires ids + INT_SIZE * (i + 1) <= cursor <= |s| && Built(s, ids, i, cursor, kids, end) && kid.Means() && kid.Sized()
    requires ParseKids(s, ids, i + 1, cursor) == KidsDone(Descs(kids) + [kid.desc], next) && cursor <= next <= |s|
    ensures Built(s, ids, i + 1, cursor, kids + [kid], next)
  {
    hide ParseKids;
    assert Descs(kids + [kid]) == Descs(kids) + [kid.desc];
  }

  /** The meaning of the id at a place, with the cursor where the next description would be. */
  function KidAt(s: seq<Byte>, place: nat, cursor: nat): Parsed
    requires place + INT_SIZE <= |s| && cursor <= |s|
  {
    var id := IntAt(s, place);
    if id < 0 then Malformed else if id < MAX_PREDEFINED then Done(Leaf(id), cursor) else Parse(s, cursor)
  }

  lemma {:induction false} KidParts(s: seq<Byte>, ids: nat, i: nat, cursor: nat)
    requires ids + INT_SIZE * (i + 1) <= cursor <= |s| && ParseKids(s, ids, i, cursor).KidsDone?
    ensures
      var before := ParseKids(s, ids, i, cursor);
      var kid := KidAt(s, ids + INT_SIZE * i, before.end);
      && (kid.Done? ==> cursor <= before.end <= kid.end <= |s|)
      && ParseKids(s, ids, i + 1, cursor)
         == match kid
            case Malformed => KidsMalformed
            case Unsupported => KidsUnsupported
            case Done(d, end) => KidsDone(before.kids + [d], end)
  {
    hide Parse, IntAt;
  }

  lemma {:induction false} KidStep(s: seq<Byte>, ids: nat, i: nat, n: nat, cursor: nat, ds: seq<Desc>, end: nat)
    requires i < n && ids + INT_SIZE * n <= cursor <= |s|
    requires ParseKids(s, ids, i, cursor) == KidsDone(ds, end) && !ParseKids(s, ids, n, cursor).KidsMalformed?
    ensures cursor <= end <= |s| && ids + INT_SIZE * i + INT_SIZE <= |s|
    ensures
      var kid := KidAt(s, ids + INT_SIZE * i, end);
      && !kid.Malformed?
      && (kid.Unsupported? ==> ParseKids(s, ids, n, cursor).KidsUnsupported?)
      && (kid.Done? ==> ParseKids(s, ids, i + 1, cursor) == KidsDone(ds + [kid.desc], kid.end) && cursor <= kid.end <= |s|)
  {
    KidsStop(s, ids, i + 1, n, cursor);
    KidParts(s, ids, i, cursor);
    hide Parse, IntAt, KidAt, ParseKids;
  }

  method CreateKid(buf: array<Byte>, place: nat, cursor: nat, basic: seq<Datatype>) returns (kid: Datatype?, end: nat)
    requires Table(basic) && place + INT_SIZE <= buf.Length && cursor <= buf.Length
    requires !KidAt(buf[..], place, cursor).Malformed?
    ensures kid == null <==> KidAt(buf[..], place, cursor).Unsupported?
    ensures kid != null ==> kid.Means() && kid.Sized() && KidAt(buf[..], place, cursor) == Done(kid.desc, end)
    decreases buf.Length - cursor, 1
  {
    hide Parse, IntAt;
    var dataId := ReadInt(buf, place);
    if dataId < MAX_PREDEFINED {
      return basic[dataId], cursor;
    }
    kid, end := CreateFromPackedDescription(buf, cursor, basic);
  }

  /** The first child that fails decides. */
  lemma {:induction false} KidsStop(s: seq<Byte>, ids: nat, i: nat, n: nat, cursor: nat)
    requires i <= n && ids + INT_SIZE * n <= cursor <= |s|
    ensures !ParseKids(s, ids, i, cursor).KidsDone? ==> ParseKids(s, ids, n, cursor) == ParseKids(s, ids, i, cursor)
  {
    hide Parse;
    if i < n { KidsStop(s, ids, i, n - 1, cursor); }
  }

  /** From a datatype on one process to its copy on another: the same description up to
      duplicates and the Fortran integer combiners, or none if a Fortran 90 datatype is inside. */
  method Transfer(d: Datatype, basic: seq<Datatype>) returns (r: Datatype?)
    requires d.Means() && d.Sized() && Cached(d) && Table(basic)
    requires WellFormed(d.desc) && Fits(d.desc, MAX_PREDEFINED) && !BareDup(d.desc)
    modifies d
    ensures r == null <==> HasF90(d.desc)
    ensures r != null ==> r.Means() && r.Sized() && r.desc == Normal(d.desc)
  {
    var buf := GetPackDescription(d);
    EncodingSize(d.desc, MAX_PREDEFINED);
    ghost var s := buf[..];
    assert Holds(s, 0, Encoding(d.desc, MAX_PREDEFINED).bytes) by {
      assert s[0..Size(d.desc)] == buf[..Size(d.desc)];
    }
    RoundTrip(d.desc, MAX_PREDEFINED, s, 0);
    var end;
    r, end := CreateFromPackedDescription(buf, 0, basic);
  }
}
