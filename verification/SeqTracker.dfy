/** The sequence tracker: a list of ranges of 32-bit ids that have been seen, with a
    cursor at the range used last, from which every search starts. */
module SeqTracker {

  const MAX := 0xFFFF_FFFF

  type Id = x: int | 0 <= x <= 0xFFFF_FFFF

  datatype Range = Range(low: Id, high: Id)

  /** The list and the cursor; SENTINEL stands for the end of the list in both directions. */
  datatype State = State(ranges: seq<Range>, current: int)

  const SENTINEL := -1

  function Plus(x: Id): Id {
    if x == MAX then 0 else x + 1
  }

  function Minus(x: Id): Id {
    if x == 0 then MAX else x - 1
  }

  function NextOf(rs: seq<Range>, i: int): int {
    if i + 1 < |rs| then i + 1 else SENTINEL
  }

  function PrevOf(i: int): int {
    i - 1
  }

  /** Sorted, disjoint, and with a gap between any two ranges. */
  ghost predicate Ordered(rs: seq<Range>) {
    && (forall i :: 0 <= i < |rs| ==> rs[i].low <= rs[i].high)
    && (forall i, j :: 0 <= i < j < |rs| ==> rs[i].high + 1 < rs[j].low)
  }

  ghost predicate Has(rs: seq<Range>, id: int) {
    exists i :: 0 <= i < |rs| && rs[i].low <= id <= rs[i].high
  }

  /** The cursor is the sentinel only when the list is empty. */
  ghost predicate Valid(s: State) {
    Ordered(s.ranges) && if s.ranges == [] then s.current == SENTINEL else 0 <= s.current < |s.ranges|
  }

  // ----- inserting -----

  function Inserted(rs: seq<Range>, at: int, id: Id): (s: State)
    requires 0 <= at <= |rs|
  {
    State(rs[..at] + [Range(id, id)] + rs[at..], at)
  }

  function Removed(rs: seq<Range>, at: int): seq<Range>
    requires 0 <= at < |rs|
  {
    rs[..at] + rs[at + 1..]
  }

  /** The id is one above the range at item. */
  function GrownUp(rs: seq<Range>, item: int, id: Id): State
    requires 0 <= item < |rs|
  {
    var next := NextOf(rs, item);
    if next != SENTINEL && rs[next].low == Plus(id) then
      State(Removed(rs[item := rs[item].(high := rs[next].high)], next), item)
    else State(rs[item := rs[item].(high := id)], item)
  }

  /** The id is one below the range at item. */
  function GrownDown(rs: seq<Range>, item: int, id: Id): State
    requires 0 <= item < |rs|
  {
    var prev := PrevOf(item);
    if prev != SENTINEL && rs[prev].high == Minus(id) then
      State(Removed(rs[item := rs[item].(low := rs[prev].low)], prev), prev)
    else State(rs[item := rs[item].(low := id)], item)
  }

  /** The search from item on, in a direction once it has one (1 is next, -1 is
      previous), and what it does where it ends. */
  function Walk(rs: seq<Range>, item: int, direction: int, id: Id): State
    requires SENTINEL <= item < |rs|
    decreases if direction == 0 then |rs| + 2 else if item == SENTINEL then 0 else if direction == 1 then |rs| - item else item + 1
  {
    if item == SENTINEL then
      if direction == -1 then Inserted(rs, 0, id) else Inserted(rs, |rs|, id)
    else
      var r := rs[item];
      if r.high >= id && r.low <= id then State(rs, item)
      else if Plus(r.high) == id then GrownUp(rs, item, id)
      else if Minus(r.low) == id then GrownDown(rs, item, id)
      else if id > r.high then
        if direction == -1 then Inserted(rs, item + 1, id)
        else if direction == 1 || direction == 0 then Walk(rs, NextOf(rs, item), 1, id)
        else State(rs, item)
      else if id < r.low then
        if direction == 1 then Inserted(rs, item, id)
        else if direction == -1 || direction == 0 then Walk(rs, PrevOf(item), -1, id)
        else State(rs, item)
      else State(rs, item)
  }

  /** The search is at a range whose bound wraps around to the id. */
  predicate Wraps(s: State, id: Id) {
    && 0 <= s.current < |s.ranges|
    && var r := s.ranges[s.current];
      || (id == 0 && r.high == MAX && r.low > 0)
      || (id == MAX && r.low == 0 && r.high < MAX - 1)
  }

  /** A result that is a set with the id added, and a cursor at the id. */
  ghost predicate Adds(rs: seq<Range>, id: Id, t: State) {
    && Valid(t) && t.ranges != [] && t.ranges[t.current].low <= id <= t.ranges[t.current].high
    && forall x :: Has(t.ranges, x) <==> Has(rs, x) || x == id
  }

  lemma {:induction false} InsertedAdds(rs: seq<Range>, at: int, id: Id)
    requires Ordered(rs) && 0 <= at <= |rs|
    requires forall i :: 0 <= i < at ==> rs[i].high + 1 < id
    requires forall i :: at <= i < |rs| ==> id + 1 < rs[i].low
    ensures Adds(rs, id, Inserted(rs, at, id))
  {
    var t := Inserted(rs, at, id).ranges;
    assert forall i :: 0 <= i < |t| ==> t[i] == if i < at then rs[i] else if i == at then Range(id, id) else rs[i - 1];
    assert Ordered(t);
    hide Ordered, Inserted;
    forall x ensures Has(t, x) <==> Has(rs, x) || x == id {
      if i :| 0 <= i < |rs| && rs[i].low <= x <= rs[i].high {
        assert t[if i < at then i else i + 1] == rs[i];
      }
      if x == id { assert t[at].low <= x <= t[at].high; }
    }
  }

  function Extended(rs: seq<Range>, i: nat, r: Range): (t: seq<Range>)
    requires i < |rs|
    ensures |t| == |rs| && forall k :: 0 <= k < |rs| ==> t[k] == if k == i then r else rs[k]
  {
    rs[i := r]
  }

  /** A range and the next one made into one. */
  function Joined(rs: seq<Range>, i: nat): (t: seq<Range>)
    requires i + 1 < |rs|
    ensures |t| == |rs| - 1
    ensures forall k :: 0 <= k < |t| ==> t[k] == if k < i then rs[k] else if k == i then Range(rs[i].low, rs[i + 1].high) else rs[k + 1]
  {
    rs[..i] + [Range(rs[i].low, rs[i + 1].high)] + rs[i + 2..]
  }

  lemma {:induction false} ExtendedAdds(rs: seq<Range>, i: nat, r: Range, id: Id)
    requires Ordered(rs) && i < |rs| && (r == Range(rs[i].low, id) || r == Range(id, rs[i].high))
    requires if r.high == id then rs[i].high + 1 == id else rs[i].low - 1 == id
    requires forall k :: 0 <= k < i ==> rs[k].high + 1 < r.low
    requires forall k :: i < k < |rs| ==> r.high + 1 < rs[k].low
    ensures Adds(rs, id, State(Extended(rs, i, r), i))
  {
    var t := Extended(rs, i, r);
    forall x ensures Has(t, x) <==> Has(rs, x) || x == id {
      if k :| 0 <= k < |rs| && rs[k].low <= x <= rs[k].high { assert t[k].low <= x <= t[k].high; }
      if x == id { assert t[i].low <= x <= t[i].high; }
      if k :| 0 <= k < |t| && t[k].low <= x <= t[k].high { assert x == id || rs[k].low <= x <= rs[k].high; }
    }
  }

  lemma {:induction false} JoinedAdds(rs: seq<Range>, i: nat, id: Id)
    requires Ordered(rs) && i + 1 < |rs| && rs[i].high + 1 == id == rs[i + 1].low - 1
    ensures Adds(rs, id, State(Joined(rs, i), i))
  {
    var t := Joined(rs, i);
    JoinedOrdered(rs, i);
    forall x ensures Has(t, x) <==> Has(rs, x) || x == id { JoinedHas(rs, i, id, x); }
    hide Ordered, Joined;
    assert t[i].low <= id <= t[i].high;
  }

  lemma {:induction false} JoinedHas(rs: seq<Range>, i: nat, id: Id, x: int)
    requires Ordered(rs) && i + 1 < |rs| && rs[i].high + 1 == id == rs[i + 1].low - 1
    ensures Has(Joined(rs, i), x) <==> Has(rs, x) || x == id
  {
    var t := Joined(rs, i);
    assert rs[i].low <= rs[i].high && rs[i + 1].low <= rs[i + 1].high;
    hide Ordered, Joined;
    if k :| 0 <= k < |rs| && rs[k].low <= x <= rs[k].high {
      var j := if k <= i then k else k - 1;
      assert t[j].low <= x <= t[j].high;
    }
    if x == id { assert t[i].low <= x <= t[i].high; }
    if j :| 0 <= j < |t| && t[j].low <= x <= t[j].high {
      var k := if j < i || (j == i && x <= rs[i].high) then j else j + 1;
      assert x == id || rs[k].low <= x <= rs[k].high;
    }
  }

  lemma {:induction false} JoinedOrdered(rs: seq<Range>, i: nat)
    requires Ordered(rs) && i + 1 < |rs|
    ensures Ordered(Joined(rs, i)) && rs[i].low <= rs[i + 1].high
  {
    var t := Joined(rs, i);
    assert rs[i].low <= rs[i].high < rs[i + 1].low <= rs[i + 1].high;
    forall j, k | 0 <= j < k < |t| ensures t[j].high + 1 < t[k].low {
      assert t[j].high == rs[if j < i then j else j + 1].high;
      assert t[k].low == rs[if k <= i then k else k + 1].low;
    }
  }

  lemma {:induction false} GrownUpAdds(rs: seq<Range>, item: int, id: Id)
    requires Ordered(rs) && 0 <= item < |rs| && rs[item].high + 1 == id
    ensures Adds(rs, id, GrownUp(rs, item, id))
  {
    var next := NextOf(rs, item);
    if next != SENTINEL && rs[next].low == Plus(id) {
      JoinedAdds(rs, item, id);
      assert GrownUp(rs, item, id).ranges == Joined(rs, item);
    } else {
      assert next != SENTINEL ==> rs[item].high + 1 < rs[next].low;
      ExtendedAdds(rs, item, Range(rs[item].low, id), id);
    }
  }

  lemma {:induction false} GrownDownAdds(rs: seq<Range>, item: int, id: Id)
    requires Ordered(rs) && 0 <= item < |rs| && rs[item].low - 1 == id
    ensures Adds(rs, id, GrownDown(rs, item, id))
  {
    var prev := PrevOf(item);
    if prev != SENTINEL && rs[prev].high == Minus(id) {
      assert rs[prev].high + 1 < rs[item].low;
      JoinedAdds(rs, prev, id);
      assert GrownDown(rs, item, id).ranges == Joined(rs, prev);
    } else {
      assert prev != SENTINEL ==> rs[prev].high + 1 < rs[item].low;
      ExtendedAdds(rs, item, Range(id, rs[item].high), id);
    }
  }

  /** The id is behind everything the search has passed. */
  ghost predicate Passed(rs: seq<Range>, item: int, direction: int, id: Id) {
    && SENTINEL <= item < |rs| && direction in {-1, 0, 1}
    && (direction == 0 ==> (item == SENTINEL ==> rs == []))
    && (direction == 1 ==> forall i :: 0 <= i < |rs| && (item == SENTINEL || i < item) ==> rs[i].high + 1 < id)
    && (direction == 1 ==> item != 0 && rs != [])
    && (direction == -1 ==> forall i :: item < i < |rs| ==> id + 1 < rs[i].low)
    && (direction == -1 ==> item + 1 < |rs|)
  }

  lemma {:induction false} WalkAdds(rs: seq<Range>, item: int, direction: int, id: Id)
    requires Ordered(rs) && Passed(rs, item, direction, id)
    requires direction == 0 ==> !Wraps(State(rs, item), id)
    ensures Adds(rs, id, Walk(rs, item, direction, id))
    decreases if direction == 0 then |rs| + 2 else if item == SENTINEL then 0 else if direction == 1 then |rs| - item else item + 1
  {
    hide Adds, GrownUp, GrownDown, Inserted;
    if item == SENTINEL {
      InsertedAdds(rs, if direction == -1 then 0 else |rs|, id);
    } else {
      var r := rs[item];
      if r.low <= id <= r.high {
        PresentAdds(rs, item, id);
      } else if Plus(r.high) == id {
        assert direction == -1 ==> item + 1 < |rs| && id + 1 < rs[item + 1].low;
        assert direction == 1 ==> rs[item - 1].high + 1 < id;
        GrownUpAdds(rs, item, id);
      } else if Minus(r.low) == id {
        assert direction == -1 ==> item + 1 < |rs| && id + 1 < rs[item + 1].low;
        assert direction == 1 ==> rs[item - 1].high + 1 < id;
        GrownDownAdds(rs, item, id);
      } else if id > r.high {
        if direction == -1 { InsertedAdds(rs, item + 1, id); } else { WalkAdds(rs, NextOf(rs, item), 1, id); }
      } else {
        if direction == 1 { InsertedAdds(rs, item, id); } else { WalkAdds(rs, PrevOf(item), -1, id); }
      }
    }
  }

  lemma {:induction false} PresentAdds(rs: seq<Range>, item: int, id: Id)
    requires Ordered(rs) && 0 <= item < |rs| && rs[item].low <= id <= rs[item].high
    ensures Adds(rs, id, State(rs, item))
  {
  }

  /** An insertion adds the id to the set, exactly if no bound wraps around to it at the
      cursor; otherwise it leaves a range with its bounds the wrong way round. */
  lemma {:induction false} InsertExact(s: State, id: Id)
    requires Valid(s)
    ensures Adds(s.ranges, id, Walk(s.ranges, s.current, 0, id)) <==> !Wraps(s, id)
    ensures Valid(Walk(s.ranges, s.current, 0, id)) <==> !Wraps(s, id)
  {
    if Wraps(s, id) {
      WrapsBreaks(s, id);
    } else {
      WalkAdds(s.ranges, s.current, 0, id);
    }
  }

  lemma {:induction false} WrapsBreaks(s: State, id: Id)
    requires Valid(s) && Wraps(s, id)
    ensures !Ordered(Walk(s.ranges, s.current, 0, id).ranges)
  {
    var rs, item := s.ranges, s.current;
    var t := Walk(rs, item, 0, id);
    if id == 0 {
      assert item + 1 < |rs| ==> rs[item].high + 1 < rs[item + 1].low;
      assert t == GrownUp(rs, item, id) && t.ranges[item] == Range(rs[item].low, 0);
    } else {
      var before := if item > 0 then item - 1 else 0;
      assert rs[before].low <= rs[before].high;
      assert t == GrownDown(rs, item, id) && t.ranges[item] == Range(MAX, rs[item].high);
    }
  }

  // ----- looking up -----

  function Search(rs: seq<Range>, item: int, direction: int, id: Id): (r: int)
    requires SENTINEL <= item < |rs|
    ensures SENTINEL <= r < |rs|
    decreases if direction == 0 then |rs| + 2 else if item == SENTINEL then 0 else if direction == 1 then |rs| - item else item + 1
  {
    if item == SENTINEL then SENTINEL
    else if rs[item].high >= id && rs[item].low <= id then item
    else if id > rs[item].high && direction != -1 then
      if direction == 1 || direction == 0 then Search(rs, NextOf(rs, item), 1, id) else SENTINEL
    else if id < rs[item].low && direction != 1 then
      if direction == -1 || direction == 0 then Search(rs, PrevOf(item), -1, id) else SENTINEL
    else SENTINEL
  }

  ghost predicate Beyond(rs: seq<Range>, item: int, direction: int, id: Id) {
    && SENTINEL <= item < |rs| && direction in {-1, 0, 1}
    && (direction == 0 ==> (item == SENTINEL ==> rs == []))
    && (direction == 1 ==> forall i :: 0 <= i < |rs| && (item == SENTINEL || i < item) ==> rs[i].high < id)
    && (direction == -1 ==> forall i :: item < i < |rs| ==> id < rs[i].low)
  }

  lemma {:induction false} SearchMeaning(rs: seq<Range>, item: int, direction: int, id: Id)
    requires Ordered(rs) && Beyond(rs, item, direction, id)
    ensures var r := Search(rs, item, direction, id); if r == SENTINEL then !Has(rs, id) else rs[r].low <= id <= rs[r].high
    decreases if direction == 0 then |rs| + 2 else if item == SENTINEL then 0 else if direction == 1 then |rs| - item else item + 1
  {
    if item != SENTINEL && !(rs[item].low <= id <= rs[item].high) {
      if id > rs[item].high && direction != -1 {
        SearchMeaning(rs, NextOf(rs, item), 1, id);
      } else if id < rs[item].low && direction != 1 {
        SearchMeaning(rs, PrevOf(item), -1, id);
      }
    }
  }

  // ----- runs of insertions -----

  function InsertAll(ids: seq<Id>): State {
    if ids == [] then State([], SENTINEL)
    else
      var before := InsertAll(ids[..|ids| - 1]);
      if SENTINEL <= before.current < |before.ranges| then Walk(before.ranges, before.current, 0, ids[|ids| - 1]) else before
  }

  /** After any insertions of ids below the largest, the list is the set of exactly these. */
  lemma {:induction false} TracksSet(ids: seq<Id>)
    requires forall i :: 0 <= i < |ids| ==> ids[i] < MAX
    ensures Valid(InsertAll(ids))
    ensures forall x :: Has(InsertAll(ids).ranges, x) <==> x in ids
  {
    if ids == [] {
      assert !Has([], 0);
    } else {
      var init, id := ids[..|ids| - 1], ids[|ids| - 1];
      assert ids == init + [id];
      TracksSet(init);
      var s := InsertAll(init);
      assert 0 <= s.current < |s.ranges| && s.ranges[s.current].high == MAX ==> Has(s.ranges, MAX);
      assert !Wraps(s, id);
      InsertExact(s, id);
      hide Walk, Has, Valid, Wraps;
      assert InsertAll(ids) == Walk(s.ranges, s.current, 0, id);
    }
  }

  /** The largest id and then 0: the one range ends before it begins, and holds neither. */
  lemma {:induction false} WrapsAtTheTop()
    ensures InsertAll([MAX, 0]).ranges == [Range(MAX, 0)]
    ensures !Ordered(InsertAll([MAX, 0]).ranges) && forall x :: !Has(InsertAll([MAX, 0]).ranges, x)
  {
    var ids: seq<Id> := [MAX, 0];
    var one := Range(MAX, MAX);
    assert ids[..1] == [MAX] && ids[..1][..0] == [];
    assert InsertAll([]) == State([], SENTINEL);
    assert InsertAll(ids[..1]) == Walk([], SENTINEL, 0, MAX) == Inserted([], 0, MAX);
    assert InsertAll(ids[..1]) == State([one], 0);
    assert InsertAll(ids) == Walk([one], 0, 0, 0) == GrownUp([one], 0, 0);
    assert [one][0 := Range(MAX, 0)] == [Range(MAX, 0)];
    assert InsertAll(ids).ranges[0] == Range(MAX, 0);
  }

  /** A duplicate check after any such insertions finds exactly the inserted ids, wherever
      its search starts. */
  lemma {:induction false} FindsInserted(ids: seq<Id>, from: int, id: Id)
    requires forall i :: 0 <= i < |ids| ==> ids[i] < MAX
    requires var rs := InsertAll(ids).ranges; if rs == [] then from == SENTINEL else 0 <= from < |rs|
    ensures Search(InsertAll(ids).ranges, from, 0, id) != SENTINEL <==> id in ids
  {
    TracksSet(ids);
    var rs := InsertAll(ids).ranges;
    SearchMeaning(rs, from, 0, id);
    var r := Search(rs, from, 0, id);
    if r != SENTINEL { assert Has(rs, id); }
  }

  // ----- the object -----

  class Tracker {
    var seqIds: seq<Range>
    var current: int

    function Value(): State
      reads this
    {
      State(seqIds, current)
    }

    constructor ()
      ensures Value() == State([], SENTINEL)
    {
      seqIds, current := [], SENTINEL;
    }

    method CheckDuplicate(id: Id) returns (found: bool)
      requires Valid(Value())
      modifies this`current
      ensures Valid(Value()) && found == Has(seqIds, id)
      ensures current == if found then Search(seqIds, old(current), 0, id) else old(current)
    {
      SearchMeaning(seqIds, current, 0, id);
      var item, direction := current, 0;
      while item != SENTINEL
        invariant SENTINEL <= item < |seqIds| && direction in {-1, 0, 1} && current == old(current)
        invariant Search(seqIds, item, direction, id) == Search(seqIds, old(current), 0, id)
        decreases if direction == 0 then |seqIds| + 2 else if item == SENTINEL then 0 else if direction == 1 then |seqIds| - item else item + 1
      {
        var r := seqIds[item];
        if r.high >= id && r.low <= id {
          current := item;
          return true;
        } else if id > r.high && direction != -1 {
          direction := 1;
          item := NextOf(seqIds, item);
        } else if id < r.low && direction != 1 {
          direction := -1;
          item := PrevOf(item);
        } else {
          return false;
        }
      }
      return false;
    }

    method Insert(id: Id)
      requires Valid(Value())
      modifies this
      ensures Value() == Walk(old(seqIds), old(current), 0, id)
      ensures Adds(old(seqIds), id, Value()) <==> !Wraps(old(Value()), id)
    {
      InsertExact(Value(), id);
      assert SENTINEL <= current < |seqIds|;
      hide Adds, Wraps, Valid, Walk;
      WalkFromCursor(id);
    }

    /** The search and what it does where it ends. */
    method WalkFromCursor(id: Id)
      requires SENTINEL <= current < |seqIds|
      modifies this
      ensures Value() == Walk(old(seqIds), old(current), 0, id)
    {
      ghost var start := Value();
      hide GrownUp, GrownDown, Inserted;
      var item, direction := current, 0;
      while item != SENTINEL
        invariant SENTINEL <= item < |seqIds| && direction in {-1, 0, 1} && Value() == start
        invariant Walk(seqIds, item, direction, id) == Walk(start.ranges, start.current, 0, id)
        decreases if direction == 0 then |seqIds| + 2 else if item == SENTINEL then 0 else if direction == 1 then |seqIds| - item else item + 1
      {
        var r := seqIds[item];
        if r.high >= id && r.low <= id {
          current := item;
          return;
        } else if Plus(r.high) == id {
          GrowUp(item, id);
          return;
        } else if Minus(r.low) == id {
          GrowDown(item, id);
          return;
        } else if id > r.high {
          if direction == -1 {
            Place(item + 1, id);
            return;
          }
          direction := 1;
          item := NextOf(seqIds, item);
        } else {
          if direction == 1 {
            Place(item, id);
            return;
          }
          direction := -1;
          item := PrevOf(item);
        }
      }
      Place(if direction == -1 then 0 else |seqIds|, id);
    }

    /** A new range, and the cursor at it. */
    method Place(at: nat, id: Id)
      requires at <= |seqIds|
      modifies this
      ensures Value() == Inserted(old(seqIds), at, id)
    {
      seqIds := seqIds[..at] + [Range(id, id)] + seqIds[at..];
      current := at;
    }

    /** Extends a range upwards, up to the next one if they now touch. */
    method GrowUp(item: nat, id: Id)
      requires item < |seqIds|
      modifies this
      ensures Value() == GrownUp(old(seqIds), item, id)
    {
      var next := NextOf(seqIds, item);
      if next != SENTINEL && seqIds[next].low == Plus(id) {
        seqIds := seqIds[item := seqIds[item].(high := seqIds[next].high)];
        seqIds := seqIds[..next] + seqIds[next + 1..];
      } else {
        seqIds := seqIds[item := seqIds[item].(high := id)];
      }
      current := item;
    }

    method GrowDown(item: nat, id: Id)
      requires item < |seqIds|
      modifies this
      ensures Value() == GrownDown(old(seqIds), item, id)
    {
      var prev := PrevOf(item);
      if prev != SENTINEL && seqIds[prev].high == Minus(id) {
        seqIds := seqIds[item := seqIds[item].(low := seqIds[prev].low)];
        seqIds := seqIds[..prev] + seqIds[prev + 1..];
        current := prev;
      } else {
        seqIds := seqIds[item := seqIds[item].(low := id)];
        current := item;
      }
    }

    /** Appends the ranges of another tracker, and takes over its cursor if it has one. */
    method CopyFrom(src: Tracker)
      requires src != this && (src.current == SENTINEL || 0 <= src.current < |src.seqIds|)
      modifies this
      ensures seqIds == old(seqIds) + src.seqIds
      ensures current == if src.current == SENTINEL then old(current) else |old(seqIds)| + src.current
      ensures old(Value()) == State([], SENTINEL) ==> Value() == src.Value()
    {
      var i := 0;
      ghost var start, before := seqIds, current;
      while i < |src.seqIds|
        invariant 0 <= i <= |src.seqIds| && seqIds == start + src.seqIds[..i]
        invariant current == if 0 <= src.current < i then |start| + src.current else before
      {
        seqIds := seqIds + [src.seqIds[i]];
        if src.current == i {
          current := |seqIds| - 1;
        }
        i := i + 1;
      }
    }
  }
}
