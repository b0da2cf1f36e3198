/** The tables of one process: its communicator slots and its list of registered
    communicators, and the local code of the protocol that works on them. */
module CidTables {
  import opened CidProtocol
  import opened CidProgress

  /** The first free slot from start on, or the limit if there is none. */
  ghost predicate IsFirstFree(slots: map<Slot, Owner>, start: Slot, cid: Slot, limit: nat) {
    start <= cid <= limit && (cid < limit ==> cid !in slots) && forall k :: start <= k < cid ==> k in slots
  }

  /** The slots and the answer after a proposed id has been checked. */
  ghost predicate IsChecked(
    before: map<Slot, Owner>, after: map<Slot, Owner>, a: Alloc, nextlocal: Slot, nextcid: Slot, response: bool)
  {
    && response == (nextcid == nextlocal || nextcid !in before)
    && after == if response then (before - {nextlocal})[nextcid := Reserved(a)] else before - {nextlocal}
  }

  class Tables {
    var slots: map<Slot, Owner>
    var registered: seq<nat>
    const limit: nat

    ghost predicate Valid()
      reads this
    {
      Increasing(registered)
    }

    constructor (limit: nat, slots: map<Slot, Owner>)
      ensures Valid() && this.limit == limit && this.slots == slots && registered == []
    {
      this.limit := limit;
      this.slots := slots;
      registered := [];
    }

    /** One attempt of the registration loop: it walks to the first larger id and
        gives up, without a change, if it meets the id itself. */
    method TryRegister(cid: nat) returns (ok: bool)
      requires Valid()
      modifies this`registered
      ensures Valid()
      ensures ok == (cid !in old(registered))
      ensures registered == if ok then Registered(old(registered), cid) else old(registered)
    {
      var i := 0;
      ok := true;
      while i < |registered|
        invariant 0 <= i <= |registered| && ok
        invariant forall k :: 0 <= k < i ==> registered[k] < cid
      {
        if registered[i] > cid {
          break;
        }
        if registered[i] == cid {
          ok := false;
          break;
        }
        i := i + 1;
      }
      if ok {
        assert cid !in registered;
        RegisteredAt(registered, cid, i);
        RegisteredMeaning(registered, cid);
        assert registered == registered[..i] + registered[i..];
        registered := registered[..i] + [cid] + registered[i..];
      }
    }

    method Unregister(cid: nat)
      requires Valid()
      modifies this`registered
      ensures Valid() && registered == Unregistered(old(registered), cid)
    {
      var i := 0;
      while i < |registered| && registered[i] != cid
        invariant 0 <= i <= |registered|
        invariant forall k :: 0 <= k < i ==> registered[k] != cid
      {
        i := i + 1;
      }
      UnregisteredAt(registered, cid, i);
      UnregisteredMeaning(registered, cid);
      if i < |registered| {
        registered := registered[..i] + registered[i + 1..];
      }
    }

    /** The first of the list is the smallest. */
    method Lowest() returns (cid: nat)
      requires Valid() && registered != []
      ensures cid in registered && forall n :: n in registered ==> cid <= n
    {
      cid := registered[0];
    }

    /** The test-and-set of a slot. */
    method TestAndSet(i: Slot, o: Owner) returns (ok: bool)
      modifies this`slots
      ensures ok == (i !in old(slots))
      ensures slots == if ok then old(slots)[i := o] else old(slots)
    {
      ok := i !in slots;
      if ok {
        slots := slots[i := o];
      }
    }

    /** Reserves the first free slot from start on; the limit if there is none. */
    method Reserve(start: Slot, a: Alloc) returns (cid: Slot)
      requires start <= limit
      modifies this`slots
      ensures IsFirstFree(old(slots), start, cid, limit)
      ensures slots == if cid < limit then old(slots)[cid := Reserved(a)] else old(slots)
    {
      cid := limit;
      var i := start;
      while i < limit
        invariant start <= i <= limit && cid == limit && slots == old(slots)
        invariant forall k :: start <= k < i ==> k in slots
      {
        var flag := TestAndSet(i, Reserved(a));
        if flag {
          cid := i;
          break;
        }
        i := i + 1;
      }
    }

    /** The answer to a proposed id: kept if it is the one reserved here, otherwise the
        reservation moves to it if it is free, and is given up if it is not. */
    method Check(a: Alloc, nextlocal: Slot, nextcid: Slot) returns (response: bool)
      requires nextlocal in slots && slots[nextlocal] == Reserved(a)
      modifies this`slots
      ensures IsChecked(old(slots), slots, a, nextlocal, nextcid, response)
    {
      if nextcid == nextlocal {
        response := true;
        assert slots == (slots - {nextlocal})[nextcid := Reserved(a)];
      } else {
        slots := slots - {nextlocal};
        response := TestAndSet(nextcid, Reserved(a));
      }
    }
  }

  // ----- the same as steps of the protocol -----

  /** The slots of one process in a state of the protocol. */
  ghost predicate Has(s: State, p: Proc, slots: map<Slot, Owner>) {
    forall x: Slot :: (x in slots <==> (p, x) in s.slots) && (x in slots ==> s.slots[(p, x)] == slots[x])
  }

  /** Steps of one member, one after the other. */
  ghost predicate Steps(c: Config, tr: seq<State>, a: Alloc, p: Proc) {
    tr != [] && forall i :: 0 <= i < |tr| - 1 ==> Moves(c, tr[i], tr[i + 1], a, p)
  }

  /** What the search reserves, the member reserves with steps that skip the slots before it
      and take it; without a free slot it stands at the limit. */
  lemma {:induction false} ReserveIsSteps(
    c: Config, s: State, a: Alloc, p: Proc, slots: map<Slot, Owner>, start: Slot, cid: Slot) returns (tr: seq<State>)
    requires Member(c, a, p) && L(s, a, p).pc == Scanning(start) && Has(s, p, slots) && IsFirstFree(slots, start, cid, c.limit)
    ensures Steps(c, tr, a, p) && tr[0] == s
    ensures
      var s' := tr[|tr| - 1];
      if cid < c.limit then
        && Has(s', p, slots[cid := Reserved(a)])
        && L(s', a, p) == L(s, a, p).(pc := InMax, nextlocal := cid)
        && s'.maxIn == s.maxIn[(a, L(s, a, p).round, p) := cid]
      else Has(s', p, slots) && L(s', a, p) == L(s, a, p).(pc := Scanning(cid)) && s'.maxIn == s.maxIn
    decreases cid - start
  {
    var l := L(s, a, p);
    if start < cid {
      var next := With(s, a, p, l.(pc := Scanning(start + 1)));
      assert start in slots;
      assert Skip(c, s, next, a, p);
      assert Moves(c, s, next, a, p);
      var rest := ReserveIsSteps(c, next, a, p, slots, start + 1, cid);
      tr := [s] + rest;
      hide Moves, Member, Has;
      StepFirst(c, s, rest, a, p);
    } else if cid < c.limit {
      var next := With(
        s.(slots := s.slots[(p, cid) := Reserved(a)], maxIn := s.maxIn[(a, l.round, p) := cid]),
        a, p, l.(pc := InMax, nextlocal := cid));
      assert Take(c, s, next, a, p);
      assert Moves(c, s, next, a, p);
      tr := [s, next];
    } else {
      tr := [s];
    }
  }

  lemma {:induction false} StepFirst(c: Config, s: State, rest: seq<State>, a: Alloc, p: Proc)
    requires Steps(c, rest, a, p) && Moves(c, s, rest[0], a, p)
    ensures Steps(c, [s] + rest, a, p)
  {
    hide Moves;
    var tr := [s] + rest;
    forall i | 0 <= i < |tr| - 1 ensures Moves(c, tr[i], tr[i + 1], a, p) {
      if i > 0 { assert Moves(c, rest[i - 1], rest[i - 1 + 1], a, p); }
    }
  }

  /** What the check leaves in the table and answers, the member does by agreeing, or by
      releasing its slot and trying to take the other one. */
  lemma {:induction false} CheckIsSteps(
    c: Config, s: State, a: Alloc, p: Proc, slots: map<Slot, Owner>, slots': map<Slot, Owner>, response: bool)
    returns (tr: seq<State>)
    requires Member(c, a, p) && L(s, a, p).pc == Checking && Has(s, p, slots) && L(s, a, p).nextlocal in slots
    requires slots[L(s, a, p).nextlocal] == Reserved(a)
    requires IsChecked(slots, slots', a, L(s, a, p).nextlocal, L(s, a, p).nextcid, response)
    ensures Steps(c, tr, a, p) && tr[0] == s
    ensures
      var s' := tr[|tr| - 1];
      && Has(s', p, slots') && L(s', a, p) == L(s, a, p).(pc := InMin, response := response)
      && s'.minIn == s.minIn[(a, L(s, a, p).round, p) := response]
  {
    var l := L(s, a, p);
    var answered := s.minIn[(a, l.round, p) := response];
    if l.nextcid == l.nextlocal {
      var next := With(s.(minIn := answered), a, p, l.(pc := InMin, response := true));
      assert Agree(c, s, next, a, p);
      assert Moves(c, s, next, a, p);
      tr := [s, next];
    } else {
      var mid := With(s.(slots := s.slots - {(p, l.nextlocal)}), a, p, l.(pc := Retrying));
      assert Release(c, s, mid, a, p);
      assert Moves(c, s, mid, a, p);
      var next := With(
        mid.(slots := if response then mid.slots[(p, l.nextcid) := Reserved(a)] else mid.slots, minIn := answered),
        a, p, l.(pc := InMin, response := response));
      assert Retake(c, mid, next, a, p);
      assert Moves(c, mid, next, a, p);
      tr := [s, mid, next];
    }
  }

  lemma {:induction false} RegisteredAt(xs: seq<nat>, cid: nat, i: nat)
    requires i <= |xs| && (forall k :: 0 <= k < i ==> xs[k] < cid) && (i < |xs| ==> xs[i] > cid)
    ensures Registered(xs, cid) == xs[..i] + [cid] + xs[i..]
  {
    if i > 0 {
      RegisteredAt(xs[1..], cid, i - 1);
      assert xs[..i] == [xs[0]] + xs[1..][..i - 1];
      assert xs[i..] == xs[1..][i - 1..];
    }
  }

  lemma {:induction false} UnregisteredAt(xs: seq<nat>, cid: nat, i: nat)
    requires i <= |xs| && (forall k :: 0 <= k < i ==> xs[k] != cid) && (i < |xs| ==> xs[i] == cid)
    ensures Unregistered(xs, cid) == if i < |xs| then xs[..i] + xs[i + 1..] else xs
  {
    if i > 0 {
      UnregisteredAt(xs[1..], cid, i - 1);
      assert xs[..i] == [xs[0]] + xs[1..][..i - 1];
      if i < |xs| { assert xs[i + 1..] == xs[1..][i..]; }
      assert xs == [xs[0]] + xs[1..];
    }
  }
}
