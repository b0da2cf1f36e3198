/** The registration list, and why waiting for the lowest id never stops everybody. */
module CidProgress {
  import opened CidProtocol
  import opened CidSafety

  ghost predicate Active(l: Local) {
    l.pc !in {Idle, Done}
  }

  lemma {:induction false} IncreasingCons(n: nat, xs: seq<nat>)
    requires Increasing(xs) && forall m :: m in xs ==> n < m
    ensures Increasing([n] + xs)
  {
    var ys := [n] + xs;
    forall i, j | 0 <= i < j < |ys| ensures ys[i] < ys[j] {
      assert ys[j] == xs[j - 1] && xs[j - 1] in xs;
    }
  }

  lemma {:induction false} IncreasingTail(xs: seq<nat>)
    requires Increasing(xs) && xs != []
    ensures Increasing(xs[1..]) && forall m :: m in xs[1..] ==> xs[0] < m
    ensures forall m :: m in xs <==> m == xs[0] || m in xs[1..]
  {
    assert xs == [xs[0]] + xs[1..];
  }

  lemma {:induction false} RegisteredMeaning(xs: seq<nat>, cid: nat)
    requires Increasing(xs) && cid !in xs
    ensures Increasing(Registered(xs, cid))
    ensures forall n :: n in Registered(xs, cid) <==> n in xs || n == cid
  {
    hide Increasing;
    if xs == [] {
      assert Registered(xs, cid) == [cid] + [];
      assert Increasing([]) by { EmptyIncreasing(); }
      IncreasingCons(cid, []);
    } else {
      IncreasingTail(xs);
      if xs[0] > cid {
        IncreasingCons(cid, xs);
      } else {
        RegisteredMeaning(xs[1..], cid);
        IncreasingCons(xs[0], Registered(xs[1..], cid));
      }
    }
  }

  lemma {:induction false} EmptyIncreasing()
    ensures Increasing([])
  {
  }

  lemma {:induction false} UnregisteredMeaning(xs: seq<nat>, cid: nat)
    requires Increasing(xs)
    ensures Increasing(Unregistered(xs, cid))
    ensures forall n :: n in Unregistered(xs, cid) <==> n in xs && n != cid
  {
    hide Increasing;
    if xs != [] {
      IncreasingTail(xs);
      if xs[0] != cid {
        UnregisteredMeaning(xs[1..], cid);
        IncreasingCons(xs[0], Unregistered(xs[1..], cid));
      }
    }
  }

  ghost predicate ActiveAt(c: Config, s: State, p: Proc, a: Alloc, n: nat) {
    Member(c, a, p) && Active(L(s, a, p)) && c.parent[a] == n
  }

  /** The list of a process is sorted, names exactly the parents of its active allocations,
      and no two of these have the same parent. */
  ghost predicate Listed(c: Config, s: State, p: Proc) {
    && Increasing(R(s, p))
    && (forall a: Alloc, n :: ActiveAt(c, s, p, a, n) ==> n in R(s, p))
    && (forall n :: n in R(s, p) ==> exists a: Alloc :: ActiveAt(c, s, p, a, n))
    && (forall a: Alloc, b: Alloc, n :: ActiveAt(c, s, p, a, n) && ActiveAt(c, s, p, b, n) ==> a == b)
  }

  lemma {:induction false} RegisterListed(c: Config, s: State, s': State, a: Alloc, p: Proc)
    requires Member(c, a, p) && Listed(c, s, p) && Register(c, s, s', a, p)
    ensures Listed(c, s', p)
  {
    var parent := c.parent[a];
    RegisteredMeaning(R(s, p), parent);
    hide Registered, Increasing;
    assert R(s', p) == Registered(R(s, p), parent);
    assert forall b: Alloc, n :: ActiveAt(c, s', p, b, n) <==> ActiveAt(c, s, p, b, n) || (b == a && n == parent);
    assert ActiveAt(c, s', p, a, parent);
    forall n | n in R(s', p) ensures exists b: Alloc :: ActiveAt(c, s', p, b, n) {
      if n != parent {
        var b: Alloc :| ActiveAt(c, s, p, b, n);
        assert ActiveAt(c, s', p, b, n);
      }
    }
  }

  lemma {:induction false} UnregisterListed(c: Config, s: State, s': State, a: Alloc, p: Proc)
    requires Member(c, a, p) && Listed(c, s, p) && Unregister(c, s, s', a, p)
    ensures Listed(c, s', p)
  {
    var parent := c.parent[a];
    UnregisteredMeaning(R(s, p), parent);
    hide Unregistered, Increasing;
    assert R(s', p) == Unregistered(R(s, p), parent);
    assert ActiveAt(c, s, p, a, parent);
    assert forall b: Alloc, n :: ActiveAt(c, s', p, b, n) <==> ActiveAt(c, s, p, b, n) && b != a;
    forall n | n in R(s', p) ensures exists b: Alloc :: ActiveAt(c, s', p, b, n) {
      var b: Alloc :| ActiveAt(c, s, p, b, n);
      assert ActiveAt(c, s', p, b, n);
    }
  }

  /** A step that leaves the list of its process, and whether the allocation is in it. */
  ghost predicate Stays(s: State, s': State, a: Alloc, p: Proc) {
    && R(s', p) == R(s, p) && Active(L(s', a, p)) == Active(L(s, a, p))
    && forall b: Alloc :: b != a ==> L(s', b, p) == L(s, b, p)
  }

  lemma {:induction false} EarlyStepsStay(c: Config, s: State, s': State, a: Alloc, p: Proc)
    requires Member(c, a, p)
    requires ReadStart(c, s, s', a, p) || Admit(c, s, s', a, p) || Skip(c, s, s', a, p) || Take(c, s, s', a, p)
          || ReceiveMax(c, s, s', a, p)
    ensures Stays(s, s', a, p)
  {
    hide MaxIs, IsLowestFree;
  }

  lemma {:induction false} LateStepsStay(c: Config, s: State, s': State, a: Alloc, p: Proc)
    requires Member(c, a, p)
    requires Agree(c, s, s', a, p) || Release(c, s, s', a, p) || Retake(c, s, s', a, p)
          || Commit(c, s, s', a, p) || Restart(c, s, s', a, p)
    ensures Stays(s, s', a, p)
  {
    hide MinTrue, MinComplete;
  }

  lemma {:induction false} SameActive(c: Config, s: State, s': State, p: Proc)
    requires Listed(c, s, p) && R(s', p) == R(s, p)
    requires forall a: Alloc :: Active(L(s', a, p)) == Active(L(s, a, p))
    ensures Listed(c, s', p)
  {
    hide Increasing, Active;
    assert forall a: Alloc, n :: ActiveAt(c, s', p, a, n) <==> ActiveAt(c, s, p, a, n);
  }

  lemma {:induction false} OtherStepsListed(c: Config, s: State, s': State, a: Alloc, p: Proc)
    requires Moves(c, s, s', a, p) && Listed(c, s, p)
    requires !Register(c, s, s', a, p) && !Unregister(c, s, s', a, p)
    ensures Listed(c, s', p)
  {
    hide Increasing, Register, ReadStart, Admit, Skip, Take, ReceiveMax, Agree, Release, Retake, Commit, Restart, Unregister;
    if ReadStart(c, s, s', a, p) || Admit(c, s, s', a, p) || Skip(c, s, s', a, p) || Take(c, s, s', a, p)
      || ReceiveMax(c, s, s', a, p) {
      EarlyStepsStay(c, s, s', a, p);
    } else {
      LateStepsStay(c, s, s', a, p);
    }
    SameActive(c, s, s', p);
  }

  lemma {:induction false} NextListed(c: Config, before: map<(Proc, Slot), Owner>, s: State, s': State, q: Proc)
    requires Inv(c, before, s) && Next(c, s, s') && Listed(c, s, q)
    ensures Listed(c, s', q)
  {
    var a: Alloc, p: Proc :| Moves(c, s, s', a, p);
    assert Member(c, a, p) && MemberInv(c, s, a, p);
    MoverKept(c, s, s', a, p);
    hide Moves, MemberInv, WellFormed, Register, Unregister, Increasing;
    if p != q {
      assert R(s', q) == R(s, q);
      assert forall b: Alloc :: L(s', b, q) == L(s, b, q);
      SameActive(c, s, s', q);
    }
    else if Register(c, s, s', a, p) { RegisterListed(c, s, s', a, p); }
    else if Unregister(c, s, s', a, p) { UnregisterListed(c, s, s', a, p); }
    else { OtherStepsListed(c, s, s', a, p); }
  }

  lemma {:induction false} StartListed(c: Config, s: State, p: Proc)
    requires Init(c, s)
    ensures Listed(c, s, p)
  {
    assert R(s, p) == [];
    assert forall a: Alloc :: !Active(L(s, a, p));
  }

  lemma {:induction false} RunListed(c: Config, tr: seq<State>, i: nat, p: Proc)
    requires Run(c, tr) && i < |tr|
    ensures Listed(c, tr[i], p)
  {
    if i > 0 {
      RunListed(c, tr, i - 1, p);
      RunInv(c, tr, i - 1);
      hide Inv, Next, Listed, WellFormed;
      assert Next(c, tr[i - 1], tr[i - 1 + 1]);
      NextListed(c, tr[0].slots, tr[i - 1], tr[i], p);
    } else {
      StartListed(c, tr[0], p);
    }
  }

  /** Some member has begun and some member is not finished. */
  ghost predicate Pending(c: Config, s: State, a: Alloc) {
    && (exists p: Proc :: Member(c, a, p) && L(s, a, p).pc != Idle)
    && (exists p: Proc :: Member(c, a, p) && L(s, a, p).pc != Done)
  }

  ghost predicate AllBegun(c: Config, s: State, a: Alloc) {
    forall p: Proc :: Member(c, a, p) ==> L(s, a, p).pc != Idle
  }

  ghost predicate IdsLeft(c: Config, s: State, a: Alloc) {
    forall p: Proc :: Member(c, a, p) && L(s, a, p).pc.Scanning? ==> L(s, a, p).pc.i < c.limit
  }

  ghost predicate Lowest(c: Config, s: State, a: Alloc) {
    Pending(c, s, a) && forall b: Alloc :: Pending(c, s, b) ==> c.parent[a] <= c.parent[b]
  }

  ghost predicate CanStep(c: Config, s: State, a: Alloc, p: Proc) {
    exists s' :: Moves(c, s, s', a, p)
  }

  /** In the list of each of its active members, an allocation comes first. */
  ghost predicate AtHead(c: Config, s: State, a: Alloc) {
    forall q: Proc :: Member(c, a, q) && Active(L(s, a, q)) ==> R(s, q) != [] && R(s, q)[0] == c.parent[a]
  }

  /** The pending allocation with the smallest parent is first in every list it is in. */
  lemma {:induction false} LowestIsFirst(c: Config, s: State, a: Alloc, p: Proc)
    requires Listed(c, s, p) && Lowest(c, s, a)
    requires Member(c, a, p) && Active(L(s, a, p))
    ensures R(s, p) != [] && R(s, p)[0] == c.parent[a]
  {
    assert ActiveAt(c, s, p, a, c.parent[a]);
    var n := R(s, p)[0];
    assert n in R(s, p);
    var b: Alloc :| ActiveAt(c, s, p, b, n);
    assert Pending(c, s, b);
  }

  lemma {:induction false} EntryStep(c: Config, s: State, a: Alloc, p: Proc)
    requires Member(c, a, p) && IdsLeft(c, s, a)
    requires L(s, a, p).pc == Waiting ==> R(s, p) != [] && R(s, p)[0] == c.parent[a]
    requires L(s, a, p).pc == Waiting || L(s, a, p).pc.Scanning?
    ensures CanStep(c, s, a, p)
  {
    var l := L(s, a, p);
    if l.pc == Waiting {
      var s' := With(s, a, p, l.(pc := Scanning(l.start)));
      assert Admit(c, s, s', a, p);
      assert Moves(c, s, s', a, p);
    } else if (p, l.pc.i) in s.slots {
      var s' := With(s, a, p, l.(pc := Scanning(l.pc.i + 1)));
      assert Skip(c, s, s', a, p);
      assert Moves(c, s, s', a, p);
    } else {
      var s' := With(
        s.(slots := s.slots[(p, l.pc.i) := Reserved(a)], maxIn := s.maxIn[(a, l.round, p) := l.pc.i]),
        a, p, l.(pc := InMax, nextlocal := l.pc.i));
      assert Take(c, s, s', a, p);
      assert Moves(c, s, s', a, p);
    }
  }

  lemma {:induction false} Above(keys: set<(Proc, Slot)>) returns (x: Slot)
    ensures forall k :: k in keys ==> k.1 < x
    decreases |keys|
  {
    if keys == {} {
      x := 0;
    } else {
      var k :| k in keys;
      var y := Above(keys - {k});
      x := if k.1 < y then y else k.1 + 1;
      assert forall z :: z in keys ==> z == k || z in keys - {k};
    }
  }

  lemma {:induction false} LowestFree(s: State, p: Proc) returns (x: Slot)
    ensures IsLowestFree(s, p, x)
  {
    var top := Above(s.slots.Keys);
    assert (p, top) !in s.slots;
    x := LowestFreeBelow(s, p, top, 0);
  }

  lemma {:induction false} LowestFreeBelow(s: State, p: Proc, top: Slot, y: Slot) returns (x: Slot)
    requires y <= top && (p, top) !in s.slots && forall z: Slot :: z < y ==> (p, z) in s.slots
    ensures IsLowestFree(s, p, x)
    decreases top - y
  {
    if (p, y) !in s.slots { x := y; } else { x := LowestFreeBelow(s, p, top, y + 1); }
  }

  lemma {:induction false} LocalStep(c: Config, s: State, a: Alloc, p: Proc)
    requires Member(c, a, p)
    requires L(s, a, p).pc in {Starting, Checking, Retrying, Committed}
    ensures CanStep(c, s, a, p)
  {
    var l := L(s, a, p);
    if l.pc == Starting {
      var x := LowestFree(s, p);
      var s' := With(s, a, p, l.(pc := Waiting, start := x));
      assert ReadStart(c, s, s', a, p);
      assert Moves(c, s, s', a, p);
    } else if l.pc == Checking && l.nextcid == l.nextlocal {
      var s' := With(s.(minIn := s.minIn[(a, l.round, p) := true]), a, p, l.(pc := InMin, response := true));
      assert Agree(c, s, s', a, p);
      assert Moves(c, s, s', a, p);
    } else if l.pc == Checking {
      var s' := With(s.(slots := s.slots - {(p, l.nextlocal)}), a, p, l.(pc := Retrying));
      assert Release(c, s, s', a, p);
      assert Moves(c, s, s', a, p);
    } else if l.pc == Retrying {
      var free := (p, l.nextcid) !in s.slots;
      var s' := With(
        s.(slots := if free then s.slots[(p, l.nextcid) := Reserved(a)] else s.slots,
           minIn := s.minIn[(a, l.round, p) := free]),
        a, p, l.(pc := InMin, response := free));
      assert Retake(c, s, s', a, p);
      assert Moves(c, s, s', a, p);
    } else {
      var s' := With(s.(regs := s.regs[p := Unregistered(R(s, p), c.parent[a])]), a, p, l.(pc := Done));
      assert Unregister(c, s, s', a, p);
      assert Moves(c, s, s', a, p);
    }
  }

  lemma {:induction false} MaxExists(c: Config, s: State, a: Alloc, r: nat, left: set<Proc>) returns (v: Slot)
    requires a in c.members && left != {} && left <= c.members[a]
    requires forall q :: q in left ==> (a, r, q) in s.maxIn
    ensures forall q :: q in left ==> s.maxIn[(a, r, q)] <= v
    ensures exists q :: q in left && s.maxIn[(a, r, q)] == v
    decreases |left|
  {
    var p :| p in left;
    var rest := left - {p};
    if rest == {} {
      v := s.maxIn[(a, r, p)];
      assert left == {p};
    } else {
      var w := MaxExists(c, s, a, r, rest);
      var q :| q in rest && s.maxIn[(a, r, q)] == w;
      v := if w < s.maxIn[(a, r, p)] then s.maxIn[(a, r, p)] else w;
      assert q in left && p in left;
      assert forall z :: z in left ==> z == p || z in rest;
    }
  }

  lemma {:induction false} MaxStep(c: Config, s: State, a: Alloc, p: Proc)
    requires Member(c, a, p) && L(s, a, p).pc == InMax
    requires forall q :: q in c.members[a] ==> (a, L(s, a, p).round, q) in s.maxIn
    ensures CanStep(c, s, a, p)
  {
    var l := L(s, a, p);
    var v := MaxExists(c, s, a, l.round, c.members[a]);
    var s' := With(s, a, p, l.(pc := Checking, nextcid := v));
    assert MaxIs(c, s, a, l.round, v);
    assert ReceiveMax(c, s, s', a, p);
    assert Moves(c, s, s', a, p);
  }

  lemma {:induction false} MinStep(c: Config, s: State, a: Alloc, p: Proc)
    requires Member(c, a, p) && L(s, a, p).pc == InMin && MinComplete(c, s, a, L(s, a, p).round)
    ensures CanStep(c, s, a, p)
  {
    var l := L(s, a, p);
    if MinTrue(c, s, a, l.round) {
      var s' := With(s.(slots := s.slots[(p, l.nextcid) := Live(a)]), a, p, l.(pc := Committed));
      assert Commit(c, s, s', a, p);
      assert Moves(c, s, s', a, p);
    } else {
      var s' := With(
        s.(slots := if l.response then s.slots - {(p, l.nextcid)} else s.slots),
        a, p,
        l.(pc := Waiting, round := l.round + 1,
           start := if l.response || a !in c.nonblocking then l.nextcid + 1 else l.start));
      assert Restart(c, s, s', a, p);
      assert Moves(c, s, s', a, p);
    }
  }

  /** A member that waits for a collective waits for a member that can step. */
  lemma {:induction false} SomeoneSteps(c: Config, before: map<(Proc, Slot), Owner>, s: State, a: Alloc, p: Proc) returns (q: Proc)
    requires Inv(c, before, s)
    requires AtHead(c, s, a) && AllBegun(c, s, a) && IdsLeft(c, s, a)
    requires Member(c, a, p) && L(s, a, p).pc != Done
    ensures Member(c, a, q) && CanStep(c, s, a, q)
  {
    var l := L(s, a, p);
    var r := l.round;
    q := p;
    assert MemberInv(c, s, a, p);
    hide CanStep, WellFormed, Moves;
    if l.pc == InMax && exists z :: z in c.members[a] && (a, r, z) !in s.maxIn {
      q :| q in c.members[a] && (a, r, q) !in s.maxIn;
      StepBehind(c, before, s, a, p, q);
    } else if l.pc == InMin && !MinComplete(c, s, a, r) {
      q :| q in c.members[a] && (a, r, q) !in s.minIn;
      StepBehind(c, before, s, a, p, q);
    } else if l.pc == InMax {
      MaxStep(c, s, a, p);
    } else if l.pc == InMin {
      MinStep(c, s, a, p);
    } else if l.pc == Waiting || l.pc.Scanning? {
      EntryStep(c, s, a, p);
    } else {
      LocalStep(c, s, a, p);
    }
  }

  lemma {:induction false} StepBehind(c: Config, before: map<(Proc, Slot), Owner>, s: State, a: Alloc, p: Proc, q: Proc)
    requires Inv(c, before, s)
    requires AtHead(c, s, a) && AllBegun(c, s, a) && IdsLeft(c, s, a)
    requires Member(c, a, p) && Member(c, a, q)
    requires (L(s, a, p).pc == InMax && (a, L(s, a, p).round, q) !in s.maxIn)
          || (L(s, a, p).pc == InMin && (a, L(s, a, p).round, q) !in s.minIn)
    ensures CanStep(c, s, a, q)
  {
    var l, m := L(s, a, p), L(s, a, q);
    assert MemberInv(c, s, a, p) && MemberInv(c, s, a, q);
    hide CanStep, WellFormed, Moves;
    assert m.round <= l.round;
    if m.round < l.round {
      assert MinComplete(c, s, a, m.round) && !MinTrue(c, s, a, m.round);
      assert (a, m.round, q) in s.minIn;
      MinStep(c, s, a, q);
    } else if m.pc == Waiting || m.pc.Scanning? {
      EntryStep(c, s, a, q);
    } else if m.pc == InMax {
      MaxStep(c, s, a, q);
    } else {
      LocalStep(c, s, a, q);
    }
  }

  lemma {:induction false} LowestExists(c: Config, s: State, a: Alloc) returns (b: Alloc)
    requires WellFormed(c) && Pending(c, s, a)
    ensures Lowest(c, s, b)
    decreases c.parent[a]
  {
    if Lowest(c, s, a) {
      b := a;
    } else {
      b :| Pending(c, s, b) && c.parent[b] < c.parent[a];
      b := LowestExists(c, s, b);
    }
  }

  /** No deadlock: when all members of every pending allocation have registered, the one
      with the smallest parent is at the head of every list it is in, and can step. */
  lemma {:induction false} NoDeadlock(c: Config, tr: seq<State>, i: nat, some: Alloc)
    requires Run(c, tr) && i < |tr|
    requires Pending(c, tr[i], some)
    requires forall b: Alloc :: Pending(c, tr[i], b) ==> AllBegun(c, tr[i], b) && IdsLeft(c, tr[i], b)
    ensures exists a: Alloc, p: Proc :: Lowest(c, tr[i], a) && AtHead(c, tr[i], a) && Member(c, a, p) && CanStep(c, tr[i], a, p)
  {
    var s := tr[i];
    RunInv(c, tr, i);
    forall q: Proc ensures Listed(c, s, q) { RunListed(c, tr, i, q); }
    var a := LowestExists(c, s, some);
    LowestSteps(c, tr[0].slots, s, a);
  }

  lemma {:induction false} LowestSteps(c: Config, before: map<(Proc, Slot), Owner>, s: State, a: Alloc)
    requires Inv(c, before, s) && (forall q: Proc :: Listed(c, s, q))
    requires Lowest(c, s, a) && AllBegun(c, s, a) && IdsLeft(c, s, a)
    ensures exists p: Proc :: AtHead(c, s, a) && Member(c, a, p) && CanStep(c, s, a, p)
  {
    var z: Proc :| Member(c, a, z) && L(s, a, z).pc != Done;
    forall q: Proc | Member(c, a, q) && Active(L(s, a, q)) ensures R(s, q) != [] && R(s, q)[0] == c.parent[a] {
      LowestIsFirst(c, s, a, q);
    }
    assert AtHead(c, s, a);
    var p := SomeoneSteps(c, before, s, a, z);
  }

  // ----- several allocations on one communicator -----

  /** Each process takes its allocations on one communicator id in a common order: a later
      one begins where the earlier ones are done. They may have different members. */
  ghost predicate InTurn(c: Config, s: State, order: Alloc -> nat) {
    forall a: Alloc, b: Alloc, p: Proc :: Member(c, a, p) && Member(c, b, p) && Before(c, order, a, b) ==>
      (L(s, b, p).pc != Idle ==> L(s, a, p).pc == Done)
  }

  ghost predicate Before(c: Config, order: Alloc -> nat, a: Alloc, b: Alloc) {
    a in c.members && b in c.members && a in c.parent && b in c.parent && a != b
    && c.parent[a] == c.parent[b] && order(a) <= order(b)
  }

  /** A member has registered, or cannot yet because the communicator is in its list. */
  ghost predicate Tried(c: Config, s: State, a: Alloc) {
    forall p: Proc :: Member(c, a, p) ==> L(s, a, p).pc != Idle || c.parent[a] in R(s, p)
  }

  /** Pending with the smallest parent, and the first in the order among those. */
  ghost predicate FirstLowest(c: Config, s: State, order: Alloc -> nat, a: Alloc) {
    Lowest(c, s, a) && forall b: Alloc :: Lowest(c, s, b) ==> order(a) <= order(b)
  }

  lemma {:induction false} FirstExists(c: Config, s: State, order: Alloc -> nat, a: Alloc) returns (b: Alloc)
    requires Lowest(c, s, a)
    ensures FirstLowest(c, s, order, b)
    decreases order(a)
  {
    hide Lowest;
    if FirstLowest(c, s, order, a) {
      b := a;
    } else {
      b :| Lowest(c, s, b) && order(b) < order(a);
      b := FirstExists(c, s, order, b);
    }
  }

  /** The first of them has been begun by all its members. */
  lemma {:induction false} FirstBegun(c: Config, s: State, order: Alloc -> nat, a: Alloc)
    requires WellFormed(c) && (forall p: Proc :: Listed(c, s, p))
    requires InTurn(c, s, order) && FirstLowest(c, s, order, a) && Tried(c, s, a)
    ensures AllBegun(c, s, a)
  {
    forall p: Proc | Member(c, a, p) ensures L(s, a, p).pc != Idle {
      assert Listed(c, s, p);
      hide Increasing;
      assert forall b: Alloc, n :: ActiveAt(c, s, p, b, n) ==> Pending(c, s, b);
    }
  }

  /** No deadlock when communicators are used again: if every pending allocation has been
      tried by all its members, and each process takes those on one id in a common order,
      then the first with the smallest parent is at the head of its lists and can step. */
  lemma {:induction false} NoDeadlockInTurn(c: Config, tr: seq<State>, i: nat, order: Alloc -> nat, some: Alloc)
    requires Run(c, tr) && i < |tr| && InTurn(c, tr[i], order)
    requires Pending(c, tr[i], some)
    requires forall b: Alloc :: Pending(c, tr[i], b) ==> Tried(c, tr[i], b) && IdsLeft(c, tr[i], b)
    ensures exists a: Alloc, p: Proc :: Lowest(c, tr[i], a) && AtHead(c, tr[i], a) && Member(c, a, p) && CanStep(c, tr[i], a, p)
  {
    var s := tr[i];
    RunInv(c, tr, i);
    forall q: Proc ensures Listed(c, s, q) { RunListed(c, tr, i, q); }
    var low := LowestExists(c, s, some);
    var a := FirstExists(c, s, order, low);
    FirstBegun(c, s, order, a);
    LowestSteps(c, tr[0].slots, s, a);
  }
}
