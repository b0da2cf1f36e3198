/** Agreement: what holds in every reachable state of every interleaving. */
module CidSafety {
  import opened CidProtocol

  ghost predicate GaveMax(l: Local) {
    l.pc in {InMax, Checking, Retrying, InMin, Committed, Done}
  }

  ghost predicate GotMax(l: Local) {
    l.pc in {Checking, Retrying, InMin, Committed, Done}
  }

  ghost predicate GaveMin(l: Local) {
    l.pc in {InMin, Committed, Done}
  }

  ghost predicate Won(l: Local) {
    l.pc in {Committed, Done}
  }

  ghost predicate HasSlot(s: State, p: Proc, x: Slot, o: Owner) {
    (p, x) in s.slots && s.slots[(p, x)] == o
  }

  /** The slot a member believes to have is its own. */
  ghost predicate Owns(s: State, a: Alloc, p: Proc) {
    var l := L(s, a, p);
    && (l.pc in {InMax, Checking} ==> HasSlot(s, p, l.nextlocal, Reserved(a)))
    && (l.pc == InMin && l.response ==> HasSlot(s, p, l.nextcid, Reserved(a)))
    && (Won(l) ==> HasSlot(s, p, l.nextcid, Live(a)))
  }

  ghost predicate Holds(l: Local, x: Slot) {
    if l.pc == InMin then l.response && x == l.nextcid else l.pc in {InMax, Checking} && x == l.nextlocal
  }

  /** A member has no other slot. */
  ghost predicate OwnsNoOther(s: State, a: Alloc, p: Proc) {
    var l := L(s, a, p);
    && (forall x: Slot :: HasSlot(s, p, x, Reserved(a)) ==> Holds(l, x))
    && (forall x: Slot :: HasSlot(s, p, x, Live(a)) ==> Won(l) && x == l.nextcid)
  }

  /** Only members of an allocation have slots for it. */
  ghost predicate ByMember(c: Config, s: State, p: Proc, x: Slot) {
    (p, x) in s.slots && !s.slots[(p, x)].Other? ==> Member(c, s.slots[(p, x)].a, p)
  }

  /** In which rounds a member has given its values. */
  ghost predicate Gave(s: State, a: Alloc, p: Proc) {
    var l := L(s, a, p);
    && (forall r: nat :: (a, r, p) in s.maxIn <==> r < l.round + (if GaveMax(l) then 1 else 0))
    && (forall r: nat :: (a, r, p) in s.minIn <==> r < l.round + (if GaveMin(l) then 1 else 0))
  }

  ghost predicate Values(c: Config, s: State, a: Alloc, p: Proc) {
    var l := L(s, a, p);
    && (l.pc in {InMax, Checking} ==> (a, l.round, p) in s.maxIn && s.maxIn[(a, l.round, p)] == l.nextlocal)
    && (GotMax(l) ==> MaxIs(c, s, a, l.round, l.nextcid))
    && (GaveMin(l) ==> (a, l.round, p) in s.minIn && s.minIn[(a, l.round, p)] == l.response)
    && (Won(l) ==> l.response && MinTrue(c, s, a, l.round))
  }

  /** Earlier rounds failed for everybody. */
  ghost predicate Failed(c: Config, s: State, a: Alloc, p: Proc) {
    forall r: nat :: r < L(s, a, p).round ==> MinComplete(c, s, a, r) && !MinTrue(c, s, a, r)
  }

  ghost predicate MemberInv(c: Config, s: State, a: Alloc, p: Proc) {
    Owns(s, a, p) && OwnsNoOther(s, a, p) && Gave(s, a, p) && Values(c, s, a, p) && Failed(c, s, a, p)
  }

  ghost predicate Inv(c: Config, before: map<(Proc, Slot), Owner>, s: State) {
    && WellFormed(c)
    && (forall a: Alloc, p: Proc :: Member(c, a, p) ==> MemberInv(c, s, a, p))
    && (forall p: Proc, x: Slot :: ByMember(c, s, p, x))
    && (forall p: Proc, x: Slot :: (p, x) in before <==> HasSlot(s, p, x, Other))
  }

  lemma {:induction false} InitInv(c: Config, s: State)
    requires WellFormed(c) && Init(c, s)
    ensures Inv(c, s.slots, s)
  {
    forall a: Alloc, p: Proc | Member(c, a, p) ensures MemberInv(c, s, a, p) {
      assert L(s, a, p) == Local(Idle, 0, 0, 0, false, 0);
    }
  }

  /** The values given to the collective operations are never taken back. */
  ghost predicate Grows(s: State, s': State) {
    && (forall k :: k in s.maxIn ==> k in s'.maxIn && s'.maxIn[k] == s.maxIn[k])
    && (forall k :: k in s.minIn ==> k in s'.minIn && s'.minIn[k] == s.minIn[k])
  }

  lemma {:induction false} StableMax(c: Config, s: State, s': State, a: Alloc, r: nat, v: Slot)
    requires Grows(s, s') && MaxIs(c, s, a, r, v)
    ensures MaxIs(c, s', a, r, v)
  {
    var q :| q in c.members[a] && (a, r, q) in s.maxIn && s.maxIn[(a, r, q)] == v;
    assert (a, r, q) in s'.maxIn;
  }

  lemma {:induction false} StableMin(c: Config, s: State, s': State, a: Alloc, r: nat)
    requires Grows(s, s') && MinComplete(c, s, a, r)
    ensures MinComplete(c, s', a, r) && (MinTrue(c, s', a, r) <==> MinTrue(c, s, a, r))
  {
    forall q | q in c.members[a] ensures (a, r, q) in s'.minIn && s'.minIn[(a, r, q)] == s.minIn[(a, r, q)] {
      assert (a, r, q) in s.minIn;
    }
  }

  lemma {:induction false} StableFailed(c: Config, s: State, s': State, a: Alloc, p: Proc)
    requires Grows(s, s') && Failed(c, s, a, p)
    ensures forall r: nat :: r < L(s, a, p).round ==> MinComplete(c, s', a, r) && !MinTrue(c, s', a, r)
  {
    forall r: nat | r < L(s, a, p).round ensures MinComplete(c, s', a, r) && !MinTrue(c, s', a, r) {
      StableMin(c, s, s', a, r);
    }
  }

  ghost predicate SameSlot(s: State, s': State, p: Proc, x: Slot) {
    ((p, x) in s.slots <==> (p, x) in s'.slots) && ((p, x) in s.slots && (p, x) in s'.slots ==> s.slots[(p, x)] == s'.slots[(p, x)])
  }

  /** A slot goes from free to reserved, or from reserved to free or committed,
      and only by a step of the member it is reserved for. */
  ghost predicate SlotChange(s: State, s': State, a: Alloc, p: Proc, q: Proc, x: Slot) {
    || SameSlot(s, s', q, x)
    || (q == p && (q, x) !in s.slots && HasSlot(s', q, x, Reserved(a)))
    || (q == p && HasSlot(s, q, x, Reserved(a)) && ((q, x) !in s'.slots || HasSlot(s', q, x, Live(a))))
  }

  /** What a step of one member can change. */
  ghost predicate Effect(s: State, s': State, a: Alloc, p: Proc) {
    && (forall b: Alloc, q: Proc :: (b, q) != (a, p) ==> L(s', b, q) == L(s, b, q))
    && (forall q: Proc, x: Slot :: SlotChange(s, s', a, p, q, x))
    && (forall b: Alloc, r: nat, q: Proc :: (b, q) != (a, p) ==> ((b, r, q) in s'.maxIn <==> (b, r, q) in s.maxIn))
    && (forall b: Alloc, r: nat, q: Proc :: (b, q) != (a, p) ==> ((b, r, q) in s'.minIn <==> (b, r, q) in s.minIn))
    && (forall q: Proc :: q != p ==> R(s', q) == R(s, q))
  }

  /** What a step keeps, for the member that moves. */
  ghost predicate Kept(c: Config, s: State, s': State, a: Alloc, p: Proc) {
    Grows(s, s') && Effect(s, s', a, p) && MemberInv(c, s', a, p)
  }

  lemma {:induction false} EntryKept(c: Config, s: State, s': State, a: Alloc, p: Proc)
    requires Member(c, a, p) && MemberInv(c, s, a, p)
    requires ReadStart(c, s, s', a, p) || Admit(c, s, s', a, p) || Skip(c, s, s', a, p)
    ensures Kept(c, s, s', a, p)
  {
    var l, l' := L(s, a, p), L(s', a, p);
    assert Grows(s, s');
    assert Effect(s, s', a, p);
    assert OwnsNoOther(s', a, p) by {
      assert forall x: Slot, o: Owner :: HasSlot(s', p, x, o) ==> HasSlot(s, p, x, o);
    }
    assert Failed(c, s', a, p) by { StableFailed(c, s, s', a, p); }
  }

  lemma {:induction false} RegisterKept(c: Config, s: State, s': State, a: Alloc, p: Proc)
    requires Member(c, a, p) && MemberInv(c, s, a, p)
    requires Register(c, s, s', a, p)
    ensures Kept(c, s, s', a, p)
  {
    var l, l' := L(s, a, p), L(s', a, p);
    assert Grows(s, s');
    assert Effect(s, s', a, p);
    assert OwnsNoOther(s', a, p) by {
      assert forall x: Slot, o: Owner :: HasSlot(s', p, x, o) ==> HasSlot(s, p, x, o);
    }
    assert Failed(c, s', a, p) by { StableFailed(c, s, s', a, p); }
  }

  lemma {:induction false} TakeKept(c: Config, s: State, s': State, a: Alloc, p: Proc)
    requires Member(c, a, p) && MemberInv(c, s, a, p)
    requires Take(c, s, s', a, p)
    ensures Kept(c, s, s', a, p)
  {
    var l, l' := L(s, a, p), L(s', a, p);
    assert Grows(s, s');
    assert Effect(s, s', a, p);
    assert OwnsNoOther(s', a, p) by {
      assert forall x: Slot, o: Owner :: HasSlot(s', p, x, o) ==> HasSlot(s, p, x, o) || x == l'.nextlocal;
    }
    assert Failed(c, s', a, p) by { StableFailed(c, s, s', a, p); }
  }

  lemma {:induction false} ReceiveKept(c: Config, s: State, s': State, a: Alloc, p: Proc)
    requires Member(c, a, p) && MemberInv(c, s, a, p)
    requires ReceiveMax(c, s, s', a, p)
    ensures Kept(c, s, s', a, p)
  {
    var l, l' := L(s, a, p), L(s', a, p);
    assert Grows(s, s');
    assert Effect(s, s', a, p);
    assert OwnsNoOther(s', a, p) by {
      assert forall x: Slot, o: Owner :: HasSlot(s', p, x, o) ==> HasSlot(s, p, x, o);
    }
    assert Values(c, s', a, p) by { StableMax(c, s, s', a, l'.round, l'.nextcid); }
    assert Failed(c, s', a, p) by { StableFailed(c, s, s', a, p); }
  }

  lemma {:induction false} AgreeKept(c: Config, s: State, s': State, a: Alloc, p: Proc)
    requires Member(c, a, p) && MemberInv(c, s, a, p)
    requires Agree(c, s, s', a, p)
    ensures Kept(c, s, s', a, p)
  {
    var l, l' := L(s, a, p), L(s', a, p);
    assert Grows(s, s');
    assert Effect(s, s', a, p);
    assert OwnsNoOther(s', a, p) by {
      assert forall x: Slot, o: Owner :: HasSlot(s', p, x, o) ==> HasSlot(s, p, x, o);
    }
    assert Values(c, s', a, p) by { StableMax(c, s, s', a, l.round, l.nextcid); }
    assert Failed(c, s', a, p) by { StableFailed(c, s, s', a, p); }
  }

  lemma {:induction false} ReleaseKept(c: Config, s: State, s': State, a: Alloc, p: Proc)
    requires Member(c, a, p) && MemberInv(c, s, a, p)
    requires Release(c, s, s', a, p)
    ensures Kept(c, s, s', a, p)
  {
    var l, l' := L(s, a, p), L(s', a, p);
    assert Grows(s, s');
    assert Effect(s, s', a, p);
    assert OwnsNoOther(s', a, p) by {
      assert forall x: Slot, o: Owner :: HasSlot(s', p, x, o) ==> HasSlot(s, p, x, o) && x != l.nextlocal;
    }
    assert Values(c, s', a, p) by { StableMax(c, s, s', a, l.round, l.nextcid); }
    assert Failed(c, s', a, p) by { StableFailed(c, s, s', a, p); }
  }

  lemma {:induction false} RetakeKept(c: Config, s: State, s': State, a: Alloc, p: Proc)
    requires Member(c, a, p) && MemberInv(c, s, a, p)
    requires Retake(c, s, s', a, p)
    ensures Kept(c, s, s', a, p)
  {
    var l, l' := L(s, a, p), L(s', a, p);
    assert Grows(s, s');
    assert Effect(s, s', a, p);
    assert OwnsNoOther(s', a, p) by {
      forall x: Slot ensures (HasSlot(s', p, x, Reserved(a)) ==> l'.response && x == l.nextcid) && !HasSlot(s', p, x, Live(a)) {
        assert HasSlot(s', p, x, Reserved(a)) ==> HasSlot(s, p, x, Reserved(a)) || (l'.response && x == l.nextcid);
        assert HasSlot(s', p, x, Live(a)) ==> HasSlot(s, p, x, Live(a));
      }
    }
    assert Values(c, s', a, p) by { StableMax(c, s, s', a, l.round, l.nextcid); }
    assert Failed(c, s', a, p) by { StableFailed(c, s, s', a, p); }
  }

  lemma {:induction false} CommitKept(c: Config, s: State, s': State, a: Alloc, p: Proc)
    requires Member(c, a, p) && MemberInv(c, s, a, p)
    requires Commit(c, s, s', a, p)
    ensures Kept(c, s, s', a, p)
  {
    var l, l' := L(s, a, p), L(s', a, p);
    assert Grows(s, s');
    assert Effect(s, s', a, p);
    assert OwnsNoOther(s', a, p) by {
      forall x: Slot ensures !HasSlot(s', p, x, Reserved(a)) && (HasSlot(s', p, x, Live(a)) ==> x == l.nextcid) {
        assert HasSlot(s', p, x, Reserved(a)) ==> HasSlot(s, p, x, Reserved(a)) && x != l.nextcid;
        assert HasSlot(s', p, x, Live(a)) ==> x == l.nextcid || HasSlot(s, p, x, Live(a));
      }
    }
    assert Values(c, s', a, p) by {
      StableMax(c, s, s', a, l.round, l.nextcid);
      StableTrue(c, s, s', a, l.round);
    }
    assert Failed(c, s', a, p) by { StableFailed(c, s, s', a, p); }
  }

  lemma {:induction false} UnregisterKept(c: Config, s: State, s': State, a: Alloc, p: Proc)
    requires Member(c, a, p) && MemberInv(c, s, a, p)
    requires Unregister(c, s, s', a, p)
    ensures Kept(c, s, s', a, p)
  {
    var l, l' := L(s, a, p), L(s', a, p);
    assert Grows(s, s');
    assert Effect(s, s', a, p);
    assert OwnsNoOther(s', a, p) by {
      assert forall x: Slot, o: Owner :: HasSlot(s', p, x, o) ==> HasSlot(s, p, x, o);
    }
    assert Values(c, s', a, p) by {
      StableMax(c, s, s', a, l.round, l.nextcid);
      StableTrue(c, s, s', a, l.round);
    }
    assert Failed(c, s', a, p) by { StableFailed(c, s, s', a, p); }
  }

  lemma {:induction false} RestartKept(c: Config, s: State, s': State, a: Alloc, p: Proc)
    requires Member(c, a, p) && MemberInv(c, s, a, p)
    requires Restart(c, s, s', a, p)
    ensures Kept(c, s, s', a, p)
  {
    var l, l' := L(s, a, p), L(s', a, p);
    assert Grows(s, s');
    assert Effect(s, s', a, p);
    assert OwnsNoOther(s', a, p) by {
      forall x: Slot ensures !HasSlot(s', p, x, Reserved(a)) && !HasSlot(s', p, x, Live(a)) {
        assert HasSlot(s', p, x, Reserved(a)) ==> HasSlot(s, p, x, Reserved(a)) && (l.response ==> x != l.nextcid);
        assert HasSlot(s', p, x, Live(a)) ==> HasSlot(s, p, x, Live(a));
      }
    }
    assert Failed(c, s', a, p) by {
      StableMin(c, s, s', a, l.round);
      StableFailed(c, s, s', a, p);
    }
  }

  lemma {:induction false} MoverKept(c: Config, s: State, s': State, a: Alloc, p: Proc)
    requires Moves(c, s, s', a, p) && MemberInv(c, s, a, p)
    ensures Kept(c, s, s', a, p)
  {
    hide MemberInv, Kept, Register, ReadStart, Admit, Skip, Take, ReceiveMax, Agree, Release, Retake, Commit, Restart, Unregister;
    if Register(c, s, s', a, p) { RegisterKept(c, s, s', a, p); }
    else if Take(c, s, s', a, p) { TakeKept(c, s, s', a, p); }
    else if ReceiveMax(c, s, s', a, p) { ReceiveKept(c, s, s', a, p); }
    else if Agree(c, s, s', a, p) { AgreeKept(c, s, s', a, p); }
    else if Release(c, s, s', a, p) { ReleaseKept(c, s, s', a, p); }
    else if Retake(c, s, s', a, p) { RetakeKept(c, s, s', a, p); }
    else if Commit(c, s, s', a, p) { CommitKept(c, s, s', a, p); }
    else if Restart(c, s, s', a, p) { RestartKept(c, s, s', a, p); }
    else if Unregister(c, s, s', a, p) { UnregisterKept(c, s, s', a, p); }
    else { EntryKept(c, s, s', a, p); }
  }

  /** A step of one member disturbs no other member. */
  lemma {:induction false} OthersKept(c: Config, s: State, s': State, a: Alloc, p: Proc, b: Alloc, q: Proc)
    requires Effect(s, s', a, p) && Grows(s, s') && (b, q) != (a, p)
    requires Member(c, b, q) && MemberInv(c, s, b, q)
    ensures MemberInv(c, s', b, q)
  {
    var l := L(s, b, q);
    assert Owns(s', b, q) by {
      assert SlotChange(s, s', a, p, q, l.nextlocal) && SlotChange(s, s', a, p, q, l.nextcid);
    }
    assert OwnsNoOther(s', b, q) by {
      forall x: Slot, o: Owner | o == Reserved(b) || o == Live(b)
        ensures HasSlot(s', q, x, o) ==> HasSlot(s, q, x, o)
      {
        assert SlotChange(s, s', a, p, q, x);
      }
    }
    assert Values(c, s', b, q) by {
      if GotMax(l) { StableMax(c, s, s', b, l.round, l.nextcid); }
      if Won(l) { StableTrue(c, s, s', b, l.round); }
    }
    StableFailed(c, s, s', b, q);
  }

  lemma {:induction false} StableTrue(c: Config, s: State, s': State, a: Alloc, r: nat)
    requires Grows(s, s') && MinTrue(c, s, a, r)
    ensures MinTrue(c, s', a, r)
  {
    StableMin(c, s, s', a, r);
  }

  lemma {:induction false} SlotsKept(c: Config, before: map<(Proc, Slot), Owner>, s: State, s': State, a: Alloc, p: Proc, q: Proc, x: Slot)
    requires Effect(s, s', a, p) && Member(c, a, p)
    requires ByMember(c, s, q, x) && ((q, x) in before <==> HasSlot(s, q, x, Other))
    ensures ByMember(c, s', q, x) && ((q, x) in before <==> HasSlot(s', q, x, Other))
  {
    assert SlotChange(s, s', a, p, q, x);
  }

  lemma {:induction false} NextInv(c: Config, before: map<(Proc, Slot), Owner>, s: State, s': State)
    requires Inv(c, before, s) && Next(c, s, s')
    ensures Inv(c, before, s') && Grows(s, s')
  {
    var a: Alloc, p: Proc :| Moves(c, s, s', a, p);
    assert Member(c, a, p);
    MoverKept(c, s, s', a, p);
    hide Moves, MemberInv, WellFormed, Effect, HasSlot, ByMember;
    forall b: Alloc, q: Proc | Member(c, b, q) ensures MemberInv(c, s', b, q) {
      if (b, q) != (a, p) { OthersKept(c, s, s', a, p, b, q); }
    }
    forall q: Proc, x: Slot ensures ByMember(c, s', q, x) && ((q, x) in before <==> HasSlot(s', q, x, Other)) {
      SlotsKept(c, before, s, s', a, p, q, x);
    }
  }

  lemma {:induction false} RunInv(c: Config, tr: seq<State>, i: nat)
    requires Run(c, tr) && i < |tr|
    ensures Inv(c, tr[0].slots, tr[i])
  {
    hide Inv, Next;
    if i == 0 {
      InitInv(c, tr[0]);
    } else {
      RunInv(c, tr, i - 1);
      assert Next(c, tr[i - 1], tr[i - 1 + 1]);
      NextInv(c, tr[0].slots, tr[i - 1], tr[i]);
    }
  }

  /** Once one member commits, every member is committed to the same id in the same
      round, has that slot, and will not get another answer. */
  lemma {:induction false} Agreement(c: Config, tr: seq<State>, i: nat, a: Alloc, p: Proc, q: Proc)
    requires Run(c, tr) && i < |tr|
    requires Member(c, a, p) && Member(c, a, q) && Won(L(tr[i], a, p))
    ensures L(tr[i], a, q).round == L(tr[i], a, p).round
    ensures L(tr[i], a, q).nextcid == L(tr[i], a, p).nextcid
    ensures (L(tr[i], a, q).pc == InMin && L(tr[i], a, q).response) || Won(L(tr[i], a, q))
    ensures HasSlot(tr[i], q, L(tr[i], a, p).nextcid, if Won(L(tr[i], a, q)) then Live(a) else Reserved(a))
  {
    RunInv(c, tr, i);
    var s := tr[i];
    var l, m := L(s, a, p), L(s, a, q);
    assert MemberInv(c, s, a, p) && MemberInv(c, s, a, q);
    assert (a, l.round, q) in s.minIn && s.minIn[(a, l.round, q)];
    assert m.round == l.round && GaveMin(m);
    MaxUnique(c, s, a, l.round, l.nextcid, m.nextcid);
  }

  lemma {:induction false} MaxUnique(c: Config, s: State, a: Alloc, r: nat, v: Slot, w: Slot)
    requires MaxIs(c, s, a, r, v) && MaxIs(c, s, a, r, w)
    ensures v == w
  {
    var q :| q in c.members[a] && (a, r, q) in s.maxIn && s.maxIn[(a, r, q)] == v;
    var u :| u in c.members[a] && (a, r, u) in s.maxIn && s.maxIn[(a, r, u)] == w;
  }

  /** Two communicators that share a process never share an id, from the moment one
      member of each has committed, and neither has the id of one that was there before. */
  lemma {:induction false} UniqueIds(c: Config, tr: seq<State>, i: nat, a: Alloc, p: Proc, b: Alloc, q: Proc, shared: Proc)
    requires Run(c, tr) && i < |tr| && a != b
    requires Member(c, a, p) && Won(L(tr[i], a, p)) && Member(c, a, shared)
    requires Member(c, b, q) && Won(L(tr[i], b, q)) && Member(c, b, shared)
    ensures L(tr[i], a, p).nextcid != L(tr[i], b, q).nextcid
    ensures (shared, L(tr[i], a, p).nextcid) !in tr[0].slots
  {
    Agreement(c, tr, i, a, p, shared);
    Agreement(c, tr, i, b, q, shared);
    RunInv(c, tr, i);
  }

  /** Every losing reservation is given back: a process with no allocation under way has
      exactly the slots it had before and one for each id it committed. */
  lemma {:induction false} NothingLeaks(c: Config, tr: seq<State>, i: nat, p: Proc, x: Slot)
    requires Run(c, tr) && i < |tr|
    requires forall a: Alloc :: Member(c, a, p) ==> L(tr[i], a, p).pc in {Idle, Committed, Done}
    ensures (p, x) in tr[i].slots <==>
              (p, x) in tr[0].slots || exists a: Alloc :: Member(c, a, p) && Won(L(tr[i], a, p)) && L(tr[i], a, p).nextcid == x
  {
    RunInv(c, tr, i);
    var s := tr[i];
    if (p, x) in s.slots && !s.slots[(p, x)].Other? {
      var a := s.slots[(p, x)].a;
      assert ByMember(c, s, p, x);
      assert MemberInv(c, s, a, p);
      assert HasSlot(s, p, x, Reserved(a)) || HasSlot(s, p, x, Live(a));
    }
    forall a: Alloc | Member(c, a, p) && Won(L(s, a, p)) && L(s, a, p).nextcid == x ensures (p, x) in s.slots {
      assert MemberInv(c, s, a, p);
    }
    assert (p, x) in tr[0].slots <==> HasSlot(s, p, x, Other);
  }
}
