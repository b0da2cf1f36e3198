/** The rounds of the agreement in every run, whatever the other allocations do: the
    proposed id rises, so there are fewer rounds than ids, and every run is finite. */
module CidRounds {
  import opened CidProtocol
  import opened CidSafety
  import opened CidProgress

  ghost predicate MaxComplete(c: Config, s: State, a: Alloc, r: nat) {
    a in c.members && forall q :: q in c.members[a] ==> (a, r, q) in s.maxIn
  }

  /** Whoever has answered in a round, or is in a later one, has seen it complete. */
  lemma {:induction false} Complete(c: Config, before: map<(Proc, Slot), Owner>, s: State, a: Alloc, p: Proc, r: nat)
    requires Inv(c, before, s) && Member(c, a, p)
    requires r < L(s, a, p).round || (a, r, p) in s.minIn
    ensures MaxComplete(c, s, a, r)
  {
    var l := L(s, a, p);
    assert MemberInv(c, s, a, p);
    if r < l.round {
      assert MinComplete(c, s, a, r);
      forall q | q in c.members[a] ensures (a, r, q) in s.maxIn {
        assert Member(c, a, q) && MemberInv(c, s, a, q) && Gave(s, a, q);
        assert (a, r, q) in s.minIn;
      }
    }
  }

  lemma {:induction false} SameMax(c: Config, s: State, s': State, a: Alloc, r: nat, v: Slot)
    requires Grows(s, s') && MaxComplete(c, s, a, r)
    ensures MaxIs(c, s', a, r, v) <==> MaxIs(c, s, a, r, v)
  {
    if MaxIs(c, s', a, r, v) {
      var q :| q in c.members[a] && (a, r, q) in s'.maxIn && s'.maxIn[(a, r, q)] == v;
      assert (a, r, q) in s.maxIn && s.maxIn[(a, r, q)] == v;
      forall z | z in c.members[a] ensures (a, r, z) in s.maxIn && s.maxIn[(a, r, z)] <= v {
        assert s.maxIn[(a, r, z)] == s'.maxIn[(a, r, z)];
      }
    }
    if MaxIs(c, s, a, r, v) { StableMax(c, s, s', a, r, v); }
  }

  // ----- what every run keeps of the rounds -----

  /** A member never goes back behind its start. */
  ghost predicate Ahead(s: State, a: Alloc, p: Proc) {
    var l := L(s, a, p);
    && (l.pc in {Idle, Starting} ==> l.round == 0)
    && (l.pc.Scanning? ==> l.start <= l.pc.i)
    && (l.pc in {InMax, Checking, Retrying} ==>
          l.start <= l.nextlocal && (a, l.round, p) in s.maxIn && s.maxIn[(a, l.round, p)] == l.nextlocal)
    && (GotMax(l) ==> l.start <= l.nextcid)
    && (l.pc == Retrying ==> l.nextlocal != l.nextcid)
  }

  ghost predicate GaveIds(c: Config, s: State, a: Alloc, p: Proc) {
    forall r: nat :: (a, r, p) in s.maxIn ==> s.maxIn[(a, r, p)] < c.limit
  }

  ghost predicate GaveTop(c: Config, s: State, a: Alloc, p: Proc, r: nat) {
    (a, r, p) in s.maxIn && MaxIs(c, s, a, r, s.maxIn[(a, r, p)])
  }

  /** The member that gave the maximum of a round agrees to it: it has reserved that slot. */
  ghost predicate AgreesToOwn(c: Config, s: State, a: Alloc, p: Proc) {
    forall r: nat :: (a, r, p) in s.minIn && GaveTop(c, s, a, p, r) ==> s.minIn[(a, r, p)]
  }

  /** It starts behind that id ever after. */
  ghost predicate StartsBehind(c: Config, s: State, a: Alloc, p: Proc) {
    forall r: nat :: r < L(s, a, p).round && GaveTop(c, s, a, p, r) ==> s.maxIn[(a, r, p)] < L(s, a, p).start
  }

  ghost predicate GivesMore(c: Config, s: State, a: Alloc, p: Proc) {
    forall r: nat, r': nat :: r < r' && GaveTop(c, s, a, p, r) && (a, r', p) in s.maxIn ==> s.maxIn[(a, r, p)] < s.maxIn[(a, r', p)]
  }

  ghost predicate RisesAt(c: Config, s: State, a: Alloc, p: Proc) {
    Ahead(s, a, p) && GaveIds(c, s, a, p) && AgreesToOwn(c, s, a, p) && StartsBehind(c, s, a, p) && GivesMore(c, s, a, p)
  }

  ghost predicate Rises(c: Config, s: State) {
    forall a: Alloc, p: Proc :: Member(c, a, p) ==> RisesAt(c, s, a, p)
  }

  /** Nothing changes about who gave the maximum of a round that a member has left behind. */
  lemma {:induction false} SameTop(c: Config, before: map<(Proc, Slot), Owner>, s: State, s': State, a: Alloc, p: Proc, r: nat)
    requires Inv(c, before, s) && Grows(s, s') && Member(c, a, p)
    requires r < L(s, a, p).round || (a, r, p) in s.minIn
    ensures (a, r, p) in s.maxIn && s'.maxIn[(a, r, p)] == s.maxIn[(a, r, p)]
    ensures GaveTop(c, s', a, p, r) <==> GaveTop(c, s, a, p, r)
  {
    Complete(c, before, s, a, p, r);
    SameMax(c, s, s', a, r, s.maxIn[(a, r, p)]);
  }

  /** A member keeps its history when it gives nothing new. */
  lemma {:induction false} HistoryKept(c: Config, before: map<(Proc, Slot), Owner>, s: State, s': State, a: Alloc, p: Proc)
    requires Inv(c, before, s) && Grows(s, s') && Member(c, a, p)
    requires GaveIds(c, s, a, p) && StartsBehind(c, s, a, p) && GivesMore(c, s, a, p)
    requires forall r: nat :: (a, r, p) in s'.maxIn <==> (a, r, p) in s.maxIn
    requires L(s', a, p).round == L(s, a, p).round
    requires L(s', a, p).start == L(s, a, p).start || L(s, a, p).round == 0
    ensures GaveIds(c, s', a, p) && StartsBehind(c, s', a, p) && GivesMore(c, s', a, p)
  {
    assert MemberInv(c, s, a, p);
    assert Gave(s, a, p);
    hide Inv, MemberInv, MaxIs, GaveTop;
    forall r: nat | r < L(s', a, p).round && GaveTop(c, s', a, p, r)
      ensures s'.maxIn[(a, r, p)] < L(s', a, p).start
    {
      SameTop(c, before, s, s', a, p, r);
    }
    forall r: nat, r': nat | r < r' && GaveTop(c, s', a, p, r) && (a, r', p) in s'.maxIn
      ensures s'.maxIn[(a, r, p)] < s'.maxIn[(a, r', p)]
    {
      SameTop(c, before, s, s', a, p, r);
    }
  }

  lemma {:induction false} AnswersKept(c: Config, before: map<(Proc, Slot), Owner>, s: State, s': State, a: Alloc, p: Proc)
    requires Inv(c, before, s) && Grows(s, s') && Member(c, a, p) && AgreesToOwn(c, s, a, p)
    requires forall r: nat :: (a, r, p) in s'.minIn <==> (a, r, p) in s.minIn
    ensures AgreesToOwn(c, s', a, p)
  {
    hide Inv, MaxIs, GaveTop;
    forall r: nat | (a, r, p) in s'.minIn && GaveTop(c, s', a, p, r) ensures s'.minIn[(a, r, p)] {
      SameTop(c, before, s, s', a, p, r);
    }
  }

  lemma {:induction false} OthersRise(c: Config, before: map<(Proc, Slot), Owner>, s: State, s': State, a: Alloc, p: Proc, b: Alloc, q: Proc)
    requires Inv(c, before, s) && Effect(s, s', a, p) && Grows(s, s') && (b, q) != (a, p)
    requires Member(c, b, q) && RisesAt(c, s, b, q)
    ensures RisesAt(c, s', b, q)
  {
    assert L(s', b, q) == L(s, b, q);
    HistoryKept(c, before, s, s', b, q);
    AnswersKept(c, before, s, s', b, q);
  }

  lemma {:induction false} EntryRises(c: Config, before: map<(Proc, Slot), Owner>, s: State, s': State, a: Alloc, p: Proc)
    requires Inv(c, before, s) && Grows(s, s') && Member(c, a, p) && RisesAt(c, s, a, p)
    requires Register(c, s, s', a, p) || ReadStart(c, s, s', a, p) || Admit(c, s, s', a, p) || Skip(c, s, s', a, p)
    ensures RisesAt(c, s', a, p)
  {
    AnswersKept(c, before, s, s', a, p);
    HistoryKept(c, before, s, s', a, p);
  }

  lemma {:induction false} TakeRises(c: Config, before: map<(Proc, Slot), Owner>, s: State, s': State, a: Alloc, p: Proc)
    requires Inv(c, before, s) && Grows(s, s') && Member(c, a, p) && RisesAt(c, s, a, p)
    requires Take(c, s, s', a, p)
    ensures RisesAt(c, s', a, p)
  {
    var l := L(s, a, p);
    AnswersKept(c, before, s, s', a, p);
    assert MemberInv(c, s, a, p) && Gave(s, a, p);
    hide MaxIs, Inv, MemberInv, AgreesToOwn, GaveTop;
    forall r: nat | r < l.round && GaveTop(c, s', a, p, r) ensures s'.maxIn[(a, r, p)] < l.start {
      SameTop(c, before, s, s', a, p, r);
    }
    assert StartsBehind(c, s', a, p);
    forall r: nat, r': nat | r < r' && GaveTop(c, s', a, p, r) && (a, r', p) in s'.maxIn
      ensures s'.maxIn[(a, r, p)] < s'.maxIn[(a, r', p)]
    {
      assert r' <= l.round;
      SameTop(c, before, s, s', a, p, r);
      if r' < l.round { assert s'.maxIn[(a, r', p)] == s.maxIn[(a, r', p)]; }
    }
  }

  lemma {:induction false} MaxRises(c: Config, before: map<(Proc, Slot), Owner>, s: State, s': State, a: Alloc, p: Proc)
    requires Inv(c, before, s) && Grows(s, s') && Member(c, a, p) && RisesAt(c, s, a, p)
    requires ReceiveMax(c, s, s', a, p) || Release(c, s, s', a, p)
    ensures RisesAt(c, s', a, p)
  {
    AnswersKept(c, before, s, s', a, p);
    HistoryKept(c, before, s, s', a, p);
  }

  lemma {:induction false} AnswerRises(c: Config, before: map<(Proc, Slot), Owner>, s: State, s': State, a: Alloc, p: Proc)
    requires Inv(c, before, s) && Grows(s, s') && Member(c, a, p) && RisesAt(c, s, a, p)
    requires Agree(c, s, s', a, p) || Retake(c, s, s', a, p)
    ensures RisesAt(c, s', a, p)
  {
    var l := L(s, a, p);
    assert MemberInv(c, s, a, p) && Values(c, s, a, p);
    HistoryKept(c, before, s, s', a, p);
    assert Ahead(s', a, p);
    StableMax(c, s, s', a, l.round, l.nextcid);
    forall r: nat | (a, r, p) in s'.minIn && GaveTop(c, s', a, p, r) ensures s'.minIn[(a, r, p)] {
      if r == l.round {
        MaxUnique(c, s', a, r, s'.maxIn[(a, r, p)], l.nextcid);
      } else {
        SameTop(c, before, s, s', a, p, r);
        assert s'.minIn[(a, r, p)] == s.minIn[(a, r, p)];
      }
    }
  }

  lemma {:induction false} EndRises(c: Config, before: map<(Proc, Slot), Owner>, s: State, s': State, a: Alloc, p: Proc)
    requires Inv(c, before, s) && Grows(s, s') && Member(c, a, p) && RisesAt(c, s, a, p)
    requires Commit(c, s, s', a, p) || Unregister(c, s, s', a, p)
    ensures RisesAt(c, s', a, p)
  {
    AnswersKept(c, before, s, s', a, p);
    HistoryKept(c, before, s, s', a, p);
  }

  lemma {:induction false} RestartRises(c: Config, before: map<(Proc, Slot), Owner>, s: State, s': State, a: Alloc, p: Proc)
    requires Inv(c, before, s) && Grows(s, s') && Member(c, a, p) && RisesAt(c, s, a, p)
    requires Restart(c, s, s', a, p)
    ensures RisesAt(c, s', a, p)
  {
    var l, l' := L(s, a, p), L(s', a, p);
    assert MemberInv(c, s, a, p) && Values(c, s, a, p) && Gave(s, a, p);
    AnswersKept(c, before, s, s', a, p);
    assert s'.maxIn == s.maxIn && l'.start >= l.start;
    hide Inv, MemberInv;
    forall r: nat | r < l'.round && GaveTop(c, s', a, p, r) ensures s'.maxIn[(a, r, p)] < l'.start {
      SameTop(c, before, s, s', a, p, r);
      if r == l.round {
        MaxUnique(c, s, a, r, s.maxIn[(a, r, p)], l.nextcid);
        assert s.minIn[(a, r, p)] == l.response;
      }
    }
    assert StartsBehind(c, s', a, p);
    forall r: nat, r': nat | r < r' && GaveTop(c, s', a, p, r) && (a, r', p) in s'.maxIn
      ensures s'.maxIn[(a, r, p)] < s'.maxIn[(a, r', p)]
    {
      SameTop(c, before, s, s', a, p, r);
    }
  }

  lemma {:induction false} MoverRises(c: Config, before: map<(Proc, Slot), Owner>, s: State, s': State, a: Alloc, p: Proc)
    requires Inv(c, before, s) && Grows(s, s') && Moves(c, s, s', a, p) && RisesAt(c, s, a, p)
    ensures RisesAt(c, s', a, p)
  {
    hide Inv, RisesAt, Grows, Register, ReadStart, Admit, Skip, Take, ReceiveMax, Agree, Release, Retake, Commit, Restart, Unregister;
    if Take(c, s, s', a, p) { TakeRises(c, before, s, s', a, p); }
    else if Restart(c, s, s', a, p) { RestartRises(c, before, s, s', a, p); }
    else if ReceiveMax(c, s, s', a, p) || Release(c, s, s', a, p) { MaxRises(c, before, s, s', a, p); }
    else if Agree(c, s, s', a, p) || Retake(c, s, s', a, p) { AnswerRises(c, before, s, s', a, p); }
    else if Commit(c, s, s', a, p) || Unregister(c, s, s', a, p) { EndRises(c, before, s, s', a, p); }
    else { EntryRises(c, before, s, s', a, p); }
  }

  lemma {:induction false} NextRises(c: Config, before: map<(Proc, Slot), Owner>, s: State, s': State)
    requires Inv(c, before, s) && Next(c, s, s') && Rises(c, s)
    ensures Rises(c, s')
  {
    var a: Alloc, p: Proc :| Moves(c, s, s', a, p);
    assert Member(c, a, p) && MemberInv(c, s, a, p);
    MoverKept(c, s, s', a, p);
    assert Effect(s, s', a, p) && Grows(s, s');
    hide Inv, Effect, RisesAt, Kept, Moves, Grows, MemberInv, Next;
    MoverRises(c, before, s, s', a, p);
    forall b: Alloc, q: Proc | Member(c, b, q) ensures RisesAt(c, s', b, q) {
      if (b, q) != (a, p) { OthersRise(c, before, s, s', a, p, b, q); }
    }
  }

  lemma {:induction false} StartRises(c: Config, s: State)
    requires Init(c, s)
    ensures Rises(c, s)
  {
    assert forall a: Alloc, p: Proc :: L(s, a, p) == Local(Idle, 0, 0, 0, false, 0);
  }

  lemma {:induction false} RunRises(c: Config, tr: seq<State>, i: nat)
    requires Run(c, tr) && i < |tr|
    ensures Rises(c, tr[i])
  {
    hide Rises, Inv, Next, Init, WellFormed;
    if i == 0 {
      StartRises(c, tr[0]);
    } else {
      RunRises(c, tr, i - 1);
      RunInv(c, tr, i - 1);
      assert Next(c, tr[i - 1], tr[i - 1 + 1]);
      NextRises(c, tr[0].slots, tr[i - 1], tr[i]);
    }
  }

  /** The proposed id rises from round to round in every run, whatever else is allocated,
      in the non-blocking version too, and stays a possible id. */
  lemma {:induction false} MaximumRises(c: Config, tr: seq<State>, i: nat, a: Alloc, r: nat, v: Slot, r': nat, v': Slot)
    requires Run(c, tr) && i < |tr|
    requires MaxIs(c, tr[i], a, r, v) && MaxIs(c, tr[i], a, r', v') && r < r'
    ensures v < v' < c.limit
  {
    RunRises(c, tr, i);
    RisesIn(c, tr[i], a, r, v, r', v');
  }

  lemma {:induction false} RisesIn(c: Config, s: State, a: Alloc, r: nat, v: Slot, r': nat, v': Slot)
    requires Rises(c, s) && WellFormed(c)
    requires MaxIs(c, s, a, r, v) && MaxIs(c, s, a, r', v') && r < r'
    ensures v < v' < c.limit
  {
    var q :| q in c.members[a] && (a, r, q) in s.maxIn && s.maxIn[(a, r, q)] == v;
    assert Member(c, a, q) && RisesAt(c, s, a, q) && GivesMore(c, s, a, q) && GaveTop(c, s, a, q, r);
    assert (a, r', q) in s.maxIn;
    var z :| z in c.members[a] && (a, r', z) in s.maxIn && s.maxIn[(a, r', z)] == v';
    assert Member(c, a, z) && RisesAt(c, s, a, z) && GaveIds(c, s, a, z);
  }

  /** A round that is over has a maximum of at least its number. */
  lemma {:induction false} MaxAtLeast(c: Config, before: map<(Proc, Slot), Owner>, s: State, a: Alloc, p: Proc, r: nat) returns (v: Slot)
    requires Inv(c, before, s) && Rises(c, s) && Member(c, a, p) && r < L(s, a, p).round
    ensures MaxIs(c, s, a, r, v) && r <= v < c.limit
  {
    Complete(c, before, s, a, p, r);
    v := MaxExists(c, s, a, r, c.members[a]);
    assert MaxIs(c, s, a, r, v);
    var q :| q in c.members[a] && (a, r, q) in s.maxIn && s.maxIn[(a, r, q)] == v;
    assert Member(c, a, q) && RisesAt(c, s, a, q) && GaveIds(c, s, a, q);
    hide Inv, Rises, MaxIs;
    if r > 0 {
      var u := MaxAtLeast(c, before, s, a, p, r - 1);
      assert WellFormed(c) by { InvWellFormed(c, before, s); }
      RisesIn(c, s, a, r - 1, u, r, v);
    }
  }

  lemma {:induction false} InvWellFormed(c: Config, before: map<(Proc, Slot), Owner>, s: State)
    requires Inv(c, before, s)
    ensures WellFormed(c)
  {
  }

  /** So there are at most as many rounds as ids. */
  lemma {:induction false} RoundsBounded(c: Config, tr: seq<State>, i: nat, a: Alloc, p: Proc)
    requires Run(c, tr) && i < |tr| && Member(c, a, p)
    ensures L(tr[i], a, p).round <= c.limit
  {
    RunInv(c, tr, i);
    RunRises(c, tr, i);
    if L(tr[i], a, p).round > 0 {
      var v := MaxAtLeast(c, tr[0].slots, tr[i], a, p, L(tr[i], a, p).round - 1);
    }
  }
}
