/** One allocation whose processes take part in no other: both versions of the protocol
    return the smallest id that is free at every member. */
module CidLeast {
  import opened CidProtocol
  import opened CidSafety
  import opened CidProgress
  import opened CidRounds
  import opened CidSteps

  ghost predicate FreeEverywhere(c: Config, before: map<(Proc, Slot), Owner>, a: Alloc, x: Slot) {
    forall p: Proc :: Member(c, a, p) ==> (p, x) !in before
  }

  ghost predicate LeastFree(c: Config, before: map<(Proc, Slot), Owner>, a: Alloc, m: Slot) {
    FreeEverywhere(c, before, a, m) && forall x: Slot :: FreeEverywhere(c, before, a, x) ==> m <= x
  }

  /** No other allocation has a process in common with this one. */
  ghost predicate Apart(c: Config, a: Alloc) {
    forall b: Alloc, p: Proc :: Member(c, a, p) && Member(c, b, p) ==> b == a
  }

  /** What one allocation on its own keeps, besides what every run keeps. */
  ghost predicate Bounds(s: State, a: Alloc, p: Proc, m: Slot) {
    var l := L(s, a, p);
    && l.start <= m
    && (l.pc.Scanning? ==> l.pc.i <= m)
    && (l.pc in {InMax, Checking} ==> l.nextlocal <= m)
    && (GotMax(l) ==> l.nextcid <= m)
  }

  /** A member only ever gives ids that are free here and not above the answer. */
  ghost predicate GaveFree(before: map<(Proc, Slot), Owner>, s: State, a: Alloc, p: Proc, m: Slot) {
    forall r: nat :: (a, r, p) in s.maxIn ==> s.maxIn[(a, r, p)] <= m && (p, s.maxIn[(a, r, p)]) !in before
  }

  /** It agrees to the maximum of a round exactly if that was free here. */
  ghost predicate AgreesIfFree(c: Config, before: map<(Proc, Slot), Owner>, s: State, a: Alloc, p: Proc) {
    forall r: nat, v: Slot :: (a, r, p) in s.minIn && MaxIs(c, s, a, r, v) ==> (s.minIn[(a, r, p)] <==> (p, v) !in before)
  }

  ghost predicate AloneMember(c: Config, before: map<(Proc, Slot), Owner>, s: State, a: Alloc, p: Proc, m: Slot) {
    Bounds(s, a, p, m) && GaveFree(before, s, a, p, m) && AgreesIfFree(c, before, s, a, p)
  }

  ghost predicate Alone(c: Config, before: map<(Proc, Slot), Owner>, s: State, a: Alloc, m: Slot) {
    && Apart(c, a) && LeastFree(c, before, a, m)
    && forall p: Proc :: Member(c, a, p) ==> AloneMember(c, before, s, a, p, m)
  }

  lemma {:induction false} AgreesKept(c: Config, before: map<(Proc, Slot), Owner>, s: State, s': State, a: Alloc, p: Proc)
    requires Inv(c, before, s) && Grows(s, s') && Member(c, a, p)
    requires AgreesIfFree(c, before, s, a, p)
    requires forall r: nat :: (a, r, p) in s'.minIn <==> (a, r, p) in s.minIn
    ensures AgreesIfFree(c, before, s', a, p)
  {
    hide Inv, MaxIs;
    forall r: nat, v: Slot | (a, r, p) in s'.minIn && MaxIs(c, s', a, r, v) ensures s'.minIn[(a, r, p)] <==> (p, v) !in before {
      Complete(c, before, s, a, p, r);
      SameMax(c, s, s', a, r, v);
    }
  }

  lemma {:induction false} OthersAlone(c: Config, before: map<(Proc, Slot), Owner>, s: State, s': State, b: Alloc, p: Proc, a: Alloc, q: Proc, m: Slot)
    requires Inv(c, before, s) && Effect(s, s', b, p) && Grows(s, s') && (a, q) != (b, p)
    requires Member(c, a, q) && AloneMember(c, before, s, a, q, m)
    ensures AloneMember(c, before, s', a, q, m)
  {
    assert L(s', a, q) == L(s, a, q);
    AgreesKept(c, before, s, s', a, q);
  }

  /** While it scans or retries, a member has no slots but those from before. */
  lemma {:induction false} NothingElse(c: Config, before: map<(Proc, Slot), Owner>, s: State, a: Alloc, p: Proc, x: Slot)
    requires Inv(c, before, s) && Apart(c, a) && Member(c, a, p)
    requires L(s, a, p).pc in {Idle, Starting, Waiting, Retrying} || L(s, a, p).pc.Scanning?
    ensures (p, x) in s.slots <==> (p, x) in before
  {
    assert MemberInv(c, s, a, p) && OwnsNoOther(s, a, p) && ByMember(c, s, p, x);
    assert (p, x) in before <==> HasSlot(s, p, x, Other);
    assert !HasSlot(s, p, x, Reserved(a)) && !HasSlot(s, p, x, Live(a));
  }

  /** If the maximum is the answer, everyone agrees to it. */
  lemma {:induction false} LeastAgrees(c: Config, before: map<(Proc, Slot), Owner>, s: State, a: Alloc, m: Slot, r: nat)
    requires Alone(c, before, s, a, m) && MinComplete(c, s, a, r) && MaxIs(c, s, a, r, m)
    requires a in c.parent
    ensures MinTrue(c, s, a, r)
  {
    hide MaxIs;
    forall q | q in c.members[a] ensures (a, r, q) in s.minIn && s.minIn[(a, r, q)] {
      assert Member(c, a, q) && AloneMember(c, before, s, a, q, m);
      assert (a, r, q) in s.minIn;
    }
  }

  /** Until it reserves it, the answer is free at a member, so no search passes it. */
  lemma {:induction false} StartBounds(c: Config, s: State, s': State, a: Alloc, p: Proc, m: Slot)
    requires (p, m) !in s.slots && Bounds(s, a, p, m) && ReadStart(c, s, s', a, p)
    ensures Bounds(s', a, p, m)
  {
    var x: Slot :| IsLowestFree(s, p, x) && s' == With(s, a, p, L(s, a, p).(pc := Waiting, start := x));
    assert x <= m;
  }

  lemma {:induction false} ScanBounds(c: Config, s: State, s': State, a: Alloc, p: Proc, m: Slot)
    requires (p, m) !in s.slots && Bounds(s, a, p, m)
    requires Member(c, a, p) && (Register(c, s, s', a, p) || Admit(c, s, s', a, p) || Skip(c, s, s', a, p))
    ensures Bounds(s', a, p, m)
  {
    hide Registered;
  }

  lemma {:induction false} ScanAlone(c: Config, before: map<(Proc, Slot), Owner>, s: State, s': State, a: Alloc, p: Proc, m: Slot)
    requires Inv(c, before, s) && Alone(c, before, s, a, m) && Grows(s, s') && Member(c, a, p)
    requires Register(c, s, s', a, p) || ReadStart(c, s, s', a, p) || Admit(c, s, s', a, p) || Skip(c, s, s', a, p)
    ensures AloneMember(c, before, s', a, p, m)
  {
    assert AloneMember(c, before, s, a, p, m);
    assert (p, m) !in before;
    NothingElse(c, before, s, a, p, m);
    assert s'.maxIn == s.maxIn && s'.minIn == s.minIn;
    hide Inv, Alone, LeastFree, MaxIs, AgreesIfFree, Grows, Bounds, Register, ReadStart, Admit, Skip;
    AgreesKept(c, before, s, s', a, p);
    if ReadStart(c, s, s', a, p) { StartBounds(c, s, s', a, p, m); } else { ScanBounds(c, s, s', a, p, m); }
  }

  lemma {:induction false} TakeAlone(c: Config, before: map<(Proc, Slot), Owner>, s: State, s': State, a: Alloc, p: Proc, m: Slot)
    requires Inv(c, before, s) && Alone(c, before, s, a, m) && Grows(s, s') && Member(c, a, p)
    requires Take(c, s, s', a, p)
    ensures AloneMember(c, before, s', a, p, m)
  {
    assert AloneMember(c, before, s, a, p, m);
    NothingElse(c, before, s, a, p, L(s, a, p).pc.i);
    AgreesKept(c, before, s, s', a, p);
  }

  lemma {:induction false} MaxAlone(c: Config, before: map<(Proc, Slot), Owner>, s: State, s': State, a: Alloc, p: Proc, m: Slot)
    requires Inv(c, before, s) && Alone(c, before, s, a, m) && Grows(s, s') && Member(c, a, p)
    requires ReceiveMax(c, s, s', a, p) || Release(c, s, s', a, p)
    ensures AloneMember(c, before, s', a, p, m)
  {
    var l, l' := L(s, a, p), L(s', a, p);
    assert AloneMember(c, before, s, a, p, m);
    AgreesKept(c, before, s, s', a, p);
    if ReceiveMax(c, s, s', a, p) {
      var q :| q in c.members[a] && (a, l.round, q) in s.maxIn && s.maxIn[(a, l.round, q)] == l'.nextcid;
      assert Member(c, a, q) && AloneMember(c, before, s, a, q, m) && GaveFree(before, s, a, q, m);
    }
  }

  lemma {:induction false} AnswerAlone(c: Config, before: map<(Proc, Slot), Owner>, s: State, s': State, a: Alloc, p: Proc, m: Slot)
    requires Inv(c, before, s) && Alone(c, before, s, a, m) && Grows(s, s') && Member(c, a, p)
    requires Agree(c, s, s', a, p) || Retake(c, s, s', a, p)
    ensures AloneMember(c, before, s', a, p, m)
  {
    var l, l' := L(s, a, p), L(s', a, p);
    assert AloneMember(c, before, s, a, p, m);
    assert MemberInv(c, s, a, p) && Values(c, s, a, p) && Owns(s, a, p) && Gave(s, a, p);
    assert s'.minIn[(a, l.round, p)] <==> (p, l.nextcid) !in before by {
      if l.pc == Retrying {
        NothingElse(c, before, s, a, p, l.nextcid);
      } else {
        assert HasSlot(s, p, l.nextcid, Reserved(a));
        assert (p, l.nextcid) in before <==> HasSlot(s, p, l.nextcid, Other);
      }
    }
    StableMax(c, s, s', a, l.round, l.nextcid);
    hide MaxIs, Inv, Alone, MemberInv, LeastFree;
    forall r: nat, v: Slot | (a, r, p) in s'.minIn && MaxIs(c, s', a, r, v) ensures s'.minIn[(a, r, p)] <==> (p, v) !in before {
      if r == l.round {
        MaxUnique(c, s', a, r, v, l.nextcid);
      } else {
        Complete(c, before, s, a, p, r);
        SameMax(c, s, s', a, r, v);
        assert s'.minIn[(a, r, p)] == s.minIn[(a, r, p)];
      }
    }
  }

  lemma {:induction false} EndAlone(c: Config, before: map<(Proc, Slot), Owner>, s: State, s': State, a: Alloc, p: Proc, m: Slot)
    requires Inv(c, before, s) && Alone(c, before, s, a, m) && Grows(s, s') && Member(c, a, p)
    requires Commit(c, s, s', a, p) || Unregister(c, s, s', a, p)
    ensures AloneMember(c, before, s', a, p, m)
  {
    assert AloneMember(c, before, s, a, p, m);
    AgreesKept(c, before, s, s', a, p);
  }

  lemma {:induction false} RestartAlone(c: Config, before: map<(Proc, Slot), Owner>, s: State, s': State, a: Alloc, p: Proc, m: Slot)
    requires Inv(c, before, s) && Alone(c, before, s, a, m) && Grows(s, s') && Member(c, a, p)
    requires Restart(c, s, s', a, p)
    ensures AloneMember(c, before, s', a, p, m)
  {
    var l := L(s, a, p);
    assert AloneMember(c, before, s, a, p, m);
    assert MemberInv(c, s, a, p) && Values(c, s, a, p);
    assert l.nextcid < m by {
      if l.nextcid == m { LeastAgrees(c, before, s, a, m, l.round); }
    }
    AgreesKept(c, before, s, s', a, p);
  }

  lemma {:induction false} MoverAlone(c: Config, before: map<(Proc, Slot), Owner>, s: State, s': State, a: Alloc, p: Proc, m: Slot)
    requires Inv(c, before, s) && Alone(c, before, s, a, m) && Grows(s, s') && Moves(c, s, s', a, p)
    ensures AloneMember(c, before, s', a, p, m)
  {
    hide Inv, Alone, AloneMember, Grows, Register, ReadStart, Admit, Skip, Take, ReceiveMax, Agree, Release, Retake, Commit, Restart, Unregister;
    if Take(c, s, s', a, p) { TakeAlone(c, before, s, s', a, p, m); }
    else if Restart(c, s, s', a, p) { RestartAlone(c, before, s, s', a, p, m); }
    else if ReceiveMax(c, s, s', a, p) || Release(c, s, s', a, p) { MaxAlone(c, before, s, s', a, p, m); }
    else if Agree(c, s, s', a, p) || Retake(c, s, s', a, p) { AnswerAlone(c, before, s, s', a, p, m); }
    else if Commit(c, s, s', a, p) || Unregister(c, s, s', a, p) { EndAlone(c, before, s, s', a, p, m); }
    else { ScanAlone(c, before, s, s', a, p, m); }
  }

  lemma {:induction false} StepAlone(c: Config, before: map<(Proc, Slot), Owner>, s: State, s': State, b: Alloc, p: Proc, a: Alloc, m: Slot)
    requires Inv(c, before, s) && Alone(c, before, s, a, m) && Moves(c, s, s', b, p)
    ensures Alone(c, before, s', a, m)
  {
    assert MemberInv(c, s, b, p);
    MoverKept(c, s, s', b, p);
    assert Effect(s, s', b, p) && Grows(s, s');
    if b == a { MoverAlone(c, before, s, s', a, p, m); }
    hide Inv, Effect, AloneMember, Kept, Moves, Grows, LeastFree;
    forall q: Proc | Member(c, a, q) ensures AloneMember(c, before, s', a, q, m) {
      if (a, q) != (b, p) { OthersAlone(c, before, s, s', b, p, a, q, m); }
    }
  }

  /** There is an id that is free everywhere, so there is a least one. */
  lemma {:induction false} LeastExists(c: Config, before: map<(Proc, Slot), Owner>, a: Alloc) returns (m: Slot)
    ensures LeastFree(c, before, a, m)
  {
    var x := Above(before.Keys);
    assert FreeEverywhere(c, before, a, x);
    m := LeastBelow(c, before, a, x, 0);
  }

  lemma {:induction false} LeastBelow(c: Config, before: map<(Proc, Slot), Owner>, a: Alloc, x: Slot, y: Slot) returns (m: Slot)
    requires y <= x && FreeEverywhere(c, before, a, x)
    requires forall z: Slot :: z < y ==> !FreeEverywhere(c, before, a, z)
    ensures LeastFree(c, before, a, m)
    decreases x - y
  {
    hide FreeEverywhere;
    if FreeEverywhere(c, before, a, y) {
      m := y;
    } else {
      m := LeastBelow(c, before, a, x, y + 1);
    }
  }

  lemma {:induction false} RunAlone(c: Config, tr: seq<State>, i: nat, a: Alloc, m: Slot)
    requires Run(c, tr) && i < |tr| && Apart(c, a) && LeastFree(c, tr[0].slots, a, m)
    ensures Alone(c, tr[0].slots, tr[i], a, m)
  {
    if i == 0 {
      forall p: Proc | Member(c, a, p) ensures AloneMember(c, tr[0].slots, tr[0], a, p, m) {
        assert L(tr[0], a, p) == Local(Idle, 0, 0, 0, false, 0);
      }
    } else {
      RunAlone(c, tr, i - 1, a, m);
      RunInv(c, tr, i - 1);
      assert Next(c, tr[i - 1], tr[i - 1 + 1]);
      var b: Alloc, p: Proc :| Moves(c, tr[i - 1], tr[i], b, p);
      StepAlone(c, tr[0].slots, tr[i - 1], tr[i], b, p, a, m);
    }
  }

  /** Whoever commits commits the least id that was free at every member. */
  lemma {:induction false} CommitsLeast(c: Config, tr: seq<State>, i: nat, a: Alloc, p: Proc, m: Slot)
    requires Run(c, tr) && i < |tr| && Apart(c, a) && LeastFree(c, tr[0].slots, a, m)
    requires Member(c, a, p) && Won(L(tr[i], a, p))
    ensures L(tr[i], a, p).nextcid == m
  {
    var s, l := tr[i], L(tr[i], a, p);
    RunInv(c, tr, i);
    RunAlone(c, tr, i, a, m);
    assert MemberInv(c, s, a, p) && Values(c, s, a, p) && AloneMember(c, tr[0].slots, s, a, p, m);
    hide MaxIs;
    forall q: Proc | Member(c, a, q) ensures (q, l.nextcid) !in tr[0].slots {
      assert AloneMember(c, tr[0].slots, s, a, q, m);
      assert (a, l.round, q) in s.minIn && s.minIn[(a, l.round, q)];
    }
    assert FreeEverywhere(c, tr[0].slots, a, l.nextcid);
  }

  /** No proposed id is above the answer. */
  lemma {:induction false} NeverAbove(c: Config, tr: seq<State>, i: nat, a: Alloc, m: Slot, r: nat, v: Slot)
    requires Run(c, tr) && i < |tr| && Apart(c, a) && LeastFree(c, tr[0].slots, a, m)
    requires MaxIs(c, tr[i], a, r, v)
    ensures v <= m
  {
    RunAlone(c, tr, i, a, m);
    var z :| z in c.members[a] && (a, r, z) in tr[i].maxIn && tr[i].maxIn[(a, r, z)] == v;
    assert WellFormed(c) && Member(c, a, z);
    assert AloneMember(c, tr[0].slots, tr[i], a, z, m) && GaveFree(tr[0].slots, tr[i], a, z, m);
  }

  // ----- both versions finish -----

  /** There are at most as many failed rounds as the answer. */
  lemma {:induction false} FewRounds(c: Config, tr: seq<State>, i: nat, a: Alloc, p: Proc, m: Slot)
    requires Run(c, tr) && i < |tr| && Apart(c, a) && LeastFree(c, tr[0].slots, a, m) && Member(c, a, p)
    ensures L(tr[i], a, p).round <= m
  {
    var s, l := tr[i], L(tr[i], a, p);
    if l.round > 0 {
      var r := l.round - 1;
      RunInv(c, tr, i);
      RunRises(c, tr, i);
      RunAlone(c, tr, i, a, m);
      var v := MaxAtLeast(c, tr[0].slots, s, a, p, r);
      NeverAbove(c, tr, i, a, m, r, v);
      assert MemberInv(c, s, a, p) && Failed(c, s, a, p);
      assert MinComplete(c, s, a, r) && !MinTrue(c, s, a, r);
      if v == m { LeastAgrees(c, tr[0].slots, s, a, m, r); }
    }
  }

  lemma {:induction false} FitsAnswer(c: Config, tr: seq<State>, i: nat, a: Alloc, p: Proc, m: Slot)
    requires Run(c, tr) && i < |tr| && Apart(c, a) && LeastFree(c, tr[0].slots, a, m) && Member(c, a, p)
    ensures FitsAt(c, tr[i], a, p, m)
  {
    RunRises(c, tr, i);
    RunAlone(c, tr, i, a, m);
    FewRounds(c, tr, i, a, p, m);
    assert RisesAt(c, tr[i], a, p) && AloneMember(c, tr[0].slots, tr[i], a, p, m);
  }

  ghost predicate StepOf(c: Config, s: State, s': State, a: Alloc) {
    exists p: Proc :: Moves(c, s, s', a, p)
  }

  /** How many of the first i steps of a run are steps of this allocation. */
  ghost function StepsOf(c: Config, tr: seq<State>, a: Alloc, i: nat): (n: nat)
    requires i < |tr|
  {
    if i == 0 then 0 else StepsOf(c, tr, a, i - 1) + if StepOf(c, tr[i - 1], tr[i], a) then 1 else 0
  }

  ghost function Pairs(a: Alloc, ps: set<Proc>): (r: set<(Alloc, Proc)>)
    ensures forall z :: z in r <==> z.0 == a && z.1 in ps
  {
    set p | p in ps :: (a, p)
  }

  lemma {:induction false} PairsCount(a: Alloc, ps: set<Proc>)
    ensures |Pairs(a, ps)| == |ps|
  {
    if ps != {} {
      var p :| p in ps;
      PairsCount(a, ps - {p});
      assert Pairs(a, ps) == Pairs(a, ps - {p}) + {(a, p)};
    }
  }

  lemma {:induction false} StepsOfCount(c: Config, tr: seq<State>, i: nat, a: Alloc, m: Slot)
    requires Run(c, tr) && i < |tr| && Apart(c, a) && LeastFree(c, tr[0].slots, a, m) && a in c.members
    ensures AllStepsLeft(tr[i], m, Pairs(a, c.members[a])) + StepsOf(c, tr, a, i) <= AllStepsLeft(tr[0], m, Pairs(a, c.members[a]))
  {
    if i > 0 {
      StepsOfCount(c, tr, i - 1, a, m);
      RunInv(c, tr, i - 1);
      assert Next(c, tr[i - 1], tr[i - 1 + 1]);
      OneStepCounts(c, tr, i - 1, a, m);
    }
  }

  lemma {:induction false} OneStepCounts(c: Config, tr: seq<State>, i: nat, a: Alloc, m: Slot)
    requires Run(c, tr) && i + 1 < |tr| && Apart(c, a) && LeastFree(c, tr[0].slots, a, m) && a in c.members
    requires Inv(c, tr[0].slots, tr[i]) && Next(c, tr[i], tr[i + 1])
    ensures AllStepsLeft(tr[i + 1], m, Pairs(a, c.members[a])) + (if StepOf(c, tr[i], tr[i + 1], a) then 1 else 0)
         <= AllStepsLeft(tr[i], m, Pairs(a, c.members[a]))
  {
    var s, s', members := tr[i], tr[i + 1], Pairs(a, c.members[a]);
    if StepOf(c, s, s', a) {
      var p: Proc :| Moves(c, s, s', a, p);
      assert Member(c, a, p);
      FitsAnswer(c, tr, i, a, p, m);
      MoveCounts(c, tr[0].slots, s, s', a, p, m, members);
    } else {
      var b: Alloc, p: Proc :| Moves(c, s, s', b, p);
      assert Member(c, b, p) && MemberInv(c, s, b, p);
      MoverKept(c, s, s', b, p);
      SameStepsLeft(s, s', m, members);
    }
  }

  lemma {:induction false} LeftBounded(c: Config, tr: seq<State>, i: nat, a: Alloc, m: Slot)
    requires Run(c, tr) && i < |tr| && Apart(c, a) && LeastFree(c, tr[0].slots, a, m) && a in c.members
    ensures 0 <= AllStepsLeft(tr[i], m, Pairs(a, c.members[a])) <= |c.members[a]| * (m * (m + 8) + m + 10)
  {
    var members := Pairs(a, c.members[a]);
    assert WellFormed(c);
    hide FitsAt, Next, Init, LeastFree, StepsLeft;
    forall z | z in members ensures FitsAt(c, tr[i], z.0, z.1, m) {
      FitsAnswer(c, tr, i, a, z.1, m);
    }
    AllStepsLeftBounded(c, tr[i], m, members);
    PairsCount(a, c.members[a]);
  }

  /** A bound on the steps of the allocation in every run, from the number of its members
      and the answer alone; on its own, a bound on the run. */
  lemma {:induction false} RunsAreFinite(c: Config, tr: seq<State>, a: Alloc, m: Slot)
    requires Run(c, tr) && Apart(c, a) && LeastFree(c, tr[0].slots, a, m) && a in c.members
    ensures StepsOf(c, tr, a, |tr| - 1) <= |c.members[a]| * (m * (m + 8) + m + 10)
    ensures c.members.Keys == {a} ==> |tr| <= |c.members[a]| * (m * (m + 8) + m + 10) + 1
  {
    var i := |tr| - 1;
    hide StepsOf, AllStepsLeft, Next, Init, LeastFree;
    StepsOfCount(c, tr, i, a, m);
    LeftBounded(c, tr, 0, a, m);
    LeftBounded(c, tr, i, a, m);
    if c.members.Keys == {a} { OnlyItsSteps(c, tr, a, i); }
  }

  lemma {:induction false} OnlyItsSteps(c: Config, tr: seq<State>, a: Alloc, i: nat)
    requires Run(c, tr) && c.members.Keys == {a} && i < |tr|
    ensures StepsOf(c, tr, a, i) == i
  {
    if i > 0 {
      OnlyItsSteps(c, tr, a, i - 1);
      assert Next(c, tr[i - 1], tr[i - 1 + 1]);
      var b: Alloc, p: Proc :| Moves(c, tr[i - 1], tr[i], b, p);
      assert b in c.members.Keys;
    }
  }

  // ----- where it ends -----

  /** Its members have nobody to wait for: each has begun, and is alone in its list. */
  lemma {:induction false} NobodyAhead(c: Config, s: State, a: Alloc)
    requires Apart(c, a) && (forall q: Proc :: Listed(c, s, q))
    requires forall q: Proc :: Member(c, a, q) ==> !CanStep(c, s, a, q)
    ensures AllBegun(c, s, a) && AtHead(c, s, a)
  {
    forall q: Proc | Member(c, a, q) ensures L(s, a, q).pc != Idle {
      if L(s, a, q).pc == Idle {
        assert Listed(c, s, q);
        assert forall b: Alloc, n :: !ActiveAt(c, s, q, b, n);
        RegisterStep(c, s, a, q);
      }
    }
    forall q: Proc | Member(c, a, q) && Active(L(s, a, q)) ensures R(s, q) != [] && R(s, q)[0] == c.parent[a] {
      assert Listed(c, s, q) && ActiveAt(c, s, q, a, c.parent[a]);
      var n := R(s, q)[0];
      assert n in R(s, q);
      var b: Alloc :| ActiveAt(c, s, q, b, n);
      assert Member(c, b, q);
    }
  }

  /** Where none of its members can go on, whatever others do, the allocation has ended well:
      every member is done, with the least id. */
  lemma {:induction false} EndsWithLeast(c: Config, tr: seq<State>, i: nat, a: Alloc, p: Proc, m: Slot)
    requires Run(c, tr) && i < |tr| && Apart(c, a) && LeastFree(c, tr[0].slots, a, m) && m < c.limit
    requires Member(c, a, p) && forall q: Proc :: Member(c, a, q) ==> !CanStep(c, tr[i], a, q)
    ensures L(tr[i], a, p).pc == Done && L(tr[i], a, p).nextcid == m
  {
    var s := tr[i];
    RunInv(c, tr, i);
    RunAlone(c, tr, i, a, m);
    forall q: Proc ensures Listed(c, s, q) { RunListed(c, tr, i, q); }
    forall q: Proc | Member(c, a, q) && L(s, a, q).pc.Scanning? ensures L(s, a, q).pc.i < c.limit {
      assert AloneMember(c, tr[0].slots, s, a, q, m) && Bounds(s, a, q, m);
    }
    hide AloneMember, LeastFree, CanStep, Next, Inv, Listed;
    NobodyAhead(c, s, a);
    if L(s, a, p).pc != Done {
      var q := SomeoneSteps(c, tr[0].slots, s, a, p);
      assert false;
    }
    CommitsLeast(c, tr, i, a, p, m);
  }
}
