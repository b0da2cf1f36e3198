/** Every run of the agreement is finite, and where it cannot go on everybody is done. */
module CidSteps {
  import opened CidProtocol
  import opened CidSafety
  import opened CidProgress
  import opened CidRounds

  ghost function RoundsLeft(m: nat, r: nat): (n: int) {
    (m - r) * (m + 8)
  }

  lemma {:induction false} RoundsLeftMeaning(m: nat, r: nat)
    requires r <= m
    ensures 0 <= RoundsLeft(m, r) <= RoundsLeft(m, 0)
    ensures RoundsLeft(m, r + 1) == RoundsLeft(m, r) - (m + 8)
  {
    assert (m - r) * (m + 8) + r * (m + 8) == m * (m + 8);
    assert (m - (r + 1)) * (m + 8) + (m + 8) == (m - r) * (m + 8);
  }

  /** How many more steps one member can take, if it makes at most m rounds and does not
      look beyond slot m. */
  ghost function StepsLeft(l: Local, m: Slot): (n: int) {
    match l.pc
    case Idle => RoundsLeft(m, 0) + m + 10
    case Starting => RoundsLeft(m, 0) + m + 9
    case Waiting => RoundsLeft(m, l.round) + m + 8
    case Scanning(i) => RoundsLeft(m, l.round) + 7 + if i <= m then m - i else -1
    case InMax => RoundsLeft(m, l.round) + 6
    case Checking => RoundsLeft(m, l.round) + 5
    case Retrying => RoundsLeft(m, l.round) + 4
    case InMin => RoundsLeft(m, l.round) + 3
    case Committed => 1
    case Done => 0
  }

  ghost predicate FitsAt(c: Config, s: State, a: Alloc, p: Proc, m: Slot) {
    var l := L(s, a, p);
    && l.round <= m
    && (l.pc in {Idle, Starting} ==> l.round == 0)
    && (l.pc.Scanning? && l.pc.i < c.limit ==> l.pc.i <= m)
  }

  ghost predicate Fits(c: Config, s: State, m: Slot) {
    forall a: Alloc, p: Proc :: Member(c, a, p) ==> FitsAt(c, s, a, p, m)
  }

  lemma {:induction false} StepsLeftBounded(c: Config, s: State, a: Alloc, p: Proc, m: Slot)
    requires FitsAt(c, s, a, p, m)
    ensures 0 <= StepsLeft(L(s, a, p), m) <= RoundsLeft(m, 0) + m + 10
  {
    RoundsLeftMeaning(m, L(s, a, p).round);
    RoundsLeftMeaning(m, 0);
    hide RoundsLeft;
  }

  /** How the place of a member in the program changes with a step. */
  ghost predicate LocalMove(c: Config, l: Local, l': Local) {
    || (l.pc == Idle && l'.pc == Starting && l'.round == l.round)
    || (l.pc == Starting && l'.pc == Waiting && l'.round == l.round)
    || (l.pc == Waiting && l'.pc == Scanning(l.start) && l'.round == l.round)
    || (l.pc.Scanning? && l.pc.i < c.limit && l'.pc == Scanning(l.pc.i + 1) && l'.round == l.round)
    || (l.pc.Scanning? && l.pc.i < c.limit && l'.pc == InMax && l'.round == l.round)
    || (l.pc == InMax && l'.pc == Checking && l'.round == l.round)
    || (l.pc == Checking && l'.pc in {InMin, Retrying} && l'.round == l.round)
    || (l.pc == Retrying && l'.pc == InMin && l'.round == l.round)
    || (l.pc == InMin && l'.pc == Committed)
    || (l.pc == InMin && l'.pc == Waiting && l'.round == l.round + 1)
    || (l.pc == Committed && l'.pc == Done)
  }

  lemma {:induction false} EarlyMoves(c: Config, s: State, s': State, a: Alloc, p: Proc)
    requires Member(c, a, p)
    requires Register(c, s, s', a, p) || ReadStart(c, s, s', a, p) || Admit(c, s, s', a, p) || Skip(c, s, s', a, p)
          || Take(c, s, s', a, p) || ReceiveMax(c, s, s', a, p)
    ensures LocalMove(c, L(s, a, p), L(s', a, p))
  {
    hide MaxIs, IsLowestFree, Registered;
  }

  lemma {:induction false} LateMoves(c: Config, s: State, s': State, a: Alloc, p: Proc)
    requires Member(c, a, p)
    requires Agree(c, s, s', a, p) || Release(c, s, s', a, p) || Retake(c, s, s', a, p)
          || Commit(c, s, s', a, p) || Restart(c, s, s', a, p) || Unregister(c, s, s', a, p)
    ensures LocalMove(c, L(s, a, p), L(s', a, p))
  {
    hide MinTrue, MinComplete, Unregistered;
  }

  lemma {:induction false} LocalMoves(c: Config, s: State, s': State, a: Alloc, p: Proc)
    requires Moves(c, s, s', a, p)
    ensures LocalMove(c, L(s, a, p), L(s', a, p))
  {
    hide LocalMove, Register, ReadStart, Admit, Skip, Take, ReceiveMax, Agree, Release, Retake, Commit, Restart, Unregister;
    if Register(c, s, s', a, p) || ReadStart(c, s, s', a, p) || Admit(c, s, s', a, p) || Skip(c, s, s', a, p)
      || Take(c, s, s', a, p) || ReceiveMax(c, s, s', a, p) {
      EarlyMoves(c, s, s', a, p);
    } else {
      LateMoves(c, s, s', a, p);
    }
  }

  lemma {:induction false} LocalMoveCounts(c: Config, s: State, a: Alloc, p: Proc, l': Local, m: Slot)
    requires FitsAt(c, s, a, p, m) && LocalMove(c, L(s, a, p), l')
    ensures StepsLeft(l', m) < StepsLeft(L(s, a, p), m)
  {
    RoundsLeftMeaning(m, L(s, a, p).round);
    hide RoundsLeft;
  }

  // ----- all members together -----

  ghost function MembersOf(c: Config): set<(Alloc, Proc)> {
    set a, p | a in c.members && p in c.members[a] :: (a, p)
  }

  ghost function AllStepsLeft(s: State, m: Slot, left: set<(Alloc, Proc)>): (n: int)
    decreases |left|
  {
    if left == {} then 0 else var z :| z in left; StepsLeft(L(s, z.0, z.1), m) + AllStepsLeft(s, m, left - {z})
  }

  lemma {:induction false} AnyMemberFirst(s: State, m: Slot, left: set<(Alloc, Proc)>, z: (Alloc, Proc))
    requires z in left
    ensures AllStepsLeft(s, m, left) == StepsLeft(L(s, z.0, z.1), m) + AllStepsLeft(s, m, left - {z})
    decreases |left|
  {
    hide StepsLeft;
    var y :| y in left && AllStepsLeft(s, m, left) == StepsLeft(L(s, y.0, y.1), m) + AllStepsLeft(s, m, left - {y});
    if y != z {
      AnyMemberFirst(s, m, left - {y}, z);
      AnyMemberFirst(s, m, left - {z}, y);
      assert left - {y} - {z} == left - {z} - {y};
    }
  }

  lemma {:induction false} SameStepsLeft(s: State, s': State, m: Slot, left: set<(Alloc, Proc)>)
    requires forall z :: z in left ==> L(s', z.0, z.1) == L(s, z.0, z.1)
    ensures AllStepsLeft(s', m, left) == AllStepsLeft(s, m, left)
    decreases |left|
  {
    hide StepsLeft;
    if left != {} {
      var z :| z in left;
      AnyMemberFirst(s, m, left, z);
      AnyMemberFirst(s', m, left, z);
      SameStepsLeft(s, s', m, left - {z});
    }
  }

  lemma {:induction false} AllStepsLeftBounded(c: Config, s: State, m: Slot, left: set<(Alloc, Proc)>)
    requires forall z :: z in left ==> FitsAt(c, s, z.0, z.1, m)
    ensures 0 <= AllStepsLeft(s, m, left) <= |left| * (RoundsLeft(m, 0) + m + 10)
    decreases |left|
  {
    hide StepsLeft, FitsAt, RoundsLeft;
    if left != {} {
      var z :| z in left;
      AnyMemberFirst(s, m, left, z);
      StepsLeftBounded(c, s, z.0, z.1, m);
      AllStepsLeftBounded(c, s, m, left - {z});
      var k := RoundsLeft(m, 0) + m + 10;
      assert |left| == |left - {z}| + 1;
      assert (|left - {z}| + 1) * k == |left - {z}| * k + k;
    }
  }

  lemma {:induction false} MoveCounts(c: Config, before: map<(Proc, Slot), Owner>, s: State, s': State, a: Alloc, p: Proc, m: Slot,
      members: set<(Alloc, Proc)>)
    requires Inv(c, before, s) && Moves(c, s, s', a, p) && FitsAt(c, s, a, p, m) && (a, p) in members
    ensures AllStepsLeft(s', m, members) < AllStepsLeft(s, m, members)
  {
    assert Member(c, a, p) && MemberInv(c, s, a, p);
    MoverKept(c, s, s', a, p);
    assert Effect(s, s', a, p);
    LocalMoves(c, s, s', a, p);
    LocalMoveCounts(c, s, a, p, L(s', a, p), m);
    var z := (a, p);
    hide Inv, Moves, MemberInv, StepsLeft, LocalMove, FitsAt;
    AnyMemberFirst(s, m, members, z);
    AnyMemberFirst(s', m, members, z);
    SameStepsLeft(s, s', m, members - {z});
  }

  lemma {:induction false} RunCounts(c: Config, tr: seq<State>, i: nat, m: Slot)
    requires Run(c, tr) && i < |tr| && forall k :: 0 <= k < |tr| ==> Fits(c, tr[k], m)
    ensures AllStepsLeft(tr[i], m, MembersOf(c)) + i <= AllStepsLeft(tr[0], m, MembersOf(c))
  {
    hide Inv, FitsAt;
    if i > 0 {
      RunCounts(c, tr, i - 1, m);
      RunInv(c, tr, i - 1);
      assert Next(c, tr[i - 1], tr[i - 1 + 1]);
      var a: Alloc, p: Proc :| Moves(c, tr[i - 1], tr[i], a, p);
      assert Member(c, a, p) && FitsAt(c, tr[i - 1], a, p, m);
      MoveCounts(c, tr[0].slots, tr[i - 1], tr[i], a, p, m, MembersOf(c));
    }
  }

  lemma {:induction false} FittingRuns(c: Config, tr: seq<State>, m: Slot)
    requires Run(c, tr) && forall k :: 0 <= k < |tr| ==> Fits(c, tr[k], m)
    ensures |tr| <= |MembersOf(c)| * (m * (m + 8) + m + 10) + 1
  {
    var last := |tr| - 1;
    assert forall z :: z in MembersOf(c) ==> Member(c, z.0, z.1) by { assert WellFormed(c); }
    RunCounts(c, tr, last, m);
    AllStepsLeftBounded(c, tr[0], m, MembersOf(c));
    AllStepsLeftBounded(c, tr[last], m, MembersOf(c));
  }

  lemma {:induction false} AlwaysFits(c: Config, tr: seq<State>, i: nat)
    requires Run(c, tr) && i < |tr|
    ensures Fits(c, tr[i], c.limit)
  {
    RunRises(c, tr, i);
    forall a: Alloc, p: Proc | Member(c, a, p) ensures FitsAt(c, tr[i], a, p, c.limit) {
      RoundsBounded(c, tr, i, a, p);
      assert RisesAt(c, tr[i], a, p);
    }
  }

  /** Every run of any allocations is finite: a bound from the members and the number of ids. */
  lemma {:induction false} RunsEnd(c: Config, tr: seq<State>)
    requires Run(c, tr)
    ensures |tr| <= |MembersOf(c)| * (c.limit * (c.limit + 8) + c.limit + 10) + 1
  {
    forall k | 0 <= k < |tr| ensures Fits(c, tr[k], c.limit) { AlwaysFits(c, tr, k); }
    FittingRuns(c, tr, c.limit);
  }

  // ----- where runs end -----

  ghost predicate Stuck(c: Config, s: State) {
    forall a: Alloc, p: Proc :: Member(c, a, p) ==> !CanStep(c, s, a, p)
  }

  ghost predicate EnoughIds(c: Config, s: State) {
    forall a: Alloc :: IdsLeft(c, s, a)
  }

  lemma {:induction false} StuckIsTried(c: Config, s: State, a: Alloc)
    requires Stuck(c, s)
    ensures Tried(c, s, a)
  {
    forall p: Proc | Member(c, a, p) ensures L(s, a, p).pc != Idle || c.parent[a] in R(s, p) {
      if L(s, a, p).pc == Idle && c.parent[a] !in R(s, p) { RegisterStep(c, s, a, p); }
    }
  }

  lemma {:induction false} RegisterStep(c: Config, s: State, a: Alloc, p: Proc)
    requires Member(c, a, p) && L(s, a, p).pc == Idle && c.parent[a] !in R(s, p)
    ensures CanStep(c, s, a, p)
  {
    var s' := With(s.(regs := s.regs[p := Registered(R(s, p), c.parent[a])]), a, p, L(s, a, p).(pc := Starting));
    assert Register(c, s, s', a, p);
    assert Moves(c, s, s', a, p);
  }

  /** A run of any number of overlapping allocations that cannot go on has ended with every
      member of every allocation done, if ids suffice and each process takes its allocations
      on one communicator id in a common order. */
  lemma {:induction false} EndsDone(c: Config, tr: seq<State>, order: Alloc -> nat, a: Alloc, p: Proc)
    requires Run(c, tr) && Stuck(c, tr[|tr| - 1]) && InTurn(c, tr[|tr| - 1], order)
    requires EnoughIds(c, tr[|tr| - 1])
    requires Member(c, a, p)
    ensures L(tr[|tr| - 1], a, p).pc == Done
  {
    var i, s := |tr| - 1, tr[|tr| - 1];
    hide InTurn, IdsLeft, CanStep, Tried, Next, AtHead;
    forall b: Alloc ensures Tried(c, s, b) { StuckIsTried(c, s, b); }
    if some: Alloc :| Pending(c, s, some) {
      NoDeadlockInTurn(c, tr, i, order, some);
      assert false;
    }
    if L(s, a, p).pc != Done {
      RunListed(c, tr, i, p);
      NoPendingBegins(c, s, a, p);
    }
  }

  lemma {:induction false} NoPendingBegins(c: Config, s: State, a: Alloc, p: Proc)
    requires Listed(c, s, p) && Tried(c, s, a) && Member(c, a, p) && L(s, a, p).pc != Done
    ensures exists b: Alloc :: Pending(c, s, b)
  {
    hide Increasing;
    if L(s, a, p).pc == Idle {
      var b: Alloc :| ActiveAt(c, s, p, b, c.parent[a]);
      assert Pending(c, s, b);
    } else {
      assert Pending(c, s, a);
    }
  }
}
