/** The agreement on a new communicator id. Every process of the parent
    communicator reserves a slot of its own table, all take the maximum, every
    process then tries to reserve that slot, all take the minimum of the answers,
    and either all commit or all release and try again. Each step below reads or
    writes shared state once; the steps of all processes interleave freely. */
module CidProtocol {

  type Proc = nat
  type Alloc = nat
  type Slot = nat

  /** What a slot of a process's communicator table holds: a reservation of a
      pending allocation, its committed communicator, or one that was there before. */
  datatype Owner = Reserved(a: Alloc) | Live(a: Alloc) | Other

  datatype Pc =
    | Idle
    | Starting
    | Waiting
    | Scanning(i: Slot)
    | InMax
    | Checking
    | Retrying
    | InMin
    | Committed
    | Done

  /** The local variables of one process taking part in one allocation. */
  datatype Local = Local(pc: Pc, start: Slot, nextlocal: Slot, nextcid: Slot, response: bool, round: nat)

  /** members: the processes of the parent; parent: its id; nonblocking: which of
      the two versions of the protocol the members run; limit: number of ids. */
  datatype Config = Config(members: map<Alloc, set<Proc>>, parent: map<Alloc, nat>, nonblocking: set<Alloc>, limit: nat)

  datatype State = State(
    slots: map<(Proc, Slot), Owner>,
    regs: map<Proc, seq<nat>>,
    locals: map<(Alloc, Proc), Local>,
    maxIn: map<(Alloc, nat, Proc), Slot>,
    minIn: map<(Alloc, nat, Proc), bool>)

  /** One communicator may be the parent of any number of allocations. */
  ghost predicate WellFormed(c: Config) {
    && c.members.Keys == c.parent.Keys
    && (forall a :: a in c.members ==> c.members[a] != {})
  }

  ghost predicate Member(c: Config, a: Alloc, p: Proc) {
    a in c.members && a in c.parent && p in c.members[a]
  }

  ghost function L(s: State, a: Alloc, p: Proc): Local {
    if (a, p) in s.locals then s.locals[(a, p)] else Local(Idle, 0, 0, 0, false, 0)
  }

  ghost function R(s: State, p: Proc): seq<nat> {
    if p in s.regs then s.regs[p] else []
  }

  // ----- the registration list of one process -----

  /** Before the first larger id. */
  function Registered(xs: seq<nat>, cid: nat): (r: seq<nat>)
    ensures |r| == |xs| + 1
  {
    if xs == [] || xs[0] > cid then [cid] + xs else [xs[0]] + Registered(xs[1..], cid)
  }

  function Unregistered(xs: seq<nat>, cid: nat): (r: seq<nat>) {
    if xs == [] then [] else if xs[0] == cid then xs[1..] else [xs[0]] + Unregistered(xs[1..], cid)
  }

  ghost predicate Increasing(xs: seq<nat>) {
    forall i, j :: 0 <= i < j < |xs| ==> xs[i] < xs[j]
  }

  // ----- the two collective operations -----

  /** Every member has given its value to the maximum of round r, and v is the maximum. */
  ghost predicate MaxIs(c: Config, s: State, a: Alloc, r: nat, v: Slot) {
    && a in c.members
    && (forall q :: q in c.members[a] ==> (a, r, q) in s.maxIn && s.maxIn[(a, r, q)] <= v)
    && (exists q :: q in c.members[a] && (a, r, q) in s.maxIn && s.maxIn[(a, r, q)] == v)
  }

  ghost predicate MinComplete(c: Config, s: State, a: Alloc, r: nat) {
    a in c.members && forall q :: q in c.members[a] ==> (a, r, q) in s.minIn
  }

  ghost predicate MinTrue(c: Config, s: State, a: Alloc, r: nat) {
    a in c.members && forall q :: q in c.members[a] ==> (a, r, q) in s.minIn && s.minIn[(a, r, q)]
  }

  // ----- the steps -----

  ghost predicate IsLowestFree(s: State, p: Proc, x: Slot) {
    (p, x) !in s.slots && forall y :: 0 <= y < x ==> (p, y) in s.slots
  }

  ghost function With(s: State, a: Alloc, p: Proc, l: Local): State {
    s.(locals := s.locals[(a, p) := l])
  }

  ghost predicate Register(c: Config, s: State, s': State, a: Alloc, p: Proc)
    requires Member(c, a, p)
  {
    var l := L(s, a, p);
    && l.pc == Idle && c.parent[a] !in R(s, p)
    && s' == With(s.(regs := s.regs[p := Registered(R(s, p), c.parent[a])]), a, p, l.(pc := Starting))
  }

  /** The scan will begin at the slot that is the lowest free one now. */
  ghost predicate ReadStart(c: Config, s: State, s': State, a: Alloc, p: Proc) {
    var l := L(s, a, p);
    && l.pc == Starting
    && exists x :: IsLowestFree(s, p, x) && s' == With(s, a, p, l.(pc := Waiting, start := x))
  }

  /** Only the allocation with the lowest registered parent goes on. */
  ghost predicate Admit(c: Config, s: State, s': State, a: Alloc, p: Proc)
    requires Member(c, a, p)
  {
    var l := L(s, a, p);
    && l.pc == Waiting && R(s, p) != [] && R(s, p)[0] == c.parent[a]
    && s' == With(s, a, p, l.(pc := Scanning(l.start)))
  }

  ghost predicate Skip(c: Config, s: State, s': State, a: Alloc, p: Proc) {
    var l := L(s, a, p);
    && l.pc.Scanning? && l.pc.i < c.limit && (p, l.pc.i) in s.slots
    && s' == With(s, a, p, l.(pc := Scanning(l.pc.i + 1)))
  }

  ghost predicate Take(c: Config, s: State, s': State, a: Alloc, p: Proc) {
    var l := L(s, a, p);
    && l.pc.Scanning? && l.pc.i < c.limit && (p, l.pc.i) !in s.slots
    && s' == With(
         s.(slots := s.slots[(p, l.pc.i) := Reserved(a)], maxIn := s.maxIn[(a, l.round, p) := l.pc.i]),
         a, p, l.(pc := InMax, nextlocal := l.pc.i))
  }

  ghost predicate ReceiveMax(c: Config, s: State, s': State, a: Alloc, p: Proc) {
    var l := L(s, a, p);
    && l.pc == InMax
    && exists v :: MaxIs(c, s, a, l.round, v) && s' == With(s, a, p, l.(pc := Checking, nextcid := v))
  }

  ghost predicate Agree(c: Config, s: State, s': State, a: Alloc, p: Proc) {
    var l := L(s, a, p);
    && l.pc == Checking && l.nextcid == l.nextlocal
    && s' == With(s.(minIn := s.minIn[(a, l.round, p) := true]), a, p, l.(pc := InMin, response := true))
  }

  ghost predicate Release(c: Config, s: State, s': State, a: Alloc, p: Proc) {
    var l := L(s, a, p);
    && l.pc == Checking && l.nextcid != l.nextlocal
    && s' == With(s.(slots := s.slots - {(p, l.nextlocal)}), a, p, l.(pc := Retrying))
  }

  ghost predicate Retake(c: Config, s: State, s': State, a: Alloc, p: Proc) {
    var l := L(s, a, p);
    var free := (p, l.nextcid) !in s.slots;
    && l.pc == Retrying
    && s' == With(
         s.(slots := if free then s.slots[(p, l.nextcid) := Reserved(a)] else s.slots,
            minIn := s.minIn[(a, l.round, p) := free]),
         a, p, l.(pc := InMin, response := free))
  }

  ghost predicate Commit(c: Config, s: State, s': State, a: Alloc, p: Proc) {
    var l := L(s, a, p);
    && l.pc == InMin && MinTrue(c, s, a, l.round)
    && s' == With(s.(slots := s.slots[(p, l.nextcid) := Live(a)]), a, p, l.(pc := Committed))
  }

  /** A failed round. The blocking version always moves its start behind the id;
      the non-blocking version only where the id had been reserved. */
  ghost predicate Restart(c: Config, s: State, s': State, a: Alloc, p: Proc) {
    var l := L(s, a, p);
    && l.pc == InMin && MinComplete(c, s, a, l.round) && !MinTrue(c, s, a, l.round)
    && s' == With(
         s.(slots := if l.response then s.slots - {(p, l.nextcid)} else s.slots),
         a, p,
         l.(pc := Waiting, round := l.round + 1,
            start := if l.response || a !in c.nonblocking then l.nextcid + 1 else l.start))
  }

  ghost predicate Unregister(c: Config, s: State, s': State, a: Alloc, p: Proc)
    requires Member(c, a, p)
  {
    var l := L(s, a, p);
    && l.pc == Committed
    && s' == With(s.(regs := s.regs[p := Unregistered(R(s, p), c.parent[a])]), a, p, l.(pc := Done))
  }

  ghost predicate Moves(c: Config, s: State, s': State, a: Alloc, p: Proc) {
    Member(c, a, p) &&
    ( || Register(c, s, s', a, p) || ReadStart(c, s, s', a, p) || Admit(c, s, s', a, p)
      || Skip(c, s, s', a, p) || Take(c, s, s', a, p)
      || ReceiveMax(c, s, s', a, p) || Agree(c, s, s', a, p) || Release(c, s, s', a, p) || Retake(c, s, s', a, p)
      || Commit(c, s, s', a, p) || Restart(c, s, s', a, p) || Unregister(c, s, s', a, p))
  }

  ghost predicate Next(c: Config, s: State, s': State) {
    exists a: Alloc, p: Proc :: Moves(c, s, s', a, p)
  }

  ghost predicate Init(c: Config, s: State) {
    && (forall k :: k in s.slots ==> s.slots[k] == Other)
    && s.regs == map[] && s.locals == map[] && s.maxIn == map[] && s.minIn == map[]
  }

  ghost predicate Run(c: Config, tr: seq<State>) {
    && WellFormed(c) && tr != [] && Init(c, tr[0])
    && forall i :: 0 <= i < |tr| - 1 ==> Next(c, tr[i], tr[i + 1])
  }
}
