/** The allreduce over a group that is written with plain sends and receives: every
    rank receives from its two children in a binary tree, sends the partial result to
    its parent, receives the total from there and sends it on to its children. */
module TreeAllreduce {

  /** The contents of an integer buffer. */
  type Ints = seq<int>

  datatype Message = None | Some(value: Ints)

  // The points of the program of one rank.
  const RECV_LEFT := 0
  const RECV_RIGHT := 1
  const SEND_UP := 2
  const WAIT_UP := 3
  const RECV_DOWN := 4
  const SEND_LEFT := 5
  const WAIT_LEFT := 6
  const SEND_RIGHT := 7
  const WAIT_RIGHT := 8
  const DONE := 9

  function Parent(r: nat): nat
    requires r > 0
  {
    (r - 1) / 2
  }

  /** Where the parent receives from this rank, and where it has sent to it. */
  function RecvFrom(r: nat): nat {
    if r % 2 == 1 then RECV_LEFT else RECV_RIGHT
  }

  function SentTo(r: nat): nat {
    if r % 2 == 1 then WAIT_LEFT else WAIT_RIGHT
  }

  /** The child a rank at this point deals with, if it exists. */
  function Child(r: nat, pc: nat): nat {
    if pc == RECV_LEFT || pc == SEND_LEFT || pc == WAIT_LEFT then 2 * r + 1 else 2 * r + 2
  }

  /** A message from rank r to its parent is in up[r], one from the parent in down[r]. */
  datatype State = State(pc: seq<nat>, val: seq<Ints>, up: seq<Message>, down: seq<Message>)
  {
    predicate Sized(n: nat) {
      |pc| == n && |val| == n && |up| == n && |down| == n
    }
  }

  predicate Init(input: seq<Ints>, s: State) {
    && s.Sized(|input|) && s.val == input
    && forall r :: 0 <= r < |input| ==> s.pc[r] == RECV_LEFT && s.up[r] == None && s.down[r] == None
  }

  function Step(s: State, r: nat, pc: nat): State
    requires r < |s.pc|
  {
    s.(pc := s.pc[r := pc])
  }

  /** The peer does not exist. */
  predicate Skip(n: nat, s: State, s': State, r: nat)
    requires s.Sized(n) && r < n
  {
    || (s.pc[r] in {RECV_LEFT, RECV_RIGHT} && Child(r, s.pc[r]) >= n && s' == Step(s, r, s.pc[r] + 1))
    || (s.pc[r] == SEND_UP && r == 0 && s' == Step(s, r, RECV_DOWN))
    || (s.pc[r] == RECV_DOWN && r == 0 && s' == Step(s, r, SEND_LEFT))
    || (s.pc[r] in {SEND_LEFT, SEND_RIGHT} && Child(r, s.pc[r]) >= n && s' == Step(s, r, s.pc[r] + 2))
  }

  predicate RecvUp(n: nat, op: (Ints, Ints) -> Ints, s: State, s': State, r: nat)
    requires s.Sized(n) && r < n
  {
    s.pc[r] in {RECV_LEFT, RECV_RIGHT} &&
    var c := Child(r, s.pc[r]);
    c < n && s.up[c].Some? &&
    s' == Step(s, r, s.pc[r] + 1).(val := s.val[r := op(s.up[c].value, s.val[r])], up := s.up[c := None])
  }

  predicate SendUp(n: nat, s: State, s': State, r: nat)
    requires s.Sized(n) && r < n
  {
    s.pc[r] == SEND_UP && r > 0 && s' == Step(s, r, WAIT_UP).(up := s.up[r := Some(s.val[r])])
  }

  predicate RecvDown(n: nat, s: State, s': State, r: nat)
    requires s.Sized(n) && r < n
  {
    && s.pc[r] == RECV_DOWN && r > 0 && s.down[r].Some?
    && s' == Step(s, r, SEND_LEFT).(val := s.val[r := s.down[r].value], down := s.down[r := None])
  }

  predicate SendDown(n: nat, s: State, s': State, r: nat)
    requires s.Sized(n) && r < n
  {
    s.pc[r] in {SEND_LEFT, SEND_RIGHT} &&
    var c := Child(r, s.pc[r]);
    c < n && s' == Step(s, r, s.pc[r] + 1).(down := s.down[c := Some(s.val[r])])
  }

  /** A send returns: a synchronous one once the message has been received, a
      buffered one at any time. */
  predicate Returns(n: nat, s: State, s': State, r: nat, buffered: bool)
    requires s.Sized(n) && r < n
  {
    || (s.pc[r] == WAIT_UP && (buffered || s.up[r] == None) && s' == Step(s, r, RECV_DOWN))
    || (s.pc[r] in {WAIT_LEFT, WAIT_RIGHT} && Child(r, s.pc[r]) < n
        && (buffered || s.down[Child(r, s.pc[r])] == None) && s' == Step(s, r, s.pc[r] + 1))
  }

  /** With buffered false, only what can happen if all sends are synchronous. */
  predicate Moves(n: nat, op: (Ints, Ints) -> Ints, s: State, s': State, r: nat, buffered: bool) {
    s.Sized(n) && r < n &&
    ( || Skip(n, s, s', r) || RecvUp(n, op, s, s', r) || SendUp(n, s, s', r) || RecvDown(n, s, s', r)
      || SendDown(n, s, s', r) || Returns(n, s, s', r, buffered))
  }

  ghost predicate Next(n: nat, op: (Ints, Ints) -> Ints, s: State, s': State) {
    exists r: nat, buffered: bool :: Moves(n, op, s, s', r, buffered)
  }

  ghost predicate Run(input: seq<Ints>, op: (Ints, Ints) -> Ints, tr: seq<State>) {
    && input != [] && tr != [] && Init(input, tr[0])
    && forall i :: 0 <= i < |tr| - 1 ==> Next(|input|, op, tr[i], tr[i + 1])
  }

  // ----- what the ranks compute -----

  /** The reduction over the subtree below a rank, in the order of the program. */
  ghost function Sub(input: seq<Ints>, op: (Ints, Ints) -> Ints, r: nat): Ints
    requires r < |input|
    decreases |input| - r
  {
    var own := input[r];
    var left := if 2 * r + 1 < |input| then op(Sub(input, op, 2 * r + 1), own) else own;
    if 2 * r + 2 < |input| then op(Sub(input, op, 2 * r + 2), left) else left
  }

  ghost function AfterLeft(input: seq<Ints>, op: (Ints, Ints) -> Ints, r: nat): Ints
    requires r < |input|
  {
    if 2 * r + 1 < |input| then op(Sub(input, op, 2 * r + 1), input[r]) else input[r]
  }

  ghost predicate Value(input: seq<Ints>, op: (Ints, Ints) -> Ints, s: State, r: nat)
    requires s.Sized(|input|) && r < |input|
  {
    && s.pc[r] <= DONE && (r == 0 ==> s.pc[r] != WAIT_UP)
    && (s.pc[r] in {WAIT_LEFT, WAIT_RIGHT} ==> Child(r, s.pc[r]) < |input|)
    && s.val[r] ==
         if s.pc[r] == RECV_LEFT then input[r]
         else if s.pc[r] == RECV_RIGHT then AfterLeft(input, op, r)
         else if s.pc[r] <= RECV_DOWN then Sub(input, op, r)
         else Sub(input, op, 0)
  }

  /** The messages between a rank and its parent, from where the two are. */
  ghost predicate Edge(input: seq<Ints>, op: (Ints, Ints) -> Ints, s: State, r: nat)
    requires s.Sized(|input|) && 0 < r < |input|
  {
    var above := s.pc[Parent(r)];
    && s.up[r] == (if s.pc[r] >= WAIT_UP && above <= RecvFrom(r) then Some(Sub(input, op, r)) else None)
    && (above > RecvFrom(r) ==> s.pc[r] >= WAIT_UP)
    && s.down[r] == (if s.pc[r] <= RECV_DOWN && above >= SentTo(r) then Some(Sub(input, op, 0)) else None)
    && (s.pc[r] > RECV_DOWN ==> above >= SentTo(r))
  }

  ghost predicate Inv(input: seq<Ints>, op: (Ints, Ints) -> Ints, s: State) {
    && s.Sized(|input|)
    && (forall r: nat :: r < |input| ==> Value(input, op, s, r))
    && (forall r: nat :: 0 < r < |input| ==> Edge(input, op, s, r))
  }

  lemma {:induction false} ValueKept(input: seq<Ints>, op: (Ints, Ints) -> Ints, s: State, s': State, x: nat, r: nat)
    requires Inv(input, op, s) && Moves(|input|, op, s, s', x, true) && r < |input|
    ensures s'.Sized(|input|) && Value(input, op, s', r)
  {
    assert Value(input, op, s, r) && Value(input, op, s, x);
    if r == x && RecvUp(|input|, op, s, s', x) {
      assert Edge(input, op, s, Child(x, s.pc[x]));
    }
    if r == x && RecvDown(|input|, s, s', x) {
      assert Edge(input, op, s, x);
    }
  }

  lemma {:induction false} EdgeKept(input: seq<Ints>, op: (Ints, Ints) -> Ints, s: State, s': State, x: nat, r: nat)
    requires Inv(input, op, s) && Moves(|input|, op, s, s', x, true) && 0 < r < |input|
    requires s'.Sized(|input|)
    ensures Edge(input, op, s', r)
  {
    assert Edge(input, op, s, r) && Value(input, op, s, x);
    hide Sub, AfterLeft;
    if Skip(|input|, s, s', x) {
    } else if RecvUp(|input|, op, s, s', x) {
    } else if SendUp(|input|, s, s', x) {
    } else if RecvDown(|input|, s, s', x) {
    } else if SendDown(|input|, s, s', x) {
    } else {
    }
  }

  lemma {:induction false} NextInv(input: seq<Ints>, op: (Ints, Ints) -> Ints, s: State, s': State)
    requires Inv(input, op, s) && Next(|input|, op, s, s')
    ensures Inv(input, op, s')
  {
    var r: nat, buffered: bool :| Moves(|input|, op, s, s', r, buffered);
    assert Moves(|input|, op, s, s', r, true);
    hide Value, Edge, Moves;
    forall q: nat | q < |input| ensures s'.Sized(|input|) && Value(input, op, s', q) {
      ValueKept(input, op, s, s', r, q);
    }
    ValueKept(input, op, s, s', r, r);
    forall q: nat | 0 < q < |input| ensures Edge(input, op, s', q) {
      EdgeKept(input, op, s, s', r, q);
    }
  }

  lemma {:induction false} RunInv(input: seq<Ints>, op: (Ints, Ints) -> Ints, tr: seq<State>, i: nat)
    requires Run(input, op, tr) && i < |tr|
    ensures Inv(input, op, tr[i])
  {
    if i > 0 {
      RunInv(input, op, tr, i - 1);
      hide Inv, Next;
      assert Next(|input|, op, tr[i - 1], tr[i - 1 + 1]);
      NextInv(input, op, tr[i - 1], tr[i]);
    }
  }

  // ----- every run ends -----

  ghost function Sum(pc: seq<nat>): nat {
    if pc == [] then 0 else Sum(pc[..|pc| - 1]) + pc[|pc| - 1]
  }

  lemma {:induction false} SumUpdate(pc: seq<nat>, r: nat, x: nat)
    requires r < |pc|
    ensures Sum(pc[r := x]) == Sum(pc) - pc[r] + x
  {
    var n := |pc| - 1;
    if r < n {
      assert pc[r := x][..n] == pc[..n][r := x];
      SumUpdate(pc[..n], r, x);
    } else {
      assert pc[r := x][..n] == pc[..n];
    }
  }

  lemma {:induction false} SumBound(pc: seq<nat>, k: nat)
    requires forall r :: 0 <= r < |pc| ==> pc[r] <= k
    ensures Sum(pc) <= k * |pc|
  {
    if pc != [] {
      SumBound(pc[..|pc| - 1], k);
      assert k * |pc| == k * (|pc| - 1) + k;
    }
  }

  lemma {:induction false} MoveAdvances(n: nat, op: (Ints, Ints) -> Ints, s: State, s': State, r: nat)
    requires Moves(n, op, s, s', r, true)
    ensures r < |s.pc| == |s'.pc| && s'.pc == s.pc[r := s'.pc[r]] && s'.pc[r] > s.pc[r]
  {
    if Skip(n, s, s', r) {
    } else if RecvUp(n, op, s, s', r) {
    } else if SendDown(n, s, s', r) {
    }
  }

  lemma {:induction false} NextAdvances(n: nat, op: (Ints, Ints) -> Ints, s: State, s': State)
    requires Next(n, op, s, s')
    ensures Sum(s'.pc) > Sum(s.pc)
  {
    var r: nat, buffered: bool :| Moves(n, op, s, s', r, buffered);
    assert Moves(n, op, s, s', r, true);
    hide Moves;
    MoveAdvances(n, op, s, s', r);
    SumUpdate(s.pc, r, s'.pc[r]);
  }

  lemma {:induction false} RunAdvances(input: seq<Ints>, op: (Ints, Ints) -> Ints, tr: seq<State>, i: nat)
    requires Run(input, op, tr) && i < |tr|
    ensures Sum(tr[i].pc) >= i
  {
    if i > 0 {
      RunAdvances(input, op, tr, i - 1);
      assert Next(|input|, op, tr[i - 1], tr[i - 1 + 1]);
      NextAdvances(|input|, op, tr[i - 1], tr[i]);
    }
  }

  /** No run has more than nine steps for each rank. */
  lemma {:induction false} RunsEnd(input: seq<Ints>, op: (Ints, Ints) -> Ints, tr: seq<State>)
    requires Run(input, op, tr)
    ensures |tr| <= DONE * |input| + 1
  {
    var s := tr[|tr| - 1];
    RunAdvances(input, op, tr, |tr| - 1);
    RunInv(input, op, tr, |tr| - 1);
    forall r | 0 <= r < |input| ensures s.pc[r] <= DONE { assert Value(input, op, s, r); }
    SumBound(s.pc, DONE);
  }

  // ----- no deadlock -----

  /** A step that does not rely on the buffering of a send. */
  ghost predicate CanStep(n: nat, op: (Ints, Ints) -> Ints, s: State) {
    exists s', r: nat :: Moves(n, op, s, s', r, false)
  }

  /** While some rank has not yet sent up, the last such rank can go on. */
  lemma {:induction false} UpwardStep(input: seq<Ints>, op: (Ints, Ints) -> Ints, s: State, r: nat)
    requires Inv(input, op, s) && r < |input| && s.pc[r] <= SEND_UP
    requires forall q :: r < q < |input| ==> s.pc[q] > SEND_UP
    ensures CanStep(|input|, op, s)
  {
    var n := |input|;
    if s.pc[r] == SEND_UP {
      var s' := if r == 0 then Step(s, r, RECV_DOWN) else Step(s, r, WAIT_UP).(up := s.up[r := Some(s.val[r])]);
      assert Moves(n, op, s, s', r, false);
    } else {
      var c := Child(r, s.pc[r]);
      if c >= n {
        assert Moves(n, op, s, Step(s, r, s.pc[r] + 1), r, false);
      } else {
        assert Edge(input, op, s, c);
        var s' := Step(s, r, s.pc[r] + 1).(val := s.val[r := op(s.up[c].value, s.val[r])], up := s.up[c := None]);
        assert RecvUp(n, op, s, s', r);
        assert Moves(n, op, s, s', r, false);
      }
    }
  }

  /** When all have sent up, every pending send up returns. */
  lemma {:induction false} ReturnStep(input: seq<Ints>, op: (Ints, Ints) -> Ints, s: State, r: nat)
    requires Inv(input, op, s) && r < |input| && s.pc[r] == WAIT_UP
    requires forall q :: 0 <= q < |input| ==> s.pc[q] > SEND_UP
    ensures CanStep(|input|, op, s)
  {
    assert Value(input, op, s, r) && Edge(input, op, s, r);
    assert Moves(|input|, op, s, Step(s, r, RECV_DOWN), r, false);
  }

  /** On the way down the first rank that is not done can go on, or its child can. */
  lemma {:induction false} DownwardStep(input: seq<Ints>, op: (Ints, Ints) -> Ints, s: State, r: nat)
    requires Inv(input, op, s) && r < |input| && s.pc[r] != DONE
    requires forall q :: 0 <= q < |input| ==> s.pc[q] > WAIT_UP
    requires forall q :: 0 <= q < r ==> s.pc[q] == DONE
    ensures CanStep(|input|, op, s)
  {
    var n := |input|;
    assert Value(input, op, s, r);
    var c := Child(r, s.pc[r]);
    if s.pc[r] == RECV_DOWN {
      if r == 0 {
        assert Moves(n, op, s, Step(s, r, SEND_LEFT), r, false);
      } else {
        assert Edge(input, op, s, r);
        var s' := Step(s, r, SEND_LEFT).(val := s.val[r := s.down[r].value], down := s.down[r := None]);
        assert RecvDown(n, s, s', r);
        assert Moves(n, op, s, s', r, false);
      }
    } else if s.pc[r] in {SEND_LEFT, SEND_RIGHT} {
      if c >= n {
        assert Moves(n, op, s, Step(s, r, s.pc[r] + 2), r, false);
      } else {
        var s' := Step(s, r, s.pc[r] + 1).(down := s.down[c := Some(s.val[r])]);
        assert SendDown(n, s, s', r);
        assert Moves(n, op, s, s', r, false);
      }
    } else {
      assert Edge(input, op, s, c);
      if s.down[c] == None {
        assert Moves(n, op, s, Step(s, r, s.pc[r] + 1), r, false);
      } else {
        var s' := Step(s, c, SEND_LEFT).(val := s.val[c := s.down[c].value], down := s.down[c := None]);
        assert RecvDown(n, s, s', c);
        assert Moves(n, op, s, s', c, false);
      }
    }
  }

  lemma {:induction false} LastUpTo(pc: seq<nat>, k: nat) returns (r: nat)
    requires exists q :: 0 <= q < |pc| && pc[q] <= k
    ensures r < |pc| && pc[r] <= k && forall q :: r < q < |pc| ==> pc[q] > k
  {
    r := |pc| - 1;
    while pc[r] > k
      invariant r < |pc| && forall q :: r < q < |pc| ==> pc[q] > k
      decreases r
    {
      r := r - 1;
    }
  }

  lemma {:induction false} FirstNotDone(pc: seq<nat>) returns (r: nat)
    requires exists q :: 0 <= q < |pc| && pc[q] != DONE
    ensures r < |pc| && pc[r] != DONE && forall q :: 0 <= q < r ==> pc[q] == DONE
  {
    r := 0;
    while pc[r] == DONE
      invariant r < |pc| && forall q :: 0 <= q < r ==> pc[q] == DONE
      decreases |pc| - r
    {
      r := r + 1;
    }
  }

  lemma {:induction false} NoDeadlock(input: seq<Ints>, op: (Ints, Ints) -> Ints, tr: seq<State>, i: nat, r: nat)
    requires Run(input, op, tr) && i < |tr|
    requires r < |tr[i].pc| && tr[i].pc[r] != DONE
    ensures CanStep(|input|, op, tr[i])
  {
    var s := tr[i];
    RunInv(input, op, tr, i);
    if q :| 0 <= q < |s.pc| && s.pc[q] <= SEND_UP {
      var last := LastUpTo(s.pc, SEND_UP);
      UpwardStep(input, op, s, last);
    } else if q :| 0 <= q < |s.pc| && s.pc[q] == WAIT_UP {
      ReturnStep(input, op, s, q);
    } else {
      var first := FirstNotDone(s.pc);
      DownwardStep(input, op, s, first);
    }
  }

  // ----- every input counts once -----

  ghost predicate Reduction(op: (Ints, Ints) -> Ints) {
    && (forall x, y :: op(x, y) == op(y, x))
    && (forall x, y, z :: op(op(x, y), z) == op(x, op(y, z)))
  }

  lemma {:induction false} Regroup(op: (Ints, Ints) -> Ints, x: Ints, y: Ints, z: Ints)
    requires Reduction(op)
    ensures op(op(x, y), z) == op(x, op(y, z)) && op(x, y) == op(y, x)
  {
  }

  function At(input: seq<Ints>, k: nat): Ints {
    if k < |input| then input[k] else []
  }

  /** The reduction of the inputs of the given ranks, from left to right. */
  ghost function Fold(input: seq<Ints>, op: (Ints, Ints) -> Ints, ranks: seq<nat>): Ints
    requires ranks != []
  {
    var n := |ranks| - 1;
    if n == 0 then At(input, ranks[0]) else op(Fold(input, op, ranks[..n]), At(input, ranks[n]))
  }

  lemma {:induction false} FoldConcat(input: seq<Ints>, op: (Ints, Ints) -> Ints, a: seq<nat>, b: seq<nat>)
    requires Reduction(op) && a != [] && b != []
    ensures Fold(input, op, a + b) == op(Fold(input, op, a), Fold(input, op, b))
    decreases |b|
  {
    hide Reduction, At;
    var n := |b| - 1;
    assert (a + b)[..|a| + n] == a + b[..n];
    if n == 0 {
      assert a + b[..0] == a;
    } else {
      FoldConcat(input, op, a, b[..n]);
      Regroup(op, Fold(input, op, a), Fold(input, op, b[..n]), At(input, b[n]));
    }
  }

  lemma {:induction false} FoldToFront(input: seq<Ints>, op: (Ints, Ints) -> Ints, before: seq<nat>, k: nat, after: seq<nat>)
    requires Reduction(op) && before + after != []
    ensures Fold(input, op, before + [k] + after) == op(At(input, k), Fold(input, op, before + after))
  {
    hide Reduction, At;
    if before == [] {
      assert [] + [k] + after == [k] + after && before + after == after;
      FoldConcat(input, op, [k], after);
    } else if after == [] {
      assert before + [k] + [] == before + [k] && before + after == before;
      FoldConcat(input, op, before, [k]);
      Regroup(op, Fold(input, op, before), At(input, k), At(input, k));
    } else {
      FoldConcat(input, op, before + [k], after);
      FoldConcat(input, op, before, [k]);
      FoldConcat(input, op, before, after);
      Regroup(op, Fold(input, op, before), At(input, k), At(input, k));
      Regroup(op, At(input, k), Fold(input, op, before), Fold(input, op, after));
    }
  }

  lemma {:induction false} SameRest(a: seq<nat>, b: seq<nat>, k: nat, before: seq<nat>, after: seq<nat>)
    requires a != [] && a == [k] + a[1..] && b == before + [k] + after && multiset(a) == multiset(b)
    ensures multiset(a[1..]) == multiset(before + after) && |a[1..]| == |before + after|
  {
    assert multiset(a) == multiset{k} + multiset(a[1..]);
    assert multiset(b) == multiset(before) + multiset{k} + multiset(after);
    assert multiset(a[1..]) == multiset(a) - multiset{k};
    assert multiset(before + after) == multiset(b) - multiset{k};
    assert |a[1..]| == |multiset(a[1..])| == |multiset(before + after)| == |before + after|;
  }

  /** The order of the ranks does not matter. */
  lemma {:induction false} FoldAnyOrder(input: seq<Ints>, op: (Ints, Ints) -> Ints, a: seq<nat>, b: seq<nat>)
    requires Reduction(op) && a != [] && b != [] && multiset(a) == multiset(b)
    ensures Fold(input, op, a) == Fold(input, op, b)
    decreases |a|
  {
    hide Reduction, At;
    var k := a[0];
    assert k in multiset(b);
    var i: nat :| i < |b| && b[i] == k;
    var before, after := b[..i], b[i + 1..];
    assert b == before + [k] + after;
    assert a == [] + [k] + a[1..];
    SameRest(a, b, k, before, after);
    if a[1..] == [] {
      assert b == [k] && a == [k];
    } else {
      FoldToFront(input, op, [], k, a[1..]);
      assert [] + a[1..] == a[1..];
      FoldToFront(input, op, before, k, after);
      FoldAnyOrder(input, op, a[1..], before + after);
    }
  }

  ghost function Ranks(n: nat, r: nat): (ks: seq<nat>)
    requires r < n
    ensures ks != []
    decreases n - r, 0
  {
    [r] + RanksOrNone(n, 2 * r + 1) + RanksOrNone(n, 2 * r + 2)
  }

  ghost function RanksOrNone(n: nat, r: nat): (ks: seq<nat>)
    ensures r < n ==> ks != []
    decreases if r < n then n - r else 0, 1
  {
    if r < n then Ranks(n, r) else []
  }

  lemma {:induction false} SubIsFold(input: seq<Ints>, op: (Ints, Ints) -> Ints, r: nat)
    requires Reduction(op) && r < |input|
    ensures Sub(input, op, r) == Fold(input, op, Ranks(|input|, r))
    decreases |input| - r
  {
    var n := |input|;
    hide Reduction;
    var left, right := RanksOrNone(n, 2 * r + 1), RanksOrNone(n, 2 * r + 2);
    var one := AfterLeft(input, op, r);
    assert one == Fold(input, op, [r] + left) by {
      if 2 * r + 1 < n {
        SubIsFold(input, op, 2 * r + 1);
        FoldConcat(input, op, [r], left);
        Regroup(op, input[r], Fold(input, op, left), input[r]);
      } else {
        assert [r] + left == [r];
      }
    }
    if 2 * r + 2 < n {
      SubIsFold(input, op, 2 * r + 2);
      FoldConcat(input, op, [r] + left, right);
      Regroup(op, one, Fold(input, op, right), one);
    } else {
      assert [r] + left + right == [r] + left;
    }
  }

  ghost predicate Below(r: nat, k: nat) {
    k == r || (k > 0 && Below(r, Parent(k)))
  }

  lemma {:induction false} BelowIsLarger(r: nat, k: nat)
    requires Below(r, k)
    ensures r <= k
  {
    if k != r { BelowIsLarger(r, Parent(k)); }
  }

  lemma {:induction false} BelowChild(r: nat, k: nat)
    ensures Below(r, k) <==> k == r || Below(2 * r + 1, k) || Below(2 * r + 2, k)
  {
    if k > 0 && k != r {
      BelowChild(r, Parent(k));
      assert Parent(k) == r <==> k == 2 * r + 1 || k == 2 * r + 2;
    }
  }

  lemma {:induction false} BelowOneChild(r: nat, k: nat)
    requires Below(2 * r + 1, k) && Below(2 * r + 2, k)
    ensures false
  {
    if k != 2 * r + 1 && k != 2 * r + 2 {
      BelowOneChild(r, Parent(k));
    } else if k == 2 * r + 1 {
      BelowIsLarger(2 * r + 2, k);
    } else {
      BelowIsLarger(2 * r + 1, Parent(k));
    }
  }

  lemma {:induction false} RootIsAbove(k: nat)
    ensures Below(0, k)
  {
    if k > 0 { RootIsAbove(Parent(k)); }
  }

  lemma {:induction false} NoneBelow(n: nat, r: nat, k: nat)
    requires k < n <= r
    ensures !Below(r, k)
  {
    if Below(r, k) { BelowIsLarger(r, k); }
  }

  ghost function Count(b: bool): nat {
    if b then 1 else 0
  }

  lemma {:induction false} CountInParts(r: nat, left: seq<nat>, right: seq<nat>, k: nat)
    ensures multiset([r] + left + right)[k] == Count(k == r) + multiset(left)[k] + multiset(right)[k]
  {
    var own: seq<nat> := [r];
    assert multiset(own + left + right) == multiset(own) + multiset(left) + multiset(right);
  }

  lemma {:induction false} RanksInParts(n: nat, r: nat, k: nat)
    requires r < n
    ensures multiset(RanksOrNone(n, r))[k]
         == Count(k == r) + multiset(RanksOrNone(n, 2 * r + 1))[k] + multiset(RanksOrNone(n, 2 * r + 2))[k]
  {
    CountInParts(r, RanksOrNone(n, 2 * r + 1), RanksOrNone(n, 2 * r + 2), k);
    assert RanksOrNone(n, r) == [r] + RanksOrNone(n, 2 * r + 1) + RanksOrNone(n, 2 * r + 2);
  }

  lemma {:induction false} NoRanks(n: nat, r: nat, k: nat)
    requires k < n <= r
    ensures multiset(RanksOrNone(n, r))[k] == Count(Below(r, k)) == 0
  {
    NoneBelow(n, r, k);
    hide Below;
    assert RanksOrNone(n, r) == [];
  }

  lemma {:induction false} RanksOnce(n: nat, r: nat, k: nat)
    requires k < n
    ensures multiset(RanksOrNone(n, r))[k] == Count(Below(r, k))
    decreases if r < n then n - r else 0
  {
    hide Below, Count, Ranks, RanksOrNone;
    if r < n {
      RanksOnce(n, 2 * r + 1, k);
      RanksOnce(n, 2 * r + 2, k);
      BelowOnce(r, k);
      RanksInParts(n, r, k);
    } else {
      NoRanks(n, r, k);
    }
  }

  lemma {:induction false} BelowOnce(r: nat, k: nat)
    ensures Count(Below(r, k)) == Count(k == r) + Count(Below(2 * r + 1, k)) + Count(Below(2 * r + 2, k))
  {
    BelowChild(r, k);
    if k == r { NoneBelow(2 * r + 1, 2 * r + 1, k); NoneBelow(2 * r + 2, 2 * r + 2, k); }
    if Below(2 * r + 1, k) && Below(2 * r + 2, k) { BelowOneChild(r, k); }
  }

  ghost function UpTo(n: nat): (ks: seq<nat>)
    ensures |ks| == n && forall k :: 0 <= k < n ==> ks[k] == k
  {
    seq(n, k => k)
  }

  lemma {:induction false} UpToOnce(n: nat, k: nat)
    ensures multiset(UpTo(n))[k] == if k < n then 1 else 0
  {
    if n > 0 {
      assert UpTo(n) == UpTo(n - 1) + [n - 1];
      UpToOnce(n - 1, k);
    }
  }

  /** A run that cannot go on, even if all sends are synchronous, has given every rank
      the reduction of all inputs in order, each counted once. */
  lemma {:induction false} EndsWithTotal(input: seq<Ints>, op: (Ints, Ints) -> Ints, tr: seq<State>, r: nat)
    requires Reduction(op) && Run(input, op, tr) && r < |input|
    requires !CanStep(|input|, op, tr[|tr| - 1])
    ensures r < |tr[|tr| - 1].val| && tr[|tr| - 1].val[r] == Fold(input, op, UpTo(|input|))
  {
    var s, n := tr[|tr| - 1], |input|;
    RunInv(input, op, tr, |tr| - 1);
    if s.pc[r] != DONE { NoDeadlock(input, op, tr, |tr| - 1, r); }
    assert Value(input, op, s, r);
    SubIsFold(input, op, 0);
    EachOnce(n);
    FoldAnyOrder(input, op, Ranks(n, 0), UpTo(n));
  }

  /** The tree below the root has every rank once. */
  lemma {:induction false} EachOnce(n: nat)
    requires n > 0
    ensures multiset(Ranks(n, 0)) == multiset(UpTo(n))
  {
    var ks: multiset<nat>, all: multiset<nat> := multiset(Ranks(n, 0)), multiset(UpTo(n));
    forall k: nat ensures ks[k] == all[k] {
      UpToOnce(n, k);
      if k < n {
        RanksOnce(n, 0, k);
        RootIsAbove(k);
      } else {
        RanksBounded(n, 0);
        assert k !in RanksOrNone(n, 0);
      }
    }
  }

  lemma {:induction false} RanksBounded(n: nat, r: nat)
    ensures forall k :: k in RanksOrNone(n, r) ==> k < n
    decreases if r < n then n - r else 0
  {
    if r < n {
      assert RanksOrNone(n, r) == [r] + RanksOrNone(n, 2 * r + 1) + RanksOrNone(n, 2 * r + 2);
      RanksBounded(n, 2 * r + 1);
      RanksBounded(n, 2 * r + 2);
    }
  }
}
