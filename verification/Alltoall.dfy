/** All-to-all exchanges that follow a schedule: in each iteration a rank posts one send
    and one receive and waits for both. One call, and any number of calls in a row. */
module Alltoall {
  import opened LatinSquare

  /** Whom rank r of n sends to in iteration i, and whom it receives from. The iterations
      are those from 1 on and before the end; iteration 0 is not part of the exchange. */
  datatype Schedule = Schedule(n: nat, end: nat, dest: (nat, nat) -> int, source: (nat, nat) -> int)

  ghost predicate InTurn(s: Schedule, r: nat, i: nat) {
    r < s.n && 1 <= i < s.end
  }

  /** In every iteration the receives name the senders. */
  ghost predicate Meets(s: Schedule) {
    && (forall r: nat, i: nat :: InTurn(s, r, i) ==> 0 <= s.dest(r, i) < s.n && 0 <= s.source(r, i) < s.n)
    && (forall r: nat, q: nat, i: nat :: InTurn(s, r, i) && InTurn(s, q, i) ==> (s.dest(r, i) == q <==> s.source(q, i) == r))
  }

  /** No rank sends twice to the same rank. */
  ghost predicate NoRepeat(s: Schedule) {
    forall r: nat, i: nat, k: nat :: InTurn(s, r, i) && InTurn(s, r, k) && i != k ==> s.dest(r, i) != s.dest(r, k)
  }

  ghost predicate Sound(s: Schedule) {
    Meets(s) && NoRepeat(s)
  }

  // ----- the linear schedule -----

  function GetDest(rank: int, iteration: int, size: int): int
    requires size > 0 && rank + iteration >= 0
  {
    if iteration == 0 then -1 else (rank + iteration) % size
  }

  function GetSource(rank: int, iteration: int, size: int): int {
    if iteration == 0 then -1 else if rank - iteration < 0 then size + (rank - iteration) else rank - iteration
  }

  function Linear(n: nat): Schedule {
    Schedule(n, n, (r: nat, i: nat) => if n > 0 then GetDest(r, i, n) else 0, (r: nat, i: nat) => GetSource(r, i, n))
  }

  lemma {:induction false} Wrap(x: int, n: int)
    requires n > 0 && 0 <= x < 2 * n
    ensures x % n == if x < n then x else x - n
  {
    if x >= n { assert x == 1 * n + (x - n); }
  }

  lemma {:induction false} LinearSound(n: nat)
    ensures Sound(Linear(n))
  {
    var s := Linear(n);
    forall r: nat, i: nat | InTurn(s, r, i)
      ensures 0 <= s.dest(r, i) < n && 0 <= s.source(r, i) < n && s.dest(r, i) == if r + i < n then r + i else r + i - n
    {
      Wrap(r + i, n);
    }
  }

  /** Every rank sends to every other rank in exactly one iteration, and never to itself. */
  lemma {:induction false} LinearComplete(r: nat, q: nat, n: nat)
    requires r < n && q < n
    ensures (exists i :: 1 <= i < n && GetDest(r, i, n) == q) <==> r != q
    ensures forall i, k :: 1 <= i < n && 1 <= k < n && GetDest(r, i, n) == q && GetDest(r, k, n) == q ==> i == k
    ensures forall i :: 1 <= i < n && GetDest(r, i, n) == q ==> GetSource(q, i, n) == r
  {
    forall i | 1 <= i < n ensures GetDest(r, i, n) == if r + i < n then r + i else r + i - n {
      Wrap(r + i, n);
    }
    if r != q {
      var i := if q > r then q - r else q - r + n;
      assert 1 <= i < n && GetDest(r, i, n) == q;
    }
  }

  // ----- the random schedule -----

  function SourceIn(sendTo: Square, rank: nat, i: nat, j: nat): (source: int)
    requires Sized(sendTo) && i < |sendTo|
    ensures source == -1 || j <= source < |sendTo|
    decreases |sendTo| - j
  {
    if j >= |sendTo| then -1 else if sendTo[j][i] == rank then j else SourceIn(sendTo, rank, i, j + 1)
  }

  function Random(sendTo: Square): Schedule
    requires Sized(sendTo)
  {
    Schedule(|sendTo|, |sendTo|,
      (r: nat, i: nat) => if r < |sendTo| && i < |sendTo| then sendTo[r][i] else 0,
      (r: nat, i: nat) => if i < |sendTo| then SourceIn(sendTo, r, i, 0) else 0)
  }

  /** The search for the sender. */
  method FindSource(sendTo: Square, rank: nat, i: nat) returns (source: int)
    requires Sized(sendTo) && i < |sendTo|
    ensures source == SourceIn(sendTo, rank, i, 0)
    ensures source == -1 ==> rank !in Column(sendTo, i)
    ensures source != -1 ==> 0 <= source < |sendTo| && sendTo[source][i] == rank
  {
    source := -1;
    var j := 0;
    while j < |sendTo|
      invariant 0 <= j <= |sendTo| && source == -1
      invariant forall k :: 0 <= k < j ==> sendTo[k][i] != rank
      invariant SourceIn(sendTo, rank, i, 0) == SourceIn(sendTo, rank, i, j)
    {
      if sendTo[j][i] == rank {
        source := j;
        break;
      }
      j := j + 1;
    }
  }

  lemma {:induction false} SourceFound(sendTo: Square, rank: nat, i: nat, j: nat)
    requires Sized(sendTo) && i < |sendTo| && j <= |sendTo|
    ensures
      var s := SourceIn(sendTo, rank, i, j);
      if s == -1 then forall k :: j <= k < |sendTo| ==> sendTo[k][i] != rank
      else j <= s < |sendTo| && sendTo[s][i] == rank
    decreases |sendTo| - j
  {
    if j < |sendTo| { SourceFound(sendTo, rank, i, j + 1); }
  }

  /** Any Latin square is a sound schedule. */
  lemma {:induction false} LatinSound(sendTo: Square)
    requires Latin(sendTo, FirstNumbers(|sendTo|))
    ensures Sound(Random(sendTo))
  {
    var s, n := Random(sendTo), |sendTo|;
    forall r: nat, i: nat | InTurn(s, r, i) ensures 0 <= s.dest(r, i) < n && 0 <= s.source(r, i) < n {
      LatinSource(sendTo, r, i);
      assert Permutes(sendTo[r], FirstNumbers(n)) && sendTo[r][i] in sendTo[r];
    }
    forall r: nat, q: nat, i: nat | InTurn(s, r, i) && InTurn(s, q, i) ensures s.dest(r, i) == q <==> s.source(q, i) == r {
      LatinSource(sendTo, q, i);
      var c := Column(sendTo, i);
      assert Permutes(c, FirstNumbers(n)) && c[r] == sendTo[r][i];
      var source := SourceIn(sendTo, q, i, 0);
      assert c[source] == q;
    }
    forall r: nat, i: nat, k: nat | InTurn(s, r, i) && InTurn(s, r, k) && i != k ensures s.dest(r, i) != s.dest(r, k) {
      assert Permutes(sendTo[r], FirstNumbers(n));
    }
  }

  lemma {:induction false} LatinSource(sendTo: Square, rank: nat, i: nat)
    requires Latin(sendTo, FirstNumbers(|sendTo|)) && rank < |sendTo| && i < |sendTo|
    ensures var s := SourceIn(sendTo, rank, i, 0); 0 <= s < |sendTo| && sendTo[s][i] == rank
  {
    SourceFound(sendTo, rank, i, 0);
    var c := Column(sendTo, i);
    assert Permutes(c, FirstNumbers(|sendTo|)) && rank in FirstNumbers(|sendTo|);
    var k :| 0 <= k < |c| && c[k] == rank;
    assert sendTo[k][i] == rank;
  }

  // ----- the exchange -----

  /** Send i of rank s has been matched with receive k of rank d. */
  datatype Pair = Pair(s: nat, i: nat, d: nat, k: nat)

  /** The iteration each rank is in, whether it has posted its requests of it, and the
      matches made so far. */
  datatype State = State(at: seq<nat>, posted: seq<bool>, pairs: set<Pair>)

  ghost predicate Init(s: Schedule, t: State) {
    && |t.at| == |t.posted| == s.n && t.pairs == {}
    && forall r :: 0 <= r < s.n ==> t.at[r] == 1 && !t.posted[r]
  }

  ghost predicate Posted(s: Schedule, t: State, r: nat, i: nat) {
    InTurn(s, r, i) && r < |t.at| == |t.posted| && (i < t.at[r] || (i == t.at[r] && t.posted[r]))
  }

  ghost predicate SendMatched(t: State, r: nat, i: nat) {
    exists p :: p in t.pairs && p.s == r && p.i == i
  }

  ghost predicate RecvMatched(t: State, r: nat, i: nat) {
    exists p :: p in t.pairs && p.d == r && p.k == i
  }

  ghost predicate Post(s: Schedule, t: State, t': State, r: nat) {
    && r < |t.at| == |t.posted| && t.at[r] < s.end && !t.posted[r]
    && t' == t.(posted := t.posted[r := true])
  }

  /** Earlier sends and receives between the two ranks are matched already (the order that
      section 3.5 of MPI-3.1 guarantees). */
  ghost predicate Next(s: Schedule, t: State, p: Pair) {
    && (forall i: nat :: i < p.i && Posted(s, t, p.s, i) && s.dest(p.s, i) == p.d ==> SendMatched(t, p.s, i))
    && (forall k: nat :: k < p.k && Posted(s, t, p.d, k) && s.source(p.d, k) == p.s ==> RecvMatched(t, p.d, k))
  }

  /** A posted send and a posted receive that name each other; which of several is only
      restricted if messages between two ranks keep their order. */
  ghost predicate Match(s: Schedule, t: State, t': State, p: Pair, ordered: bool) {
    && Posted(s, t, p.s, p.i) && Posted(s, t, p.d, p.k)
    && s.dest(p.s, p.i) == p.d && s.source(p.d, p.k) == p.s
    && !SendMatched(t, p.s, p.i) && !RecvMatched(t, p.d, p.k)
    && (ordered ==> Next(s, t, p))
    && t' == t.(pairs := t.pairs + {p})
  }

  /** Both requests are complete; a buffered send is complete without a match. */
  ghost predicate Wait(s: Schedule, t: State, t': State, r: nat, buffered: bool) {
    && r < |t.at| == |t.posted| && t.at[r] < s.end && t.posted[r]
    && RecvMatched(t, r, t.at[r]) && (buffered || SendMatched(t, r, t.at[r]))
    && t' == t.(at := t.at[r := t.at[r] + 1], posted := t.posted[r := false])
  }

  ghost predicate Moves(s: Schedule, t: State, t': State, buffered: bool, ordered: bool) {
    || (exists r: nat :: Post(s, t, t', r))
    || (exists p :: Match(s, t, t', p, ordered))
    || (exists r: nat :: Wait(s, t, t', r, buffered))
  }

  ghost predicate Run(s: Schedule, tr: seq<State>, ordered: bool) {
    tr != [] && Init(s, tr[0]) && forall i :: 0 <= i < |tr| - 1 ==> Moves(s, tr[i], tr[i + 1], true, ordered)
  }

  /** What a schedule needs: without an order of messages, no pair of ranks may repeat. */
  ghost predicate Safe(s: Schedule, ordered: bool) {
    Meets(s) && (ordered || NoRepeat(s))
  }

  ghost predicate Inv(s: Schedule, t: State) {
    && |t.at| == |t.posted| == s.n
    && (forall r :: 0 <= r < s.n ==> 1 <= t.at[r] && (s.end >= 1 ==> t.at[r] <= s.end) && (t.posted[r] ==> t.at[r] < s.end))
    && (forall p :: p in t.pairs ==>
          && p.i == p.k && Posted(s, t, p.s, p.i) && Posted(s, t, p.d, p.i)
          && s.dest(p.s, p.i) == p.d && s.source(p.d, p.i) == p.s)
    && (forall r: nat, i: nat :: r < s.n && 1 <= i < t.at[r] ==> RecvMatched(t, r, i))
  }

  lemma {:induction false} NextInv(s: Schedule, t: State, t': State, ordered: bool)
    requires Safe(s, ordered) && Inv(s, t) && Moves(s, t, t', true, ordered)
    ensures Inv(s, t')
  {
    hide Safe, RecvMatched, SendMatched, Next;
    if r: nat :| Post(s, t, t', r) {
      KeepsRecv(s, t, t');
    } else if p :| Match(s, t, t', p, ordered) {
      SameIteration(s, t, t', p, ordered);
      MatchInv(s, t, t', p, ordered);
    } else {
      var r: nat :| Wait(s, t, t', r, true);
      KeepsRecv(s, t, t');
    }
  }

  lemma {:induction false} MatchInv(s: Schedule, t: State, t': State, p: Pair, ordered: bool)
    requires Inv(s, t) && Match(s, t, t', p, ordered) && p.i == p.k
    ensures Inv(s, t')
  {
    KeepsRecv(s, t, t');
    hide RecvMatched, SendMatched, Next;
  }

  lemma {:induction false} KeepsRecv(s: Schedule, t: State, t': State)
    requires t.pairs <= t'.pairs
    ensures forall r: nat, i: nat :: RecvMatched(t, r, i) ==> RecvMatched(t', r, i)
    ensures forall r: nat, i: nat :: SendMatched(t, r, i) ==> SendMatched(t', r, i)
  {
  }

  /** Send and receive of one iteration are matched together. */
  lemma {:induction false} MatchedTogether(s: Schedule, t: State, r: nat, q: nat, i: nat)
    requires Meets(s) && Inv(s, t) && InTurn(s, r, i) && InTurn(s, q, i) && s.dest(r, i) == q
    ensures SendMatched(t, r, i) <==> RecvMatched(t, q, i)
  {
    if SendMatched(t, r, i) {
      var o :| o in t.pairs && o.s == r && o.i == i;
      assert o.d == q && o.k == i;
    }
    if RecvMatched(t, q, i) {
      var o :| o in t.pairs && o.d == q && o.k == i;
      assert o.s == r && o.i == i;
    }
  }

  /** A send and a receive that are matched are of the same iteration: otherwise the partner
      of the earlier one would still be free. */
  lemma {:induction false} SameIteration(s: Schedule, t: State, t': State, p: Pair, ordered: bool)
    requires Safe(s, ordered) && Inv(s, t) && Match(s, t, t', p, ordered)
    ensures p.i == p.k
  {
    assert InTurn(s, p.d, p.i) && InTurn(s, p.s, p.k);
    assert s.dest(p.s, p.k) == p.d;
    MatchedTogether(s, t, p.s, p.d, p.i);
    MatchedTogether(s, t, p.s, p.d, p.k);
  }

  lemma {:induction false} RunInv(s: Schedule, tr: seq<State>, i: nat, ordered: bool)
    requires Safe(s, ordered) && Run(s, tr, ordered) && i < |tr|
    ensures Inv(s, tr[i])
  {
    if i > 0 {
      RunInv(s, tr, i - 1, ordered);
      hide Safe, Inv, Moves;
      assert Moves(s, tr[i - 1], tr[i - 1 + 1], true, ordered);
      NextInv(s, tr[i - 1], tr[i], ordered);
    }
  }

  /** No receive gets the message of another iteration, in any run. */
  lemma {:induction false} NoOtherMessage(s: Schedule, tr: seq<State>, i: nat, ordered: bool, p: Pair)
    requires Safe(s, ordered) && Run(s, tr, ordered) && i < |tr| && p in tr[i].pairs
    ensures p.i == p.k && s.dest(p.s, p.i) == p.d
  {
    RunInv(s, tr, i, ordered);
  }

  // ----- no deadlock -----

  lemma {:induction false} Slowest(at: seq<nat>) returns (r: nat)
    requires at != []
    ensures r < |at| && forall q :: 0 <= q < |at| ==> at[r] <= at[q]
  {
    r := 0;
    var j := 1;
    while j < |at|
      invariant 1 <= j <= |at| && r < |at| && forall q :: 0 <= q < j ==> at[r] <= at[q]
    {
      if at[j] < at[r] { r := j; }
      j := j + 1;
    }
  }

  ghost predicate CanMove(s: Schedule, t: State, ordered: bool) {
    exists t' :: Moves(s, t, t', false, ordered)
  }

  /** What lies behind both ranks is matched. */
  lemma {:induction false} IsNext(s: Schedule, t: State, p: Pair)
    requires Meets(s) && Inv(s, t) && p.i == p.k && p.d < s.n && p.i <= t.at[p.d]
    ensures Next(s, t, p)
  {
    forall i: nat | i < p.i && Posted(s, t, p.s, i) && s.dest(p.s, i) == p.d ensures SendMatched(t, p.s, i) {
      assert RecvMatched(t, p.d, i) && InTurn(s, p.d, i);
      MatchedTogether(s, t, p.s, p.d, i);
    }
  }

  /** Send and receive of one iteration are matched together, or can be. */
  lemma {:induction false} Partners(s: Schedule, t: State, r: nat, q: nat, i: nat, ordered: bool)
    requires Meets(s) && Inv(s, t) && Posted(s, t, r, i) && Posted(s, t, q, i) && s.dest(r, i) == q
    ensures CanMove(s, t, ordered) || (SendMatched(t, r, i) && RecvMatched(t, q, i))
  {
    assert InTurn(s, r, i) && InTurn(s, q, i) && s.source(q, i) == r;
    var p := Pair(r, i, q, i);
    IsNext(s, t, p);
    MatchedTogether(s, t, r, q, i);
    hide Meets, Next;
    if !SendMatched(t, r, i) {
      var t' := t.(pairs := t.pairs + {p});
      assert Match(s, t, t', p, ordered);
      assert Moves(s, t, t', false, ordered);
    }
  }

  lemma {:induction false} SlowestMoves(s: Schedule, t: State, r: nat, ordered: bool)
    requires Meets(s) && Inv(s, t) && r < s.n && t.at[r] < s.end && t.posted[r]
    requires forall q: nat :: q < s.n ==> Posted(s, t, q, t.at[r])
    ensures CanMove(s, t, ordered)
  {
    var m := t.at[r];
    assert InTurn(s, r, m);
    var d: nat, source: nat := s.dest(r, m), s.source(r, m);
    assert s.dest(source, m) == r by { assert InTurn(s, source, m); }
    Partners(s, t, r, d, m, ordered);
    Partners(s, t, source, r, m, ordered);
    hide Meets, Inv;
    if SendMatched(t, r, m) && RecvMatched(t, r, m) {
      var t' := t.(at := t.at[r := m + 1], posted := t.posted[r := false]);
      assert Wait(s, t, t', r, false);
      assert Moves(s, t, t', false, ordered);
    }
  }

  /** While a rank is not finished there is a step, even if no send is buffered. */
  lemma {:induction false} NoDeadlock(s: Schedule, tr: seq<State>, i: nat, ordered: bool, some: nat)
    requires Safe(s, ordered) && Run(s, tr, ordered) && i < |tr|
    requires some < s.n && |tr[i].at| == s.n && tr[i].at[some] < s.end
    ensures CanMove(s, tr[i], ordered)
  {
    var t := tr[i];
    RunInv(s, tr, i, ordered);
    var r := Slowest(t.at);
    if q :| 0 <= q < s.n && t.at[q] == t.at[r] && !t.posted[q] {
      var t' := t.(posted := t.posted[q := true]);
      assert Post(s, t, t', q);
      assert Moves(s, t, t', false, ordered);
    } else {
      forall q: nat | q < s.n ensures Posted(s, t, q, t.at[r]) {}
      SlowestMoves(s, t, r, ordered);
    }
  }

  // ----- every run ends -----

  ghost function Work(at: seq<nat>, posted: seq<bool>): nat
    requires |at| == |posted|
  {
    if at == [] then 0
    else
      var n := |at| - 1;
      Work(at[..n], posted[..n]) + 2 * at[n] + if posted[n] then 1 else 0
  }

  lemma {:induction false} WorkUpdate(at: seq<nat>, posted: seq<bool>, r: nat, x: nat, b: bool)
    requires r < |at| == |posted|
    ensures Work(at[r := x], posted[r := b])
         == Work(at, posted) - 2 * at[r] - (if posted[r] then 1 else 0) + 2 * x + if b then 1 else 0
  {
    var n := |at| - 1;
    if r < n {
      assert at[r := x][..n] == at[..n][r := x] && posted[r := b][..n] == posted[..n][r := b];
      WorkUpdate(at[..n], posted[..n], r, x, b);
    } else {
      assert at[r := x][..n] == at[..n] && posted[r := b][..n] == posted[..n];
    }
  }

  lemma {:induction false} WorkBound(at: seq<nat>, posted: seq<bool>, n: nat)
    requires |at| == |posted| && forall r :: 0 <= r < |at| ==> at[r] <= n && (posted[r] ==> at[r] < n)
    ensures Work(at, posted) <= 2 * n * |at|
  {
    if at != [] {
      var m := |at| - 1;
      WorkBound(at[..m], posted[..m], n);
      assert 2 * n * |at| == 2 * n * m + 2 * n;
    }
  }

  ghost function Turns(n: nat, m: nat): (turns: set<(nat, nat)>)
    ensures |turns| <= n * m
    ensures forall r: nat, i: nat :: (r, i) in turns <==> r < n && i < m
  {
    if n == 0 then {}
    else
      var row := Row(n - 1, m);
      assert n * m == (n - 1) * m + m;
      Turns(n - 1, m) + row
  }

  ghost function Row(r: nat, m: nat): (row: set<(nat, nat)>)
    ensures |row| <= m
    ensures forall q: nat, i: nat :: (q, i) in row <==> q == r && i < m
  {
    if m == 0 then {} else Row(r, m - 1) + {(r, m - 1)}
  }

  lemma {:induction false} PairsBound(s: Schedule, t: State)
    requires Inv(s, t)
    ensures |t.pairs| <= s.n * s.end
  {
    var sends := set p | p in t.pairs :: (p.s, p.i);
    assert sends <= Turns(s.n, s.end);
    Smaller(sends, Turns(s.n, s.end));
    SamePairs(s, t, t.pairs);
  }

  lemma {:induction false} Smaller<T>(a: set<T>, b: set<T>)
    requires a <= b
    ensures |a| <= |b|
  {
    assert b == a + (b - a);
  }

  /** Different pairs are of different sends. */
  lemma {:induction false} SamePairs(s: Schedule, t: State, pairs: set<Pair>)
    requires Inv(s, t) && pairs <= t.pairs
    ensures |pairs| == |set p | p in pairs :: (p.s, p.i)|
    decreases |pairs|
  {
    if pairs == {} {
      assert (set p | p in pairs :: (p.s, p.i)) == {};
    } else {
      var p :| p in pairs;
      var rest := pairs - {p};
      SamePairs(s, t, rest);
      var sends := set q | q in rest :: (q.s, q.i);
      assert (set q | q in pairs :: (q.s, q.i)) == sends + {(p.s, p.i)};
      assert (p.s, p.i) !in sends;
    }
  }

  lemma {:induction false} NextWorks(s: Schedule, t: State, t': State, ordered: bool)
    requires |t.at| == |t.posted| && Moves(s, t, t', true, ordered)
    ensures |t'.at| == |t'.posted| && Work(t'.at, t'.posted) + |t'.pairs| > Work(t.at, t.posted) + |t.pairs|
  {
    hide Work, RecvMatched, Posted, Next;
    if r: nat :| Post(s, t, t', r) {
      WorkUpdate(t.at, t.posted, r, t.at[r], true);
      assert t.at[r := t.at[r]] == t.at;
    } else if p :| Match(s, t, t', p, ordered) {
      assert p in t.pairs ==> SendMatched(t, p.s, p.i);
    } else {
      var r: nat :| Wait(s, t, t', r, true);
      WorkUpdate(t.at, t.posted, r, t.at[r] + 1, false);
    }
  }

  lemma {:induction false} RunWorks(s: Schedule, tr: seq<State>, i: nat, ordered: bool)
    requires Safe(s, ordered) && Run(s, tr, ordered) && i < |tr|
    ensures |tr[i].at| == |tr[i].posted| && Work(tr[i].at, tr[i].posted) + |tr[i].pairs| >= i
  {
    RunInv(s, tr, i, ordered);
    if i > 0 {
      RunWorks(s, tr, i - 1, ordered);
      RunInv(s, tr, i - 1, ordered);
      hide Moves, Safe, Inv;
      assert Moves(s, tr[i - 1], tr[i - 1 + 1], true, ordered);
      NextWorks(s, tr[i - 1], tr[i], ordered);
    }
  }

  /** Every run is finite. */
  lemma {:induction false} RunsEnd(s: Schedule, tr: seq<State>, ordered: bool)
    requires Safe(s, ordered) && Run(s, tr, ordered) && (s.n >= 1 ==> s.end >= 1)
    ensures |tr| <= 3 * s.end * s.n + 1
  {
    var t := tr[|tr| - 1];
    RunInv(s, tr, |tr| - 1, ordered);
    RunWorks(s, tr, |tr| - 1, ordered);
    WorkBound(t.at, t.posted, s.end);
    PairsBound(s, t);
    hide Safe, Run, Inv, Work;
    BoundsTogether(s.n, s.end, Work(t.at, t.posted), |t.pairs|);
  }

  lemma {:induction false} BoundsTogether(n: nat, end: nat, work: nat, pairs: nat)
    requires work <= 2 * end * n && pairs <= n * end
    ensures work + pairs <= 3 * end * n
  {
  }

  /** A run that cannot go on has delivered every message of every iteration to the rank
      that expected it. */
  lemma {:induction false} EndsDelivered(s: Schedule, tr: seq<State>, ordered: bool, r: nat, i: nat)
    requires Safe(s, ordered) && Run(s, tr, ordered) && !CanMove(s, tr[|tr| - 1], ordered) && InTurn(s, r, i)
    ensures Pair(r, i, s.dest(r, i), i) in tr[|tr| - 1].pairs
  {
    var t := tr[|tr| - 1];
    RunInv(s, tr, |tr| - 1, ordered);
    var d: nat := s.dest(r, i);
    if t.at[d] < s.end { NoDeadlock(s, tr, |tr| - 1, ordered, d); }
    assert RecvMatched(t, d, i);
    var p :| p in t.pairs && p.d == d && p.k == i;
    assert InTurn(s, d, i) && s.source(d, i) == r;
    assert p == Pair(r, i, d, i);
  }

  // ----- calls in a row -----

  /** Which call on n ranks an iteration of all of them belongs to, and which of its own
      iterations it is. */
  function CallOf(n: nat, i: nat): nat
    requires n >= 2 && i >= 1
  {
    (i - 1) / (n - 1)
  }

  function TurnOf(n: nat, i: nat): (turn: nat)
    requires n >= 2 && i >= 1
    ensures 1 <= turn < n
  {
    (i - 1) % (n - 1) + 1
  }

  /** The calls one after the other. A rank begins the next one as soon as it is done. */
  function Joined(n: nat, calls: seq<Schedule>): Schedule
    requires n >= 1
  {
    Schedule(n, 1 + |calls| * (n - 1),
      (r: nat, i: nat) => if n >= 2 && i >= 1 && CallOf(n, i) < |calls| then calls[CallOf(n, i)].dest(r, TurnOf(n, i)) else 0,
      (r: nat, i: nat) => if n >= 2 && i >= 1 && CallOf(n, i) < |calls| then calls[CallOf(n, i)].source(r, TurnOf(n, i)) else 0)
  }

  ghost predicate AllCalls(n: nat, calls: seq<Schedule>) {
    forall c :: 0 <= c < |calls| ==> calls[c].n == calls[c].end == n && Meets(calls[c])
  }

  lemma {:induction false} InCall(n: nat, calls: seq<Schedule>, r: nat, i: nat)
    requires n >= 1 && AllCalls(n, calls) && InTurn(Joined(n, calls), r, i)
    ensures n >= 2 && CallOf(n, i) < |calls| && InTurn(calls[CallOf(n, i)], r, TurnOf(n, i))
  {
    DivBelow(i - 1, n - 1, |calls|);
  }

  lemma {:induction false} DivBelow(x: nat, w: nat, k: nat)
    requires x < k * w
    ensures w >= 1 && x / w < k
  {
    assert w == 0 ==> k * w == 0;
    var q := if w >= 1 then x / w else 0;
    assert w >= 1 ==> x == q * w + x % w;
    TimesMore(q, k, w);
  }

  lemma {:induction false} TimesMore(q: nat, k: nat, w: nat)
    ensures 0 * w == 0 && (q >= k ==> q * w >= k * w)
  {
    if q >= k {
      ProductNotNegative(q - k, w);
      assert (q - k) * w == q * w - k * w;
    }
  }

  /** Calls that meet still meet one after the other, though pairs of ranks repeat. */
  lemma {:induction false} JoinedMeets(n: nat, calls: seq<Schedule>)
    requires n >= 1 && AllCalls(n, calls)
    ensures Meets(Joined(n, calls))
  {
    var s := Joined(n, calls);
    forall r: nat, i: nat | InTurn(s, r, i) ensures 0 <= s.dest(r, i) < s.n && 0 <= s.source(r, i) < s.n {
      InCall(n, calls, r, i);
    }
    forall r: nat, q: nat, i: nat | InTurn(s, r, i) && InTurn(s, q, i) ensures s.dest(r, i) == q <==> s.source(q, i) == r {
      InCall(n, calls, r, i);
      InCall(n, calls, q, i);
    }
  }

  /** In any number of calls with one tag and no barrier, no receive gets a message of
      another call, or of another iteration of its own. */
  lemma {:induction false} NoOtherCall(n: nat, calls: seq<Schedule>, tr: seq<State>, i: nat, p: Pair)
    requires n >= 1 && AllCalls(n, calls) && Run(Joined(n, calls), tr, true) && i < |tr| && p in tr[i].pairs
    ensures n >= 2 && p.i >= 1 && p.k >= 1 && CallOf(n, p.i) == CallOf(n, p.k) < |calls| && TurnOf(n, p.i) == TurnOf(n, p.k)
    ensures calls[CallOf(n, p.i)].dest(p.s, TurnOf(n, p.i)) == p.d
  {
    JoinedMeets(n, calls);
    RunInv(Joined(n, calls), tr, i, true);
    assert Posted(Joined(n, calls), tr[i], p.s, p.i);
    InCall(n, calls, p.s, p.i);
  }

  /** The order is needed: without it, in two calls of two ranks, the message of the second
      call overtakes that of the first. */
  lemma {:induction false} Overtaken() returns (s: Schedule, tr: seq<State>)
    ensures s == Joined(2, [Linear(2), Linear(2)]) && tr != [] && Run(s, tr, false) && Pair(0, 2, 1, 1) in tr[|tr| - 1].pairs
  {
    s := Joined(2, [Linear(2), Linear(2)]);
    hide Run, Joined, Linear;
    TwoRanks(s);
    tr := OvertakenIn(s);
  }

  lemma {:induction false} OvertakenIn(s: Schedule) returns (tr: seq<State>)
    requires s.n == 2 && s.end == 3 && s.dest(1, 1) == 0 && s.source(0, 1) == 1 && s.dest(0, 2) == 1 && s.source(1, 1) == 0
    ensures tr != [] && Run(s, tr, false) && Pair(0, 2, 1, 1) in tr[|tr| - 1].pairs
  {
    var t0 := State([1, 1], [false, false], {});
    assert Init(s, t0);
    tr := [t0];
    assert Run(s, tr, false);
    hide Moves, Init, Run;
    var t1, t2, t3 := FirstSteps(s, t0);
    var t4, t5, t6 := LastSteps(s, t3);
    tr := RunMore(s, tr, t1);
    tr := RunMore(s, tr, t2);
    tr := RunMore(s, tr, t3);
    tr := RunMore(s, tr, t4);
    tr := RunMore(s, tr, t5);
    tr := RunMore(s, tr, t6);
  }

  lemma {:induction false} RunMore(s: Schedule, tr: seq<State>, t: State) returns (more: seq<State>)
    requires tr != [] && Run(s, tr, false) && Moves(s, tr[|tr| - 1], t, true, false)
    ensures more == tr + [t] && Run(s, more, false)
  {
    more := tr + [t];
    hide Moves;
    forall i | 0 <= i < |more| - 1 ensures Moves(s, more[i], more[i + 1], true, false) {
      if i + 1 < |tr| { assert Moves(s, tr[i], tr[i + 1], true, false); }
    }
  }

  lemma {:induction false} FirstSteps(s: Schedule, t0: State) returns (t1: State, t2: State, t3: State)
    requires s.n == 2 && s.end == 3 && s.dest(1, 1) == 0 && s.source(0, 1) == 1 && t0 == State([1, 1], [false, false], {})
    ensures Moves(s, t0, t1, true, false) && Moves(s, t1, t2, true, false) && Moves(s, t2, t3, true, false)
    ensures t3 == State([1, 1], [true, true], {Pair(1, 1, 0, 1)})
  {
    hide Moves;
    t1 := PostMoves(s, t0, 0);
    t2 := PostMoves(s, t1, 1);
    t3 := MatchMoves(s, t2, Pair(1, 1, 0, 1));
  }

  lemma {:induction false} LastSteps(s: Schedule, t3: State) returns (t4: State, t5: State, t6: State)
    requires s.n == 2 && s.end == 3 && s.dest(0, 2) == 1 && s.source(1, 1) == 0
    requires t3 == State([1, 1], [true, true], {Pair(1, 1, 0, 1)})
    ensures Moves(s, t3, t4, true, false) && Moves(s, t4, t5, true, false) && Moves(s, t5, t6, true, false)
    ensures Pair(0, 2, 1, 1) in t6.pairs
  {
    hide Moves;
    t4 := WaitMoves(s, t3, 0, Pair(1, 1, 0, 1));
    t5 := PostMoves(s, t4, 0);
    t6 := MatchMoves(s, t5, Pair(0, 2, 1, 1));
  }

  lemma {:induction false} PostMoves(s: Schedule, t: State, r: nat) returns (t': State)
    requires r < |t.at| == |t.posted| && t.at[r] < s.end && !t.posted[r]
    ensures t' == t.(posted := t.posted[r := true]) && Moves(s, t, t', true, false)
  {
    t' := t.(posted := t.posted[r := true]);
    assert Post(s, t, t', r);
  }

  lemma {:induction false} MatchMoves(s: Schedule, t: State, p: Pair) returns (t': State)
    requires Posted(s, t, p.s, p.i) && Posted(s, t, p.d, p.k) && s.dest(p.s, p.i) == p.d && s.source(p.d, p.k) == p.s
    requires forall o :: o in t.pairs ==> (o.s, o.i) != (p.s, p.i) && (o.d, o.k) != (p.d, p.k)
    ensures t' == t.(pairs := t.pairs + {p}) && Moves(s, t, t', true, false)
  {
    t' := t.(pairs := t.pairs + {p});
    assert Match(s, t, t', p, false);
  }

  lemma {:induction false} WaitMoves(s: Schedule, t: State, r: nat, p: Pair) returns (t': State)
    requires r < |t.at| == |t.posted| && t.at[r] < s.end && t.posted[r] && p in t.pairs && p.d == r && p.k == t.at[r]
    ensures t' == t.(at := t.at[r := t.at[r] + 1], posted := t.posted[r := false]) && Moves(s, t, t', true, false)
  {
    t' := t.(at := t.at[r := t.at[r] + 1], posted := t.posted[r := false]);
    assert Wait(s, t, t', r, true);
  }

  lemma {:induction false} TwoRanks(s: Schedule)
    requires s == Joined(2, [Linear(2), Linear(2)])
    ensures s.n == 2 && s.end == 3 && s.dest(1, 1) == 0 && s.source(0, 1) == 1 && s.dest(0, 2) == 1 && s.source(1, 1) == 0
  {
    assert CallOf(2, 1) == 0 && CallOf(2, 2) == 1 && TurnOf(2, 1) == 1 && TurnOf(2, 2) == 1;
    assert GetDest(1, 1, 2) == 0 && GetDest(0, 1, 2) == 1 && GetSource(0, 1, 2) == 1 && GetSource(1, 1, 2) == 0;
    hide CallOf, TurnOf, GetDest, GetSource;
  }

  /** And a run of them that cannot go on has delivered every message of every call. */
  lemma {:induction false} CallsDelivered(n: nat, calls: seq<Schedule>, tr: seq<State>, c: nat, r: nat, turn: nat)
    requires n >= 1 && AllCalls(n, calls) && Run(Joined(n, calls), tr, true) && !CanMove(Joined(n, calls), tr[|tr| - 1], true)
    requires c < |calls| && InTurn(calls[c], r, turn)
    ensures
      var i := c * (n - 1) + turn;
      CallOf(n, i) == c && TurnOf(n, i) == turn && Pair(r, i, calls[c].dest(r, turn), i) in tr[|tr| - 1].pairs
  {
    var s, i := Joined(n, calls), c * (n - 1) + turn;
    JoinedMeets(n, calls);
    PlaceInCalls(n, |calls|, c, turn);
    assert InTurn(s, r, i);
    hide Run, CanMove, Meets;
    EndsDelivered(s, tr, true, r, i);
  }

  lemma {:induction false} PlaceInCalls(n: nat, calls: nat, c: nat, turn: nat)
    requires n >= 2 && c < calls && 1 <= turn < n
    ensures var i := c * (n - 1) + turn; 1 <= i < 1 + calls * (n - 1) && CallOf(n, i) == c && TurnOf(n, i) == turn
  {
    CallsBefore(c, calls, n - 1);
    DivAt(c, n - 1, turn - 1);
  }

  lemma {:induction false} CallsBefore(c: nat, calls: nat, w: nat)
    requires c < calls
    ensures 0 <= c * w && c * w + w <= calls * w
  {
    ProductNotNegative(c, w);
    ProductNotNegative(calls - c - 1, w);
    assert (calls - c - 1) * w == calls * w - c * w - w;
  }

  lemma {:induction false} ProductNotNegative(x: nat, y: nat)
    ensures x * y >= 0
  {
  }

  lemma {:induction false} DivAt(c: nat, w: nat, m: nat)
    requires m < w
    ensures (c * w + m) / w == c && (c * w + m) % w == m
  {
    var q, r := (c * w + m) / w, (c * w + m) % w;
    assert (q - c) * w == q * w - c * w == m - r;
    if q > c { CallsBefore(c, q, w); }
    if q < c { CallsBefore(q, c, w); }
  }
}
