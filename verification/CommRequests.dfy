/** The scheduler that drives the non-blocking operations on communicators. A request
    has a list of items, each a callback to be made once some subrequests are complete.
    A pass over the active requests looks at the first item of each. */
module CommRequests {

  type Sub = nat

  const MAX_SUBREQ := 2

  datatype Callback = NoCallback | Callback(f: nat)
  datatype Item = Item(callback: Callback, subs: seq<Sub>)
  datatype Status = Running | Succeeded | Failed
  datatype Request = Request(schedule: seq<Item>, status: Status)

  /** What a callback does: it appends items to its own request and returns a code. */
  datatype Answer = Answer(ok: bool, appended: seq<Item>)

  /** One visit of a request: which subrequests are complete, and what its callback
      does if it is made. */
  datatype Event = Event(complete: set<Sub>, answer: Answer)

  /** The subrequests are looked at and freed from the last to the first. */
  function Remaining(subs: seq<Sub>, complete: set<Sub>): (left: seq<Sub>)
    ensures left <= subs
    ensures forall i :: |left| <= i < |subs| ==> subs[i] in complete
    ensures left != [] ==> left[|left| - 1] !in complete
  {
    if subs == [] || subs[|subs| - 1] !in complete then subs else Remaining(subs[..|subs| - 1], complete)
  }

  predicate Made(q: Request, e: Event) {
    q.schedule != [] && Remaining(q.schedule[0].subs, e.complete) == []
  }

  /** A request that is not running is not active, and nothing visits it. */
  function Visited(q: Request, e: Event): Request {
    if q.status != Running then q
    else if q.schedule == [] then q.(status := Succeeded)
    else
      var item, rest := q.schedule[0], q.schedule[1..];
      if !Made(q, e) then q.(schedule := [item.(subs := Remaining(item.subs, e.complete))] + rest)
      else if item.callback == NoCallback then Request(rest, if rest == [] then Succeeded else Running)
      else
        var s := rest + e.answer.appended;
        Request(s, if s != [] then Running else if e.answer.ok then Succeeded else Failed)
  }

  function After(q: Request, es: seq<Event>): Request {
    if es == [] then q else Visited(After(q, es[..|es| - 1]), es[|es| - 1])
  }

  // ----- the order of the callbacks -----

  /** What a run has done: every item the request ever had, in the order they were added,
      how many of them are finished, the callbacks made, the subrequests that are freed,
      and those that were ever seen complete. */
  datatype History = History(added: seq<Item>, finished: nat, calls: seq<Callback>, freed: seq<Sub>, seen: set<Sub>)

  ghost predicate Calls(q: Request, e: Event) {
    q.status == Running && Made(q, e) && q.schedule[0].callback != NoCallback
  }

  ghost function Freed(q: Request, e: Event): seq<Sub> {
    if q.status != Running || q.schedule == [] then []
    else q.schedule[0].subs[|Remaining(q.schedule[0].subs, e.complete)|..]
  }

  ghost function Recorded(h: History, q: Request, e: Event): History {
    History(
      if Calls(q, e) then h.added + e.answer.appended else h.added,
      if q.status == Running && Made(q, e) then h.finished + 1 else h.finished,
      if Calls(q, e) then h.calls + [q.schedule[0].callback] else h.calls,
      h.freed + Freed(q, e),
      h.seen + e.complete)
  }

  ghost function HistoryOf(q: Request, es: seq<Event>): History {
    if es == [] then History(q.schedule, 0, [], [], {})
    else
      var before := es[..|es| - 1];
      Recorded(HistoryOf(q, before), After(q, before), es[|es| - 1])
  }

  function Bag(item: Item): multiset<Sub> {
    multiset(item.subs)
  }

  function Subs(items: seq<Item>): multiset<Sub> {
    if items == [] then multiset{} else Bag(items[0]) + Subs(items[1..])
  }

  /** Finished items and waiting ones are those added, in the order they were added;
      only the first waiting one can have lost subrequests. */
  ghost predicate Lined(h: History, q: Request) {
    && h.finished + |q.schedule| == |h.added|
    && (forall i :: 0 < i < |q.schedule| ==> q.schedule[i] == h.added[h.finished + i])
    && (q.schedule != [] ==>
          && q.schedule[0].callback == h.added[h.finished].callback
          && q.schedule[0].subs <= h.added[h.finished].subs)
  }

  /** Each subrequest is freed once, or waits. */
  ghost predicate FreedOnce(h: History, q: Request) {
    multiset(h.freed) + Subs(q.schedule) == Subs(h.added)
  }

  /** No subrequest is freed, and no callback made, before it was seen complete. */
  ghost predicate SeenFirst(h: History, q: Request) {
    && h.finished + |q.schedule| == |h.added|
    && (forall x :: x in h.freed ==> x in h.seen)
    && (forall i, x :: 0 <= i < h.finished && x in h.added[i].subs ==> x in h.seen)
    && (q.schedule != [] ==>
          forall i :: |q.schedule[0].subs| <= i < |h.added[h.finished].subs| ==> h.added[h.finished].subs[i] in h.seen)
  }

  function Callbacks(items: seq<Item>): seq<Callback> {
    if items == [] then []
    else
      var last := items[|items| - 1];
      Callbacks(items[..|items| - 1]) + if last.callback == NoCallback then [] else [last.callback]
  }

  /** The callbacks made are those of the finished items, in order and each once. */
  ghost predicate Called(h: History) {
    h.finished <= |h.added| && h.calls == Callbacks(h.added[..h.finished])
  }

  ghost predicate InOrder(h: History, q: Request) {
    Lined(h, q) && Called(h) && FreedOnce(h, q) && SeenFirst(h, q)
  }

  lemma {:induction false} SubsAppend(a: seq<Item>, b: seq<Item>)
    ensures Subs(a + b) == Subs(a) + Subs(b)
  {
    hide Bag;
    if a == [] {
      assert [] + b == b;
    } else {
      SubsAppend(a[1..], b);
      assert (a + b)[1..] == a[1..] + b && (a + b)[0] == a[0];
    }
  }

  lemma {:induction false} FreedSplits(h: History, q: Request, e: Event)
    requires q.status == Running && q.schedule != []
    ensures multiset(h.freed + Freed(q, e)) + multiset(Remaining(q.schedule[0].subs, e.complete)) == multiset(h.freed) + Bag(q.schedule[0])
  {
    var subs, left := q.schedule[0].subs, Remaining(q.schedule[0].subs, e.complete);
    assert subs == left + subs[|left|..];
  }

  lemma {:induction false} WaitLined(h: History, q: Request, e: Event)
    requires Lined(h, q) && q.status == Running && q.schedule != [] && !Made(q, e)
    ensures Lined(Recorded(h, q, e), Visited(q, e))
  {
  }

  lemma {:induction false} StillBalanced(freed: multiset<Sub>, freed': multiset<Sub>, head: multiset<Sub>,
      head': multiset<Sub>, rest: multiset<Sub>)
    requires freed' + head' == freed + head
    ensures freed' + (head' + rest) == freed + (head + rest)
  {
    calc {
      freed' + (head' + rest);
      (freed' + head') + rest;
      (freed + head) + rest;
    }
  }

  lemma {:induction false} WaitFreedOnce(h: History, q: Request, e: Event)
    requires FreedOnce(h, q) && q.status == Running && q.schedule != [] && !Made(q, e)
    ensures FreedOnce(Recorded(h, q, e), Visited(q, e))
  {
    var q' := Visited(q, e);
    var rest := q.schedule[1..];
    FreedSplits(h, q, e);
    assert q'.schedule[1..] == rest;
    assert Subs(q'.schedule) == Bag(q'.schedule[0]) + Subs(rest);
    assert Subs(q.schedule) == Bag(q.schedule[0]) + Subs(rest);
    assert Bag(q'.schedule[0]) == multiset(Remaining(q.schedule[0].subs, e.complete));
    assert Recorded(h, q, e).freed == h.freed + Freed(q, e) && Recorded(h, q, e).added == h.added;
    hide Subs, Bag, Freed, Remaining, Made, Visited, Recorded;
    StillBalanced(multiset(h.freed), multiset(h.freed + Freed(q, e)), Bag(q.schedule[0]), Bag(q'.schedule[0]), Subs(rest));
  }

  lemma {:induction false} WaitSeenFirst(h: History, q: Request, e: Event)
    requires Lined(h, q) && SeenFirst(h, q) && q.status == Running && q.schedule != [] && !Made(q, e)
    ensures SeenFirst(Recorded(h, q, e), Visited(q, e))
  {
    var subs, orig := q.schedule[0].subs, h.added[h.finished].subs;
    var left := Remaining(subs, e.complete);
    assert Freed(q, e) == subs[|left|..];
    forall i | |left| <= i < |orig| ensures orig[i] in h.seen + e.complete {
      if i < |subs| { assert subs[i] == orig[i]; }
    }
  }

  lemma {:induction false} CallLined(h: History, q: Request, e: Event)
    requires Lined(h, q) && q.status == Running && Made(q, e)
    ensures Lined(Recorded(h, q, e), Visited(q, e))
  {
  }

  lemma {:induction false} CallCalled(h: History, q: Request, e: Event)
    requires Lined(h, q) && Called(h) && q.status == Running && Made(q, e)
    ensures Called(Recorded(h, q, e))
  {
    var h' := Recorded(h, q, e);
    assert h'.added[..h'.finished][..h.finished] == h.added[..h.finished];
    assert h'.added[..h'.finished][h.finished] == h.added[h.finished];
  }

  lemma {:induction false} CallFreedOnce(h: History, q: Request, e: Event)
    requires FreedOnce(h, q) && q.status == Running && Made(q, e)
    ensures FreedOnce(Recorded(h, q, e), Visited(q, e))
  {
    var rest := q.schedule[1..];
    var more := if Calls(q, e) then e.answer.appended else [];
    assert Visited(q, e).schedule == rest + more && Recorded(h, q, e).added == h.added + more;
    FreedSplits(h, q, e);
    SubsAppend(h.added, more);
    SubsAppend(rest, more);
    assert Subs(q.schedule) == Bag(q.schedule[0]) + Subs(rest);
    assert Recorded(h, q, e).freed == h.freed + Freed(q, e);
    assert multiset(Remaining(q.schedule[0].subs, e.complete)) == multiset{};
    hide Subs, Bag, Freed, Remaining, Made, Visited, Recorded;
    StillBalanced(multiset(h.freed), multiset(h.freed + Freed(q, e)), Bag(q.schedule[0]), multiset{}, Subs(rest));
    assert multiset(h.freed + Freed(q, e)) + Subs(rest) == Subs(h.added);
  }

  lemma {:induction false} CallSeenFirst(h: History, q: Request, e: Event)
    requires Lined(h, q) && SeenFirst(h, q) && q.status == Running && Made(q, e)
    ensures SeenFirst(Recorded(h, q, e), Visited(q, e))
  {
    var h', orig, subs := Recorded(h, q, e), h.added[h.finished], q.schedule[0].subs;
    assert Remaining(subs, e.complete) == [];
    assert forall i :: 0 <= i < |subs| ==> subs[i] in e.complete;
    forall x | x in orig.subs ensures x in h'.seen {
      var i :| 0 <= i < |orig.subs| && orig.subs[i] == x;
      if i < |subs| { assert subs[i] == x; }
    }
    assert forall i :: 0 <= i < |h.added| ==> h'.added[i] == h.added[i];
    assert Freed(q, e) == subs;
  }

  lemma {:induction false} RunInOrder(q: Request, es: seq<Event>)
    requires q.status == Running
    ensures InOrder(HistoryOf(q, es), After(q, es))
  {
    hide InOrder, Visited, Recorded;
    if es == [] {
      StartInOrder(q);
    } else {
      var before, e := es[..|es| - 1], es[|es| - 1];
      RunInOrder(q, before);
      VisitInOrder(HistoryOf(q, before), After(q, before), e);
    }
  }

  lemma {:induction false} StartInOrder(q: Request)
    ensures InOrder(History(q.schedule, 0, [], [], {}), q)
  {
  }

  lemma {:induction false} VisitInOrder(h: History, q: Request, e: Event)
    requires InOrder(h, q)
    ensures InOrder(Recorded(h, q, e), Visited(q, e))
  {
    if q.status == Running && q.schedule != [] {
      if Made(q, e) {
        CallLined(h, q, e);
        CallCalled(h, q, e);
        CallFreedOnce(h, q, e);
        CallSeenFirst(h, q, e);
      } else {
        WaitLined(h, q, e);
        WaitFreedOnce(h, q, e);
        WaitSeenFirst(h, q, e);
      }
    } else {
      assert h.freed + [] == h.freed;
    }
  }

  // ----- how a request ends -----

  lemma {:induction false} EndedStays(q: Request, es: seq<Event>)
    requires q.status != Running
    ensures After(q, es) == q
  {
    if es != [] { EndedStays(q, es[..|es| - 1]); }
  }

  /** A request ends when it has nothing left to do. */
  lemma {:induction false} EndsEmpty(q: Request, es: seq<Event>)
    requires q.status == Running && After(q, es).status != Running
    ensures After(q, es).schedule == []
  {
    if es != [] {
      var q' := After(q, es[..|es| - 1]);
      if q'.status != Running { EndsEmpty(q, es[..|es| - 1]); }
    }
  }

  /** The first callback fails in this visit. */
  ghost predicate Fails(q: Request, e: Event) {
    Calls(q, e) && !e.answer.ok
  }

  /** The code of a callback is kept only if nothing is left to do after it: a request
      can still end with success after a failed callback unless that was its only item
      and nothing was appended to it. */
  lemma {:induction false} FailureReported(q: Request, e: Event)
    requires Fails(q, e)
    ensures |q.schedule| == 1 && e.answer.appended == [] <==> forall es :: After(Visited(q, e), es).status != Succeeded
  {
    var q' := Visited(q, e);
    assert q'.schedule == [] <==> |q.schedule| == 1 && e.answer.appended == [];
    if q'.schedule == [] {
      forall es ensures After(q', es).status != Succeeded { EndedStays(q', es); }
    } else {
      var es := Finish(q');
      assert After(q', es).status == Succeeded;
    }
  }

  /** A request with two items whose first callback fails ends with success. */
  lemma {:induction false} FailureLost(f: Callback, g: Callback)
    requires f != NoCallback
    ensures
      var q := Request([Item(f, []), Item(g, [])], Running);
      var fails, succeeds := Event({}, Answer(false, [])), Event({}, Answer(true, []));
      Fails(q, fails) && After(q, [fails, succeeds]).status == Succeeded
  {
    var q := Request([Item(f, []), Item(g, [])], Running);
    var fails, succeeds := Event({}, Answer(false, [])), Event({}, Answer(true, []));
    assert [fails, succeeds][..1] == [fails] && [fails][..0] == [];
    assert After(q, [fails]) == Visited(After(q, []), fails);
    assert Visited(q, fails) == Request([Item(g, [])], Running);
  }

  lemma {:induction false} AfterFirst(q: Request, e: Event, es: seq<Event>)
    ensures After(q, [e] + es) == After(Visited(q, e), es)
  {
    if es == [] {
      assert [e] + es == [e];
      assert [e][..0] == [];
    } else {
      var k := |es|;
      assert ([e] + es)[..k] == [e] + es[..k - 1];
      AfterFirst(q, e, es[..k - 1]);
    }
  }

  lemma {:induction false} AllFreed(subs: seq<Sub>, complete: set<Sub>)
    requires forall x :: x in subs ==> x in complete
    ensures Remaining(subs, complete) == []
  {
    if subs != [] { AllFreed(subs[..|subs| - 1], complete); }
  }

  /** Visits that bring any running request to a good end. */
  lemma {:induction false} Finish(q: Request) returns (es: seq<Event>)
    requires q.status == Running
    ensures After(q, es).status == Succeeded
    decreases |q.schedule|
  {
    if q.schedule == [] {
      var e := Event({}, Answer(true, []));
      es := [e];
      assert es[..0] == [];
    } else {
      var all := set x | x in q.schedule[0].subs;
      var e := Event(all, Answer(true, []));
      AllFreed(q.schedule[0].subs, all);
      var q' := Visited(q, e);
      assert q'.schedule == q.schedule[1..];
      if q'.status == Running {
        es := Finish(q');
      } else {
        es := [];
      }
      AfterFirst(q, e, es);
      es := [e] + es;
    }
  }

  // ----- the requests of the non-blocking allocation of an id -----

  const GETNEXTCID := Callback(0)
  const CHECKCID := Callback(1)
  const CHECKFLAG := Callback(2)

  /** What the three callbacks of the allocation do: they append one item or none, and
      none if they fail. Only the last one can succeed with none. */
  ghost predicate CidAnswer(f: Callback, a: Answer) {
    || (!a.ok && a.appended == [])
    || (f == CHECKFLAG && a.ok && a.appended == [])
    || (f in {GETNEXTCID, CHECKFLAG} && a.ok && a.appended == [Item(GETNEXTCID, [])])
    || (f in {GETNEXTCID, CHECKFLAG} && a.ok && exists x: Sub :: a.appended == [Item(CHECKCID, [x])])
    || (f == CHECKCID && a.ok && exists x: Sub :: a.appended == [Item(CHECKFLAG, [x])])
  }

  ghost predicate CidRun(q: Request, es: seq<Event>) {
    forall i :: 0 <= i < |es| ==> (Calls(After(q, es[..i]), es[i]) ==> CidAnswer(After(q, es[..i]).schedule[0].callback, es[i].answer))
  }

  /** The one item that is scheduled is the place of the process in the program. */
  ghost predicate OneItem(q: Request) {
    && (q.status == Running ==> |q.schedule| == 1 && q.schedule[0].callback in {GETNEXTCID, CHECKCID, CHECKFLAG})
    && (q.status != Running ==> q.schedule == [])
  }

  lemma {:induction false} CidVisit(q: Request, e: Event)
    requires OneItem(q) && (Calls(q, e) ==> CidAnswer(q.schedule[0].callback, e.answer))
    ensures OneItem(Visited(q, e))
    ensures Fails(q, e) ==> Visited(q, e).status == Failed
    ensures q.status == Running && Visited(q, e).status == Succeeded ==>
              Calls(q, e) && q.schedule[0].callback == CHECKFLAG && e.answer.ok && e.answer.appended == []
  {
    if Calls(q, e) {
      assert q.schedule[1..] == [];
      assert Visited(q, e).schedule == e.answer.appended;
    }
  }

  lemma {:induction false} CidOneItem(q: Request, es: seq<Event>)
    requires q == Request([Item(GETNEXTCID, [])], Running) && CidRun(q, es)
    ensures OneItem(After(q, es))
  {
    hide CidAnswer, Visited;
    if es != [] {
      var k := |es| - 1;
      CidRunPrefix(q, es, k);
      CidOneItem(q, es[..k]);
      CidVisit(After(q, es[..k]), es[k]);
    }
  }

  lemma {:induction false} CidRunPrefix(q: Request, es: seq<Event>, k: nat)
    requires CidRun(q, es) && k <= |es|
    ensures CidRun(q, es[..k])
  {
    hide CidAnswer, Visited, Calls, After;
    assert forall i :: 0 <= i < k ==> es[..k][..i] == es[..i] && es[..k][i] == es[i];
  }

  /** A callback of the request failed. */
  ghost predicate SomeFailed(q: Request, es: seq<Event>) {
    exists i :: 0 <= i < |es| && Fails(After(q, es[..i]), es[i])
  }

  lemma {:induction false} SomeFailedLast(q: Request, es: seq<Event>)
    requires es != []
    ensures SomeFailed(q, es) <==> SomeFailed(q, es[..|es| - 1]) || Fails(After(q, es[..|es| - 1]), es[|es| - 1])
  {
    hide Fails, After;
    var k := |es| - 1;
    assert forall i :: 0 <= i < k ==> es[..k][..i] == es[..i] && es[..k][i] == es[i];
    if SomeFailed(q, es) {
      var i :| 0 <= i < |es| && Fails(After(q, es[..i]), es[i]);
      assert i < k ==> Fails(After(q, es[..k][..i]), es[..k][i]);
    }
    if SomeFailed(q, es[..k]) {
      var i :| 0 <= i < k && Fails(After(q, es[..k][..i]), es[..k][i]);
      assert Fails(After(q, es[..i]), es[i]);
    }
  }

  /** So it never does two things at once, and fails exactly if a callback failed. */
  lemma {:induction false} CidFails(q: Request, es: seq<Event>)
    requires q == Request([Item(GETNEXTCID, [])], Running) && CidRun(q, es)
    ensures After(q, es).status == Failed <==> SomeFailed(q, es)
  {
    hide CidAnswer, Visited, SomeFailed;
    if es == [] {
      assert !SomeFailed(q, es) by { NoneFailed(q); }
    } else {
      var k := |es| - 1;
      CidRunPrefix(q, es, k);
      CidOneItem(q, es[..k]);
      CidFails(q, es[..k]);
      CidVisit(After(q, es[..k]), es[k]);
      SomeFailedLast(q, es);
      VisitEnded(After(q, es[..k]), es[k]);
    }
  }

  lemma {:induction false} NoneFailed(q: Request)
    ensures !SomeFailed(q, [])
  {
  }

  lemma {:induction false} VisitEnded(q: Request, e: Event)
    requires OneItem(q)
    ensures q.status != Running ==> Visited(q, e) == q
    ensures q.status == Running && Visited(q, e).status == Failed ==> Fails(q, e)
  {
  }

  /** And it succeeds only by the last of the three callbacks. */
  lemma {:induction false} CidSucceeds(q: Request, es: seq<Event>) returns (i: nat)
    requires q == Request([Item(GETNEXTCID, [])], Running) && CidRun(q, es)
    requires After(q, es).status == Succeeded
    ensures i < |es| && Calls(After(q, es[..i]), es[i]) && After(q, es[..i]).schedule[0].callback == CHECKFLAG
    ensures es[i].answer.ok && es[i].answer.appended == []
  {
    hide CidAnswer, Visited;
    var k := |es| - 1;
    CidRunPrefix(q, es, k);
    CidOneItem(q, es[..k]);
    if After(q, es[..k]).status == Running {
      i := k;
      CidVisit(After(q, es[..k]), es[k]);
    } else {
      VisitEnded(After(q, es[..k]), es[k]);
      i := CidSucceeds(q, es[..k]);
      assert es[..k][..i] == es[..i];
    }
  }

  // ----- the objects -----

  class CommRequest {
    var schedule: seq<Item>
    var status: Status

    function State(): Request
      reads this
    {
      Request(schedule, status)
    }

    constructor ()
      ensures State() == Request([], Running)
    {
      schedule, status := [], Running;
    }

    method ScheduleAppend(callback: Callback, subs: seq<Sub>) returns (ok: bool)
      modifies this`schedule
      ensures ok == (|subs| <= MAX_SUBREQ)
      ensures schedule == if ok then old(schedule) + [Item(callback, subs)] else old(schedule)
    {
      ok := |subs| <= MAX_SUBREQ;
      if ok {
        schedule := schedule + [Item(callback, subs)];
      }
    }

    /** What a pass does with one active request. */
    method Visit(e: Event)
      requires status == Running
      modifies this
      ensures State() == Visited(old(State()), e)
    {
      var ok := true;
      if |schedule| > 0 {
        var item := schedule[0];
        schedule := schedule[1..];
        var left := item.subs;
        while |left| > 0 && left[|left| - 1] in e.complete
          invariant left <= item.subs
          invariant Remaining(left, e.complete) == Remaining(item.subs, e.complete)
        {
          left := left[..|left| - 1];
        }
        if |left| == 0 {
          if item.callback != NoCallback {
            schedule := schedule + e.answer.appended;
            ok := e.answer.ok;
          }
        } else {
          schedule := [item.(subs := left)] + schedule;
        }
      }
      if |schedule| == 0 {
        status := if ok then Succeeded else Failed;
      }
    }
  }
}
