/** Attributes of MPI objects: keyvals with reference counts, and a table of attribute
    values for each object. Callbacks do not call back into this code. */
module Attributes {

  type Key = nat
  type Obj = nat
  type Val = int

  datatype AttrType = CommAttr | TypeAttr | WinAttr

  datatype Keyval = Keyval(attrType: AttrType, predefined: bool, refs: int)

  datatype Attr = Attr(value: Val, key: Key, sequence: nat)

  datatype Error = BadParam | NotFound | OutOfKeys | Callback(code: int)
  datatype Status = Success | Failed(error: Error)

  /** freed: the keyvals that have been freed and still exist. */
  datatype State = State(keyvals: map<Key, Keyval>, tables: map<Obj, map<Key, Attr>>, sequence: nat, freed: set<Key>)

  function Table(s: State, o: Obj): map<Key, Attr> {
    if o in s.tables then s.tables[o] else map[]
  }

  /** The objects with an attribute of this key. */
  function Users(s: State, k: Key): set<Obj> {
    set o | o in s.tables && k in s.tables[o]
  }

  // ----- what always holds -----

  /** A keyval counts one for itself until it is freed and one for each object that uses it. */
  ghost predicate Counted(s: State, k: Key) {
    k in s.keyvals ==>
      && s.keyvals[k].refs == (if k in s.freed then 0 else 1) + |Users(s, k)|
      && s.keyvals[k].refs > 0
  }

  /** The attributes of an object are of keyvals of its type, and were set one after the other. */
  ghost predicate Proper(types: Obj -> AttrType, s: State, o: Obj) {
    var t := Table(s, o);
    && (forall k :: k in t ==> k in s.keyvals && s.keyvals[k].attrType == types(o))
    && (forall k :: k in t ==> t[k].key == k && t[k].sequence < s.sequence)
    && (forall k, l :: k in t && l in t && k != l ==> t[k].sequence != t[l].sequence)
  }

  ghost predicate Inv(types: Obj -> AttrType, s: State) {
    && s.freed <= s.keyvals.Keys
    && (forall k: Key :: Counted(s, k))
    && (forall o: Obj :: Proper(types, s, o))
  }

  /** A keyval exists exactly as long as it is not freed or some object uses it. */
  lemma {:induction false} LivesWhileUsed(types: Obj -> AttrType, s: State, k: Key)
    requires Inv(types, s) && k in s.keyvals
    ensures k !in s.freed || exists o :: o in s.tables && k in s.tables[o]
  {
    assert Counted(s, k);
    if k in s.freed {
      assert |Users(s, k)| > 0;
      var o :| o in Users(s, k);
    }
  }

  // ----- the operations on the state -----

  /** Gives up one reference; the last one destroys the keyval. */
  function Released(s: State, k: Key): State
    requires k in s.keyvals
  {
    var v := s.keyvals[k];
    if v.refs == 1 then s.(keyvals := s.keyvals - {k}, freed := s.freed - {k})
    else s.(keyvals := s.keyvals[k := v.(refs := v.refs - 1)])
  }

  function Created(s: State, k: Key, t: AttrType, predefined: bool): State {
    s.(keyvals := s.keyvals[k := Keyval(t, predefined, 1)])
  }

  function Freed(s: State, k: Key): State
    requires k in s.keyvals
  {
    Released(s.(freed := s.freed + {k}), k)
  }

  function Set(s: State, o: Obj, k: Key, value: Val): State
    requires k in s.keyvals
  {
    var t, v := Table(s, o), s.keyvals[k];
    var put := s.(tables := s.tables[o := t[k := Attr(value, k, s.sequence)]], sequence := s.sequence + 1);
    if k in t then put else put.(keyvals := s.keyvals[k := v.(refs := v.refs + 1)])
  }

  function Deleted(s: State, o: Obj, k: Key): State
    requires k in s.keyvals && k in Table(s, o)
  {
    Released(s.(tables := s.tables[o := Table(s, o) - {k}]), k)
  }

  lemma {:induction false} CreatedKeeps(types: Obj -> AttrType, s: State, k: Key, t: AttrType, predefined: bool)
    requires Inv(types, s) && k !in s.keyvals
    ensures Inv(types, Created(s, k, t, predefined))
  {
    var s' := Created(s, k, t, predefined);
    forall o: Obj ensures o !in Users(s, k) { assert Proper(types, s, o); }
    assert Users(s, k) == {};
    forall l: Key ensures Counted(s', l) {
      assert Counted(s, l) && Users(s', l) == Users(s, l);
    }
    forall o: Obj ensures Proper(types, s', o) { assert Proper(types, s, o); }
  }

  lemma {:induction false} FreedKeeps(types: Obj -> AttrType, s: State, k: Key)
    requires Inv(types, s) && k in s.keyvals && k !in s.freed
    ensures Inv(types, Freed(s, k))
    ensures k !in Freed(s, k).keyvals <==> Users(s, k) == {}
  {
    var s' := Freed(s, k);
    assert Counted(s, k);
    forall l: Key ensures Counted(s', l) {
      assert Counted(s, l) && Users(s', l) == Users(s, l);
    }
    forall o: Obj ensures Proper(types, s', o) {
      assert Proper(types, s, o);
      assert k in Table(s, o) ==> o in Users(s, k);
    }
  }

  /** A second free breaks the count: the keyval is gone while an attribute uses it, or it
      counts one less than it has users. */
  lemma {:induction false} FreedTwice(types: Obj -> AttrType, s: State, k: Key)
    requires Inv(types, s) && k in s.keyvals && k in s.freed
    ensures !Inv(types, Freed(s, k))
    ensures k !in Freed(s, k).keyvals <==> |Users(s, k)| == 1
  {
    var s' := Freed(s, k);
    assert Counted(s, k);
    LivesWhileUsed(types, s, k);
    var o :| o in s.tables && k in s.tables[o];
    assert Users(s', k) == Users(s, k);
    assert k in Table(s', o);
    assert Inv(types, s') ==> Counted(s', k) && Proper(types, s', o);
  }

  /** Such a state is reached: a keyval is made and given to an object, then freed twice. */
  lemma {:induction false} FreedTwiceReached(types: Obj -> AttrType, v: Val)
    ensures var start := State(map[], map[], 0, {});
      var used := Set(Created(start, 0, types(0), false), 0, 0, v);
      var once := Freed(used, 0);
      && Inv(types, once) && 0 in once.keyvals && 0 in once.freed
      && 0 !in Freed(once, 0).keyvals && 0 in Table(Freed(once, 0), 0)
  {
    var start := State(map[], map[], 0, {});
    assert Inv(types, start);
    var made := Created(start, 0, types(0), false);
    CreatedKeeps(types, start, 0, types(0), false);
    SetKeeps(types, made, 0, 0, v);
    FreedKeeps(types, Set(made, 0, 0, v), 0);
  }

  lemma {:induction false} SetKeeps(types: Obj -> AttrType, s: State, o: Obj, k: Key, value: Val)
    requires Inv(types, s) && k in s.keyvals && s.keyvals[k].attrType == types(o)
    ensures Inv(types, Set(s, o, k, value))
  {
    var s' := Set(s, o, k, value);
    SetUsers(s, o, k, value);
    assert Counted(s, k);
    forall l: Key ensures Counted(s', l) {
      assert Counted(s, l);
    }
    forall p: Obj ensures Proper(types, s', p) {
      assert Proper(types, s, p);
      SetProper(types, s, o, k, value, p);
    }
  }

  lemma {:induction false} SetUsers(s: State, o: Obj, k: Key, value: Val)
    requires k in s.keyvals
    ensures Users(Set(s, o, k, value), k) == Users(s, k) + {o}
    ensures k in Table(s, o) <==> o in Users(s, k)
    ensures forall l :: l != k ==> Users(Set(s, o, k, value), l) == Users(s, l)
  {
    var s' := Set(s, o, k, value);
    forall l | l != k ensures Users(s', l) == Users(s, l) {
      assert forall p :: p in Users(s', l) <==> p in Users(s, l);
    }
  }

  lemma {:induction false} SetProper(types: Obj -> AttrType, s: State, o: Obj, k: Key, value: Val, p: Obj)
    requires k in s.keyvals && s.keyvals[k].attrType == types(o) && Proper(types, s, p)
    ensures Proper(types, Set(s, o, k, value), p)
  {
    var s' := Set(s, o, k, value);
    assert p != o ==> Table(s', p) == Table(s, p);
    assert forall l :: l in s.keyvals ==> l in s'.keyvals && s'.keyvals[l].attrType == s.keyvals[l].attrType;
  }

  lemma {:induction false} DeletedKeeps(types: Obj -> AttrType, s: State, o: Obj, k: Key)
    requires Inv(types, s) && k in Table(s, o) && k in s.keyvals
    ensures Inv(types, Deleted(s, o, k))
    ensures k !in Deleted(s, o, k).keyvals <==> k in s.freed && Users(s, k) == {o}
  {
    var s' := Deleted(s, o, k);
    assert Counted(s, k) && o in Users(s, k);
    assert Users(s', k) == Users(s, k) - {o};
    forall l: Key ensures Counted(s', l) {
      assert Counted(s, l);
      assert l != k ==> Users(s', l) == Users(s, l);
    }
    forall p: Obj ensures Proper(types, s', p) {
      assert Proper(types, s, p);
      assert p != o ==> Table(s', p) == Table(s, p);
      assert p != o && k in Table(s, p) ==> p in Users(s', k);
    }
    assert Users(s, k) == {o} <==> Users(s', k) == {};
  }

  /** Losing the table of an object breaks the counts unless it was empty. */
  lemma {:induction false} TableLost(types: Obj -> AttrType, s: State, o: Obj)
    requires Inv(types, s) && o in s.tables
    ensures Inv(types, s.(tables := s.tables - {o})) <==> s.tables[o] == map[]
  {
    var s' := s.(tables := s.tables - {o});
    if k :| k in s.tables[o] {
      assert Proper(types, s, o) && Counted(s, k) && o in Users(s, k);
      assert Users(s', k) == Users(s, k) - {o};
      assert !Counted(s', k);
    } else {
      assert s.tables[o] == map[];
      forall k: Key ensures Counted(s', k) {
        assert Counted(s, k) && Users(s', k) == Users(s, k);
      }
      forall p: Obj ensures Proper(types, s', p) {
        assert Proper(types, s, p) && Table(s', p) == Table(s, p);
      }
    }
  }

  /** A keyval given to one object and then to another whose table is lost: it counts two
      users and itself, and has one user. */
  lemma {:induction false} TableLostReached(types: Obj -> AttrType, v: Val)
    requires types(0) == types(1)
    ensures var start := State(map[], map[], 0, {});
      var used := Set(Created(start, 0, types(0), false), 0, 0, v);
      var copied := Set(used, 1, 0, v);
      var lost := copied.(tables := copied.tables - {1});
      Inv(types, used) && !Inv(types, lost) && lost.keyvals[0].refs == 3 && Users(lost, 0) == {0}
  {
    var start := State(map[], map[], 0, {});
    assert Inv(types, start);
    var made := Created(start, 0, types(0), false);
    CreatedKeeps(types, start, 0, types(0), false);
    SetKeeps(types, made, 0, 0, v);
    var used := Set(made, 0, 0, v);
    SetKeeps(types, used, 1, 0, v);
    TableLost(types, Set(used, 1, 0, v), 1);
  }

  // ----- whole runs -----

  /** Copying all attributes of an object is a run of sets, deleting all a run of deletes. */
  datatype Op =
    | Create(key: Key, attrType: AttrType, predefined: bool)
    | Free(key: Key)
    | SetAttr(obj: Obj, key: Key, value: Val)
    | DeleteAttr(obj: Obj, key: Key)

  predicate Can(types: Obj -> AttrType, s: State, op: Op) {
    match op
    case Create(k, _, _) => k !in s.keyvals
    case Free(k) => k in s.keyvals && k !in s.freed
    case SetAttr(o, k, _) => k in s.keyvals && s.keyvals[k].attrType == types(o)
    case DeleteAttr(o, k) => k in s.keyvals && k in Table(s, o)
  }

  function Do(types: Obj -> AttrType, s: State, op: Op): State
    requires Can(types, s, op)
  {
    match op
    case Create(k, t, predefined) => Created(s, k, t, predefined)
    case Free(k) => Freed(s, k)
    case SetAttr(o, k, value) => Set(s, o, k, value)
    case DeleteAttr(o, k) => Deleted(s, o, k)
  }

  lemma {:induction false} DoKeeps(types: Obj -> AttrType, s: State, op: Op)
    requires Inv(types, s) && Can(types, s, op)
    ensures Inv(types, Do(types, s, op))
  {
    hide Inv;
    match op
    case Create(k, t, predefined) => CreatedKeeps(types, s, k, t, predefined);
    case Free(k) => FreedKeeps(types, s, k);
    case SetAttr(o, k, value) => SetKeeps(types, s, o, k, value);
    case DeleteAttr(o, k) => DeletedKeeps(types, s, o, k);
  }

  /** A keyval is destroyed by exactly the operation that leaves it freed and unused. */
  lemma {:induction false} DestroyedWhenUnused(types: Obj -> AttrType, s: State, op: Op, k: Key)
    requires Inv(types, s) && Can(types, s, op) && k in s.keyvals
    ensures k !in Do(types, s, op).keyvals <==> (k in s.freed || op == Free(k)) && Users(Do(types, s, op), k) == {}
  {
    var s' := Do(types, s, op);
    LivesWhileUsed(types, s, k);
    match op
    case Create(l, t, predefined) =>
      assert Users(s', k) == Users(s, k);
      if k in s.freed { var o :| o in s.tables && k in s.tables[o]; assert o in Users(s, k); }
    case Free(l) =>
      FreedKeeps(types, s, l);
      assert Users(s', k) == Users(s, k);
      if k in s.freed { var o :| o in s.tables && k in s.tables[o]; assert o in Users(s, k); }
    case SetAttr(o, l, value) =>
      SetUsers(s, o, l, value);
      if k in s.freed { var p :| p in s.tables && k in s.tables[p]; assert p in Users(s, k); }
    case DeleteAttr(o, l) =>
      DeletedKeeps(types, s, o, l);
      DeletedUsers(s, o, l, k);
      if k in s.freed { var p :| p in s.tables && k in s.tables[p]; assert p in Users(s, k); }
  }

  lemma {:induction false} DeletedUsers(s: State, o: Obj, l: Key, k: Key)
    requires l in s.keyvals && l in Table(s, o)
    ensures Users(Deleted(s, o, l), k) == if k == l then Users(s, k) - {o} else Users(s, k)
    ensures k != l ==> (k in Deleted(s, o, l).keyvals <==> k in s.keyvals)
    ensures o in Users(s, l)
  {
    var s' := Deleted(s, o, l);
    forall p ensures p in Users(s', k) <==> p in Users(s, k) && (k == l ==> p != o) {
      assert s'.tables == s.tables[o := Table(s, o) - {l}];
    }
  }

  ghost predicate Run(types: Obj -> AttrType, ops: seq<Op>, tr: seq<State>) {
    && |tr| == |ops| + 1 && tr[0] == State(map[], map[], 0, {})
    && forall i :: 0 <= i < |ops| ==> Can(types, tr[i], ops[i]) && tr[i + 1] == Do(types, tr[i], ops[i])
  }

  lemma {:induction false} RunInv(types: Obj -> AttrType, ops: seq<Op>, tr: seq<State>, i: nat)
    requires Run(types, ops, tr) && i < |tr|
    ensures Inv(types, tr[i])
  {
    if i > 0 {
      RunInv(types, ops, tr, i - 1);
      hide Inv, Do, Can;
      assert Can(types, tr[i - 1], ops[i - 1]) && tr[i - 1 + 1] == Do(types, tr[i - 1], ops[i - 1]);
      DoKeeps(types, tr[i - 1], ops[i - 1]);
    } else {
      forall k: Key ensures Counted(tr[0], k) {}
    }
  }

  /** Over any run a keyval counts one until it is freed and one for each user, and it is
      there as long as it is not freed or has a user. */
  lemma {:induction false} CountsOverRuns(types: Obj -> AttrType, ops: seq<Op>, tr: seq<State>, i: nat, k: Key)
    requires Run(types, ops, tr) && i < |tr| && k in tr[i].keyvals
    ensures tr[i].keyvals[k].refs == (if k in tr[i].freed then 0 else 1) + |Users(tr[i], k)| > 0
    ensures i < |ops| ==>
      (k !in tr[i + 1].keyvals <==> (k in tr[i].freed || ops[i] == Free(k)) && Users(tr[i + 1], k) == {})
  {
    RunInv(types, ops, tr, i);
    assert Counted(tr[i], k);
    if i < |ops| { DestroyedWhenUnused(types, tr[i], ops[i], k); }
  }
}
