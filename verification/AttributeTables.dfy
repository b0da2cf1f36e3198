/** The operations on attributes as the program carries them out. */
module AttributeTables {
  import opened Attributes

  /** A call of the delete function of a keyval. */
  datatype Call = Call(object_: Obj, key: Key, value: Val)

  /** What the delete and set operations check of a keyval first. */
  predicate Usable(s: State, k: Key, t: AttrType, predefined: bool) {
    k in s.keyvals && s.keyvals[k].attrType == t && (s.keyvals[k].predefined ==> predefined)
  }

  // ----- the order in which attributes are deleted -----

  /** Some keys of a table in the order in which their attributes were set. */
  ghost predicate Sorted(t: map<Key, Attr>, some: set<Key>, ks: seq<Key>)
    requires some <= t.Keys
  {
    && (forall k :: k in ks <==> k in some)
    && forall i, j :: 0 <= i < j < |ks| ==> ks[i] in t && ks[j] in t && t[ks[i]].sequence < t[ks[j]].sequence
  }

  ghost predicate InOrder(t: map<Key, Attr>, ks: seq<Key>) {
    Sorted(t, t.Keys, ks)
  }

  /** The keys deleted one after the other, the last one first. */
  function DeleteEach(s: State, o: Obj, ks: seq<Key>): State {
    if ks == [] then s
    else
      var later := DeleteEach(s, o, ks[1..]);
      if ks[0] in later.keyvals && ks[0] in Table(later, o) then Deleted(later, o, ks[0]) else later
  }

  function Calls(o: Obj, t: map<Key, Attr>, ks: seq<Key>): (calls: seq<Call>)
    requires forall k :: k in ks ==> k in t
    ensures |calls| == |ks|
  {
    if ks == [] then [] else Calls(o, t, ks[1..]) + [Call(o, ks[0], t[ks[0]].value)]
  }

  /** While the attributes of an object are deleted, the others stay as they were. */
  lemma {:induction false} DeleteSome(types: Obj -> AttrType, s: State, o: Obj, ks: seq<Key>, i: nat)
    requires Inv(types, s) && InOrder(Table(s, o), ks) && i <= |ks|
    ensures
      var s' := DeleteEach(s, o, ks[i..]);
      && Inv(types, s') && InOrder(Table(s', o), ks[..i])
      && (forall k :: k in Table(s', o) ==> k in Table(s, o) && Table(s', o)[k] == Table(s, o)[k])
      && (forall p: Obj :: p != o ==> Table(s', p) == Table(s, p))
    decreases |ks| - i
  {
    if i == |ks| {
      assert ks[i..] == [] && ks[..i] == ks;
    } else {
      DeleteSome(types, s, o, ks, i + 1);
      var later, k := DeleteEach(s, o, ks[i + 1..]), ks[i];
      assert ks[i..][1..] == ks[i + 1..];
      SortedInit(Table(later, o), ks[..i + 1]);
      assert ks[..i + 1][..i] == ks[..i] && ks[..i + 1][i] == k;
      assert Proper(types, later, o);
      DeletedKeeps(types, later, o, k);
      DeletedTables(later, o, k);
    }
  }

  lemma {:induction false} SortedInit(t: map<Key, Attr>, ks: seq<Key>)
    requires InOrder(t, ks) && ks != []
    ensures ks[|ks| - 1] in t && InOrder(t - {ks[|ks| - 1]}, ks[..|ks| - 1])
  {
    var n := |ks| - 1;
    assert ks == ks[..n] + [ks[n]];
    assert ks[n] in ks;
    assert forall k :: k in ks[..n] ==> k in ks;
    assert ks[n] !in ks[..n];
  }

  /** Deleting all attributes of an object empties its table. */
  lemma {:induction false} DeleteEachEmpties(types: Obj -> AttrType, s: State, o: Obj, ks: seq<Key>)
    requires Inv(types, s) && InOrder(Table(s, o), ks)
    ensures Inv(types, DeleteEach(s, o, ks)) && Table(DeleteEach(s, o, ks), o) == map[]
    ensures forall p: Obj :: p != o ==> Table(DeleteEach(s, o, ks), p) == Table(s, p)
  {
    DeleteSome(types, s, o, ks, 0);
    assert ks[0..] == ks && ks[..0] == [];
    assert forall k :: k !in Table(DeleteEach(s, o, ks), o);
  }

  lemma {:induction false} DeletedTables(s: State, o: Obj, k: Key)
    requires k in s.keyvals && k in Table(s, o)
    ensures Table(Deleted(s, o, k), o) == Table(s, o) - {k}
    ensures forall p: Obj :: p != o ==> Table(Deleted(s, o, k), p) == Table(s, p)
  {
  }

  /** The table `after` is `before` with the chosen values, which are of keys of `source`. */
  ghost predicate CopiedTo(source: map<Key, Attr>, before: map<Key, Attr>, after: map<Key, Attr>, chosen: map<Key, Val>) {
    && chosen.Keys <= source.Keys && after.Keys == before.Keys + chosen.Keys
    && forall k :: k in after ==> if k in chosen then after[k].value == chosen[k] else k in before && after[k] == before[k]
  }

  lemma {:induction false} AttributeUsable(types: Obj -> AttrType, s: State, o: Obj, k: Key)
    requires Inv(types, s) && k in Table(s, o)
    ensures Usable(s, k, types(o), true)
  {
    assert Proper(types, s, o);
  }

  /** From s0 on, the chosen values have been copied to an object, and no other has changed. */
  ghost predicate Copied(s0: State, s: State, to: Obj, source: map<Key, Attr>, chosen: map<Key, Val>) {
    && s.tables - {to} == s0.tables - {to} && (to in s.tables <==> to in s0.tables || chosen != map[])
    && CopiedTo(source, Table(s0, to), Table(s, to), chosen)
  }

  lemma {:induction false} CopyOne(
    s0: State, s: State, source: map<Key, Attr>, to: Obj, k: Key, value: Val, chosen: map<Key, Val>)
    requires k in s.keyvals && k in source && Copied(s0, s, to, source, chosen)
    ensures Copied(s0, Set(s, to, k, value), to, source, chosen[k := value])
  {
    var s' := Set(s, to, k, value);
    assert chosen[k := value] != map[] by { assert k in chosen[k := value]; }
    assert s'.tables - {to} == s.tables - {to};
  }

  lemma {:induction false} NoneCopied(s: State, to: Obj, source: map<Key, Attr>)
    ensures Copied(s, s, to, source, map[])
  {
  }

  lemma {:induction false} OthersNotCopied(s0: State, s: State, to: Obj, source: map<Key, Attr>, chosen: map<Key, Val>, from: Obj)
    requires Copied(s0, s, to, source, chosen) && from != to
    ensures Table(s, from) == Table(s0, from) && (from in s.tables <==> from in s0.tables)
  {
    assert from in s.tables <==> from in s.tables - {to};
    assert from in s0.tables <==> from in s0.tables - {to};
  }

  class Registry {
    const types: Obj -> AttrType
    const maxKeys: nat
    var keyvals: map<Key, Keyval>
    var tables: map<Obj, map<Key, Attr>>
    var sequence: nat
    var calls: seq<Call>
    ghost var freed: set<Key>

    ghost function Value(): State
      reads this
    {
      State(keyvals, tables, sequence, freed)
    }

    ghost predicate Valid()
      reads this
    {
      Inv(types, Value())
    }

    constructor (types: Obj -> AttrType, maxKeys: nat)
      ensures Valid() && Value() == State(map[], map[], 0, {}) && calls == []
    {
      this.types, this.maxKeys := types, maxKeys;
      keyvals, tables, sequence, calls, freed := map[], map[], 0, [], {};
    }

    /** The smallest unused key, if there is one. */
    method CreateKeyval(t: AttrType, predefined: bool) returns (r: Status, key: nat)
      requires Valid()
      modifies this`keyvals
      ensures Valid() && (r == Success || (r == Failed(OutOfKeys) && Value() == old(Value())))
      ensures r == Success ==> key < maxKeys && key !in old(keyvals) && Value() == Created(old(Value()), key, t, predefined)
      ensures forall k :: 0 <= k < (if r == Success then key else maxKeys) ==> k in old(keyvals)
    {
      key := 0;
      while key < maxKeys && key in keyvals
        invariant 0 <= key <= maxKeys && forall k :: 0 <= k < key ==> k in keyvals
      {
        key := key + 1;
      }
      if key == maxKeys {
        return Failed(OutOfKeys), key;
      }
      CreatedKeeps(types, Value(), key, t, predefined);
      keyvals := keyvals[key := Keyval(t, predefined, 1)];
      r := Success;
    }

    /** Gives up one reference of a keyval. */
    method Release(k: Key)
      requires k in keyvals
      modifies this`keyvals, this`freed
      ensures Value() == Released(old(Value()), k)
    {
      var v := keyvals[k];
      if v.refs == 1 {
        keyvals, freed := keyvals - {k}, freed - {k};
      } else {
        keyvals := keyvals[k := v.(refs := v.refs - 1)];
      }
    }

    /** Nothing stops a second free of a keyval that attributes still keep alive; it takes
        away the reference of one of them. */
    method FreeKeyval(t: AttrType, key: Key, predefined: bool) returns (r: Status)
      requires Valid()
      modifies this`keyvals, this`freed
      ensures Valid() <==> r != Success || key !in old(freed)
      ensures r == if Usable(old(Value()), key, t, predefined) then Success else Failed(BadParam)
      ensures r == Success ==> Value() == Freed(old(Value()), key)
      ensures r == Success && key !in old(freed) ==> (key !in keyvals <==> old(Users(Value(), key)) == {})
      ensures r != Success ==> Value() == old(Value())
    {
      if key !in keyvals || keyvals[key].attrType != t || (!predefined && keyvals[key].predefined) {
        return Failed(BadParam);
      }
      if key in freed { FreedTwice(types, Value(), key); } else { FreedKeeps(types, Value(), key); }
      freed := freed + {key};
      Release(key);
      r := Success;
    }

    /** Calls the delete function of the user, which may refuse. */
    method DeleteCallback(o: Obj, key: Key, value: Val) returns (code: int)
      modifies this`calls
      ensures calls == old(calls) + [Call(o, key, value)]
    {
      calls := calls + [Call(o, key, value)];
      code := *;
    }

    /** A new value; an old one is deleted first, which its delete function can prevent. */
    method SetValue(t: AttrType, o: Obj, key: Key, value: Val, predefined: bool) returns (r: Status)
      requires Valid() && t == types(o)
      modifies this`keyvals, this`tables, this`sequence, this`calls
      ensures Valid()
      ensures r == Failed(BadParam) <==> !Usable(old(Value()), key, t, predefined)
      ensures r == Success ==> Value() == Set(old(Value()), o, key, value)
      ensures r != Success ==>
        Value() == old(Value()) && (r == Failed(BadParam) || (r.error.Callback? && key in Table(old(Value()), o)))
      ensures calls == if r == Failed(BadParam) || key !in Table(old(Value()), o) then old(calls)
                       else old(calls) + [Call(o, key, Table(old(Value()), o)[key].value)]
    {
      if key !in keyvals || keyvals[key].attrType != t || (!predefined && keyvals[key].predefined) {
        return Failed(BadParam);
      }
      SetKeeps(types, Value(), o, key, value);
      hide Inv;
      var table := if o in tables then tables[o] else map[];
      var hadOld := key in table;
      if hadOld {
        var code := DeleteCallback(o, key, table[key].value);
        if code != 0 {
          return Failed(Callback(code));
        }
      }
      tables := tables[o := table[key := Attr(value, key, sequence)]];
      sequence := sequence + 1;
      if !hadOld {
        keyvals := keyvals[key := keyvals[key].(refs := keyvals[key].refs + 1)];
      }
      r := Success;
    }

    /** Deletes one attribute; an object that never had one has no table. */
    method DeleteImpl(t: AttrType, o: Obj, key: Key, predefined: bool) returns (r: Status)
      requires Valid() && t == types(o)
      modifies this`keyvals, this`tables, this`freed, this`calls
      ensures Valid()
      ensures r == Failed(BadParam) <==> !Usable(old(Value()), key, t, predefined) || o !in old(tables)
      ensures r == Failed(NotFound) <==> Usable(old(Value()), key, t, predefined) && o in old(tables) && key !in old(tables)[o]
      ensures r == Success ==>
        && o in old(tables) && key in old(tables)[o] && key in old(keyvals) && Value() == Deleted(old(Value()), o, key)
        && (key !in keyvals <==> key in old(freed) && Users(old(Value()), key) == {o})
      ensures r == Success || r == Failed(BadParam) || r == Failed(NotFound) || r.error.Callback?
      ensures r != Success ==> Value() == old(Value())
      ensures calls == if r == Success || r.error.Callback? then old(calls) + [Call(o, key, Table(old(Value()), o)[key].value)]
                       else old(calls)
    {
      if key !in keyvals || keyvals[key].attrType != t || (!predefined && keyvals[key].predefined) || o !in tables {
        return Failed(BadParam);
      }
      if key !in tables[o] {
        return Failed(NotFound);
      }
      DeletedKeeps(types, Value(), o, key);
      hide Inv;
      var code := DeleteCallback(o, key, tables[o][key].value);
      if code != 0 {
        return Failed(Callback(code));
      }
      tables := tables[o := tables[o] - {key}];
      Release(key);
      r := Success;
    }

    /** Calls the copy function of the user, which may refuse, skip or hand over a value. */
    method CopyCallback(key: Key, value: Val) returns (code: int, flag: bool, copy: Val)
    {
      code, flag, copy := *, *, *;
    }

    /** Copies attributes to a new object of the same type. Exactly those whose copy function
        hands over a value are set, to that value. An object without a table never gets the
        one that was made for it. */
    method CopyAll(t: AttrType, from: Obj, to: Obj) returns (r: Status, ghost chosen: map<Key, Val>)
      requires Valid() && t == types(from) == types(to) && from != to
      modifies this`keyvals, this`tables, this`sequence, this`calls
      ensures Table(Value(), from) == Table(old(Value()), from)
      ensures r == Success || r.error.Callback?
      ensures to in old(tables) ==>
        Valid() && CopiedTo(Table(old(Value()), from), Table(old(Value()), to), Table(Value(), to), chosen)
      ensures to !in old(tables) ==> tables == old(tables) && (Valid() <==> chosen == map[])
    {
      var hadTable := to in tables;
      hide Inv;
      r, chosen := CopyInto(t, from, to);
      ghost var s := Value();
      OthersNotCopied(old(Value()), s, to, Table(old(Value()), from), chosen, from);
      if !hadTable && to in tables {
        TableLost(types, s, to);
        assert s.tables[to].Keys == chosen.Keys;
        tables := tables - {to};
        assert Value() == s.(tables := s.tables - {to});
      }
      assert !hadTable ==> tables - {to} == tables && old(tables) - {to} == old(tables);
    }

    /** The same with the table that is made for an object that has none. */
    method CopyInto(t: AttrType, from: Obj, to: Obj) returns (r: Status, ghost chosen: map<Key, Val>)
      requires Valid() && t == types(from) == types(to) && from != to
      modifies this`keyvals, this`tables, this`sequence, this`calls
      ensures Valid() && (r == Success || r.error.Callback?)
      ensures Copied(old(Value()), Value(), to, Table(old(Value()), from), chosen)
    {
      chosen := map[];
      r := Success;
      ghost var s0, t0 := Value(), Table(Value(), from);
      NoneCopied(s0, to, t0);
      hide Inv, Usable, Copied, Set;
      if from !in tables {
        return;
      }
      var rest := tables[from].Keys;
      while rest != {}
        invariant Valid() && r == Success && rest <= t0.Keys
        invariant Copied(s0, Value(), to, t0, chosen)
        decreases |rest|
      {
        var k :| k in rest;
        OthersNotCopied(s0, Value(), to, t0, chosen, from);
        AttributeUsable(types, Value(), from, k);
        var code, flag, copy := CopyCallback(k, tables[from][k].value);
        if code != 0 {
          return Failed(Callback(code)), chosen;
        }
        if flag {
          CopyOne(s0, Value(), t0, to, k, copy, chosen);
          r := SetValue(t, to, k, copy, true);
          if r != Success {
            return;
          }
          chosen := chosen[k := copy];
        }
        rest := rest - {k};
      }
    }

    /** The keys of a table, sorted by the sequence numbers of their attributes. */
    method SortedKeys(t: map<Key, Attr>) returns (ks: seq<Key>)
      requires forall k, l :: k in t && l in t && k != l ==> t[k].sequence != t[l].sequence
      ensures InOrder(t, ks)
    {
      ks := [];
      var rest := t.Keys;
      while rest != {}
        invariant rest <= t.Keys && Sorted(t, t.Keys - rest, ks)
        decreases |rest|
      {
        var k :| k in rest;
        ks := InsertKey(t, t.Keys - rest, ks, k);
        assert t.Keys - (rest - {k}) == t.Keys - rest + {k};
        rest := rest - {k};
      }
      assert t.Keys - rest == t.Keys;
    }

    method InsertKey(t: map<Key, Attr>, ghost some: set<Key>, ks: seq<Key>, k: Key) returns (r: seq<Key>)
      requires some <= t.Keys && Sorted(t, some, ks) && k in t && k !in some
      requires forall k, l :: k in t && l in t && k != l ==> t[k].sequence != t[l].sequence
      ensures Sorted(t, some + {k}, r)
    {
      assert forall i :: 0 <= i < |ks| ==> ks[i] in ks && ks[i] in some;
      var at := 0;
      while at < |ks| && t[ks[at]].sequence < t[k].sequence
        invariant 0 <= at <= |ks| && forall i :: 0 <= i < at ==> t[ks[i]].sequence < t[k].sequence
      {
        at := at + 1;
      }
      r := ks[..at] + [k] + ks[at..];
      SortedInsert(t, some, ks, k, at, r);
    }

    /** Deletes the attributes of an object, the one set last first. If a delete function
        refuses, the attributes set after its own are gone and the others remain. */
    method DeleteAll(t: AttrType, o: Obj) returns (r: Status, ghost ks: seq<Key>, ghost left: nat)
      requires Valid() && t == types(o)
      modifies this`keyvals, this`tables, this`freed, this`calls
      ensures Valid() && InOrder(Table(old(Value()), o), ks) && left <= |ks|
      ensures Value() == DeleteEach(old(Value()), o, ks[left..])
      ensures r == Success <==> left == 0
      ensures r == Success ==> Table(Value(), o) == map[] && calls == old(calls) + Calls(o, Table(old(Value()), o), ks)
      ensures r != Success ==>
        r.error.Callback? && calls == old(calls) + Calls(o, Table(old(Value()), o), ks[left - 1..])
    {
      assert Proper(types, Value(), o);
      if o !in tables || tables[o] == map[] {
        return Success, [], 0;
      }
      var attrs := SortedKeys(tables[o]);
      ks := attrs;
      DeleteEachEmpties(types, Value(), o, attrs);
      assert ks[0..] == ks;
      hide Inv, Sorted, DeleteEach;
      r, left := DeleteInOrder(t, o, attrs);
    }

    /** The loop over the sorted attributes, from the last one on. */
    method DeleteInOrder(t: AttrType, o: Obj, attrs: seq<Key>) returns (r: Status, ghost left: nat)
      requires Valid() && t == types(o) && InOrder(Table(Value(), o), attrs)
      modifies this`keyvals, this`tables, this`freed, this`calls
      ensures Valid() && left <= |attrs| && (forall k :: k in attrs ==> k in Table(old(Value()), o))
      ensures Value() == DeleteEach(old(Value()), o, attrs[left..]) && (r == Success <==> left == 0)
      ensures r == Success ==> calls == old(calls) + Calls(o, Table(old(Value()), o), attrs[left..])
      ensures r != Success ==>
        r.error.Callback? && calls == old(calls) + Calls(o, Table(old(Value()), o), attrs[left - 1..])
    {
      ghost var s0, t0 := Value(), Table(Value(), o);
      left, r := |attrs|, Success;
      assert attrs[left..] == [] && Calls(o, t0, []) == [] && DeleteEach(s0, o, []) == s0 && forall k :: k in attrs ==> k in t0;
      var i := |attrs|;
      assert Inv(types, s0) && InOrder(Table(s0, o), attrs);
      hide *;
      while i > 0
        invariant 0 <= i <= |attrs| && left == i && Valid() && r == Success
        invariant Value() == DeleteEach(s0, o, attrs[i..])
        invariant calls == old(calls) + Calls(o, t0, attrs[i..])
      {
        CallsMore(o, t0, attrs, i);
        r := DeleteOne(t, o, s0, attrs, i);
        if r != Success {
          return;
        }
        i, left := i - 1, i - 1;
      }
    }

    method DeleteOne(t: AttrType, o: Obj, ghost s0: State, attrs: seq<Key>, i: nat) returns (r: Status)
      requires Valid() && t == types(o) && Inv(types, s0) && InOrder(Table(s0, o), attrs) && 0 < i <= |attrs|
      requires Value() == DeleteEach(s0, o, attrs[i..])
      modifies this`keyvals, this`tables, this`freed, this`calls
      ensures Valid() && attrs[i - 1] in Table(s0, o)
      ensures r == Success ==> Value() == DeleteEach(s0, o, attrs[i - 1..])
      ensures r != Success ==> r.error.Callback? && Value() == old(Value())
      ensures calls == old(calls) + [Call(o, attrs[i - 1], Table(s0, o)[attrs[i - 1]].value)]
    {
      DeleteNext(types, s0, o, attrs, i);
      hide Inv, Sorted, InOrder, DeleteEach, Usable, Deleted;
      r := DeleteImpl(t, o, attrs[i - 1], true);
    }
  }

  /** The next attribute to be deleted is there, and can be deleted. */
  lemma {:induction false} DeleteNext(types: Obj -> AttrType, s: State, o: Obj, ks: seq<Key>, i: nat)
    requires Inv(types, s) && InOrder(Table(s, o), ks) && 0 < i <= |ks|
    ensures
      var later, k := DeleteEach(s, o, ks[i..]), ks[i - 1];
      && k in later.keyvals && later.keyvals[k].attrType == types(o) && o in later.tables && k in Table(later, o)
      && k in Table(s, o) && Table(later, o)[k] == Table(s, o)[k]
      && DeleteEach(s, o, ks[i - 1..]) == Deleted(later, o, k) && Usable(later, k, types(o), true)
      && k in later.tables[o] && Table(later, o) == later.tables[o]
  {
    DeleteSome(types, s, o, ks, i);
    var later, k := DeleteEach(s, o, ks[i..]), ks[i - 1];
    assert ks[..i][i - 1] == k && k in ks[..i];
    assert Proper(types, later, o);
    assert ks[i - 1..][1..] == ks[i..];
  }

  lemma {:induction false} CallsMore(o: Obj, t: map<Key, Attr>, ks: seq<Key>, i: nat)
    requires 0 < i <= |ks| && forall k :: k in ks ==> k in t
    ensures Calls(o, t, ks[i - 1..]) == Calls(o, t, ks[i..]) + [Call(o, ks[i - 1], t[ks[i - 1]].value)]
  {
    assert ks[i - 1..][1..] == ks[i..];
  }

  lemma {:induction false} SortedInsert(t: map<Key, Attr>, some: set<Key>, ks: seq<Key>, k: Key, at: nat, r: seq<Key>)
    requires some <= t.Keys && Sorted(t, some, ks) && k in t && k !in some && at <= |ks|
    requires forall i :: 0 <= i < |ks| ==> ks[i] in t
    requires forall i :: 0 <= i < at ==> t[ks[i]].sequence < t[k].sequence
    requires at < |ks| ==> t[k].sequence < t[ks[at]].sequence
    requires r == ks[..at] + [k] + ks[at..]
    ensures Sorted(t, some + {k}, r)
  {
    assert ks == ks[..at] + ks[at..];
    forall x ensures x in r <==> x in some + {k} {
      assert x in ks <==> x in ks[..at] || x in ks[at..];
      assert x in ks <==> x in some;
    }
    forall i, j | 0 <= i < j < |r| ensures r[i] in t && r[j] in t && t[r[i]].sequence < t[r[j]].sequence {
      assert r[i] == if i < at then ks[i] else if i == at then k else ks[i - 1];
      assert r[j] == if j < at then ks[j] else if j == at then k else ks[j - 1];
      if at < |ks| && i <= at < j - 1 { assert t[ks[at]].sequence < t[ks[j - 1]].sequence; }
    }
  }
}
