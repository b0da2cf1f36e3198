/** What the tree means to its callers: a sorted sequence of (key, value) entries. */
module RbEntries {

  type Entry = (int, int)

  /** The comparison function of a tree orders all keys, equal ones allowed. */
  ghost predicate TotalPreorder(cmp: (int, int) -> int) {
    && (forall a, b :: cmp(a, b) <= 0 <==> cmp(b, a) >= 0)
    && (forall a, b, c :: cmp(a, b) <= 0 && cmp(b, c) <= 0 ==> cmp(a, c) <= 0)
  }

  ghost predicate Sorted(cmp: (int, int) -> int, s: seq<Entry>) {
    forall i, j :: 0 <= i < j < |s| ==> cmp(s[i].0, s[j].0) <= 0
  }

  /** Searching with cmp from key finds first smaller, then equal, then larger keys. */
  ghost predicate Monotone(cmp: (int, int) -> int, key: int, s: seq<Entry>) {
    forall i, j :: 0 <= i < j < |s| ==>
      (cmp(key, s[i].0) <= 0 ==> cmp(key, s[j].0) <= 0) && (cmp(key, s[i].0) < 0 ==> cmp(key, s[j].0) < 0)
  }

  lemma {:induction false} Flip(cmp: (int, int) -> int, a: int, b: int)
    requires TotalPreorder(cmp)
    ensures cmp(a, b) <= 0 <==> cmp(b, a) >= 0
  {
  }

  lemma {:induction false} Chain(cmp: (int, int) -> int, a: int, b: int, c: int)
    requires TotalPreorder(cmp) && cmp(a, b) <= 0 && cmp(b, c) <= 0
    ensures cmp(a, c) <= 0
  {
  }

  lemma {:induction false} SortedMonotone(cmp: (int, int) -> int, key: int, s: seq<Entry>)
    requires TotalPreorder(cmp) && Sorted(cmp, s)
    ensures Monotone(cmp, key, s)
  {
    hide TotalPreorder;
    forall i, j | 0 <= i < j < |s|
      ensures (cmp(key, s[i].0) <= 0 ==> cmp(key, s[j].0) <= 0) && (cmp(key, s[i].0) < 0 ==> cmp(key, s[j].0) < 0)
    {
      var a, b := s[i].0, s[j].0;
      assert cmp(a, b) <= 0;
      if cmp(key, a) <= 0 { Chain(cmp, key, a, b); }
      if cmp(b, key) <= 0 { Chain(cmp, a, b, key); }
      Flip(cmp, a, key);
      Flip(cmp, b, key);
    }
  }

  /** A new entry goes before the first entry whose key is not smaller. */
  function Inserted(cmp: (int, int) -> int, s: seq<Entry>, key: int, value: int): (r: seq<Entry>)
    ensures |r| == |s| + 1
  {
    if s == [] then [(key, value)]
    else if cmp(key, s[0].0) <= 0 then [(key, value)] + s
    else [s[0]] + Inserted(cmp, s[1..], key, value)
  }

  lemma {:induction false} InsertedBetween(cmp: (int, int) -> int, a: seq<Entry>, b: seq<Entry>, key: int, value: int)
    requires forall i :: 0 <= i < |a| ==> cmp(key, a[i].0) > 0
    requires b != [] ==> cmp(key, b[0].0) <= 0
    ensures Inserted(cmp, a + b, key, value) == a + [(key, value)] + b
  {
    if a == [] {
      assert a + b == b;
    } else {
      assert (a + b)[1..] == a[1..] + b;
      InsertedBetween(cmp, a[1..], b, key, value);
    }
  }

  /** The place of a new entry: everything before is smaller, nothing after is. */
  ghost predicate IsPlace(cmp: (int, int) -> int, s: seq<Entry>, key: int, i: nat) {
    && i <= |s|
    && (forall j :: 0 <= j < i ==> cmp(key, s[j].0) > 0)
    && (forall j :: i <= j < |s| ==> cmp(key, s[j].0) <= 0)
  }

  function Place(cmp: (int, int) -> int, s: seq<Entry>, key: int): (i: nat)
    ensures i <= |s|
    ensures forall j :: 0 <= j < i ==> cmp(key, s[j].0) > 0
    ensures i < |s| ==> cmp(key, s[i].0) <= 0
  {
    if s == [] || cmp(key, s[0].0) <= 0 then 0 else 1 + Place(cmp, s[1..], key)
  }

  lemma {:induction false} InsertedPlace(cmp: (int, int) -> int, s: seq<Entry>, key: int, value: int)
    ensures var i := Place(cmp, s, key); Inserted(cmp, s, key, value) == s[..i] + [(key, value)] + s[i..]
  {
    var i := Place(cmp, s, key);
    assert s[..i] + s[i..] == s;
    InsertedBetween(cmp, s[..i], s[i..], key, value);
  }

  lemma {:induction false} PlaceMeaning(cmp: (int, int) -> int, s: seq<Entry>, key: int)
    requires TotalPreorder(cmp) && Sorted(cmp, s)
    ensures IsPlace(cmp, s, key, Place(cmp, s, key))
  {
    hide TotalPreorder, Sorted;
    SortedMonotone(cmp, key, s);
  }

  /** Insertion keeps the sequence sorted and adds exactly the new entry. */
  lemma {:induction false} InsertedMeaning(cmp: (int, int) -> int, s: seq<Entry>, key: int, value: int)
    requires TotalPreorder(cmp) && Sorted(cmp, s)
    ensures Sorted(cmp, Inserted(cmp, s, key, value))
    ensures multiset(Inserted(cmp, s, key, value)) == multiset(s) + multiset{(key, value)}
  {
    hide TotalPreorder, Sorted, IsPlace;
    var i := Place(cmp, s, key);
    InsertedPlace(cmp, s, key, value);
    PlaceMeaning(cmp, s, key);
    BetweenCount(s, (key, value), i);
    BetweenSorted(cmp, s, key, value, i);
  }

  lemma {:induction false} BetweenCount(s: seq<Entry>, e: Entry, i: nat)
    requires i <= |s|
    ensures multiset(s[..i] + [e] + s[i..]) == multiset(s) + multiset{e}
  {
    assert s == s[..i] + s[i..];
  }

  lemma {:induction false} BetweenSorted(cmp: (int, int) -> int, s: seq<Entry>, key: int, value: int, i: nat)
    requires TotalPreorder(cmp) && Sorted(cmp, s) && IsPlace(cmp, s, key, i)
    ensures Sorted(cmp, s[..i] + [(key, value)] + s[i..])
  {
    hide TotalPreorder;
    var r := s[..i] + [(key, value)] + s[i..];
    forall j, k | 0 <= j < k < |r| ensures cmp(r[j].0, r[k].0) <= 0 {
      if j < i == k { Flip(cmp, s[j].0, key); }
    }
  }

  function RemoveAt<T>(s: seq<T>, i: nat): (r: seq<T>)
    requires i < |s|
  {
    s[..i] + s[i + 1..]
  }

  /** Removal keeps the sequence sorted and takes away exactly one entry. */
  lemma {:induction false} RemoveAtMeaning(cmp: (int, int) -> int, s: seq<Entry>, i: nat)
    requires i < |s| && Sorted(cmp, s)
    ensures Sorted(cmp, RemoveAt(s, i))
    ensures multiset(s) == multiset(RemoveAt(s, i)) + multiset{s[i]}
  {
    assert s == s[..i] + [s[i]] + s[i + 1..];
  }

  ghost function Pow2(n: nat): nat {
    if n == 0 then 1 else 2 * Pow2(n - 1)
  }
}
