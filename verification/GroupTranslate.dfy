/** Groups of processes, dense or stored as a part of another group, and the translation
    of ranks between any two of them. */
module GroupTranslate {
  import opened GroupBitmap

  type Proc = nat

  class Group {
    const count: nat
    /** The processes of a dense group. */
    const procs: seq<Proc>
    /** The group this one is part of, and the bits of its ranks. */
    const parent: Group?
    const bits: seq<bv8>
    ghost const depth: nat
    /** The processes in the order of their ranks. */
    ghost const members: seq<Proc>

    ghost predicate Valid()
      decreases depth
    {
      && |members| == count
      && if parent == null then procs == members
         else
           && parent.depth < depth && parent.Valid()
           && |bits| == DivCeil(parent.count, BSIZE) && Count(bits, BSIZE * |bits|) == count
           && (forall m: nat :: m < BSIZE * |bits| && IsSet(bits, m) ==> m < parent.count)
           && (forall i: nat, m: nat :: i < count && ParentRank(bits, i, m) ==> m < parent.count && members[i] == parent.members[m])
    }

    constructor Dense(procs: seq<Proc>)
      ensures Valid() && members == procs && parent == null
    {
      count, this.procs, parent, bits := |procs|, procs, null, [];
      depth, members := 0, procs;
    }

    constructor Sparse(group: Group, bits: seq<bv8>, ranks: seq<nat>)
      requires group.Valid() && Rising(ranks) && Represents(bits, ranks)
      requires (forall i :: 0 <= i < |ranks| ==> ranks[i] < group.count) && |bits| == DivCeil(group.count, BSIZE)
      ensures Valid() <==> Strict(ranks)
      ensures parent == group && this.bits == bits && count == |members| == |ranks|
      ensures forall i :: 0 <= i < |ranks| ==> members[i] == group.members[ranks[i]]
    {
      count, procs, parent, this.bits := |ranks|, [], group, bits;
      depth, members := group.depth + 1, seq(|ranks|, i requires 0 <= i < |ranks| => group.members[ranks[i]]);
      RightForStrict(bits, ranks);
      RepeatedRanksMissing(bits, ranks);
      new;
      if Strict(ranks) {
        forall i: nat, m: nat | i < |ranks| && ParentRank(bits, i, m) ensures m == ranks[i] {
          MutualInverses(bits, m, i);
          assert ParentRank(bits, i, ranks[i]);
        }
      }
    }
  }

  ghost predicate Distinct(ps: seq<Proc>) {
    forall i, j :: 0 <= i < j < |ps| ==> ps[i] != ps[j]
  }

  /** The rank of a process in a group, or UNDEFINED. */
  ghost predicate RankIn(ps: seq<Proc>, p: Proc, r: int) {
    if r == UNDEFINED then p !in ps else 0 <= r < |ps| && ps[r] == p
  }

  /** A correct translation of one rank. */
  ghost predicate Translated(from: Group, to: Group, m: int, r: int) {
    if m == PROC_NULL then r == PROC_NULL
    else 0 <= m < |from.members| && RankIn(to.members, from.members[m], r)
  }

  /** In a group whose processes are distinct a process has one rank. */
  lemma {:induction false} RankUnique(ps: seq<Proc>, p: Proc, r: int, q: int)
    requires Distinct(ps) && RankIn(ps, p, r) && RankIn(ps, p, q)
    ensures r == q
  {
    if r != UNDEFINED && q != UNDEFINED {
      assert !(0 <= r < q < |ps|) && !(0 <= q < r < |ps|);
    }
  }

  /** What the search over all pairs of processes answers: the first rank of the process. */
  ghost function FirstRank(ps: seq<Proc>, p: Proc): (r: int)
    ensures RankIn(ps, p, r)
    ensures forall k :: 0 <= k < |ps| && (r == UNDEFINED || k < r) ==> ps[k] != p
  {
    if p !in ps then UNDEFINED
    else if ps[0] == p then 0 else FirstRank(ps[1..], p) + 1
  }

  ghost function Searched(from: Group, to: Group, m: int): int
    requires m == PROC_NULL || 0 <= m < |from.members|
  {
    if m == PROC_NULL then PROC_NULL else FirstRank(to.members, from.members[m])
  }

  /** From the whole to the part, with distinct processes: the bitmap translation and the
      search have the same results. */
  lemma {:induction false} ForwardIsSearch(g: Group, m: int, r: int)
    requires g.Valid() && g.parent != null && Distinct(g.parent.members) && (m == PROC_NULL || 0 <= m < |g.parent.members|)
    ensures ChildRank(g.bits, m, r) <==> r == Searched(g.parent, g, m)
  {
    assert g.parent.Valid();
    MembersDistinct(g);
    var found := if m == PROC_NULL then PROC_NULL else if IsSet(g.bits, m) then Count(g.bits, m) as int else UNDEFINED;
    ForwardRight(g, m, found);
    AgreesWithSearch(g.parent, g, m, found, Searched(g.parent, g, m));
  }

  /** And from the part to the whole. */
  lemma {:induction false} ReverseIsSearch(g: Group, m: int, r: int)
    requires g.Valid() && g.parent != null && Distinct(g.parent.members) && (m == PROC_NULL || 0 <= m < |g.members|)
    ensures ParentRank(g.bits, m, r) <==> r == Searched(g, g.parent, m)
  {
    var found: int := PROC_NULL;
    if m != PROC_NULL { found := SetBitOf(g.bits, m, BSIZE * |g.bits|); }
    ReverseRight(g, m, found);
    AgreesWithSearch(g, g.parent, m, found, Searched(g, g.parent, m));
    if m != PROC_NULL && ParentRank(g.bits, m, r) { ReverseRight(g, m, r); AgreesWithSearch(g, g.parent, m, r, found); }
  }

  /** Whatever translates correctly gives what the search does. */
  lemma {:induction false} AgreesWithSearch(from: Group, to: Group, m: int, r: int, searched: int)
    requires Distinct(to.members) && Translated(from, to, m, r) && Translated(from, to, m, searched)
    ensures r == searched
  {
    if m != PROC_NULL { RankUnique(to.members, from.members[m], r, searched); }
  }

  /** A group that takes part of another has distinct processes if the other has. */
  lemma {:induction false} MembersDistinct(g: Group)
    requires g.Valid() && g.parent != null && Distinct(g.parent.members)
    ensures Distinct(g.members)
  {
    forall i: nat, j: nat | i < j < g.count ensures g.members[i] != g.members[j] {
      var m := SetBitOf(g.bits, i, BSIZE * |g.bits|);
      var k := SetBitOf(g.bits, j, BSIZE * |g.bits|);
      assert m != k;
    }
  }

  lemma {:induction false} SetBitOf(bits: seq<bv8>, i: nat, end: nat) returns (m: nat)
    requires end <= BSIZE * |bits| && i < Count(bits, end)
    ensures ParentRank(bits, i, m)
  {
    if IsSet(bits, end - 1) && Count(bits, end - 1) == i { m := end - 1; } else { m := SetBitOf(bits, i, end - 1); }
  }

  /** From the part to the whole: the reverse bitmap translation finds the same process. */
  lemma {:induction false} ReverseRight(g: Group, m: int, r: int)
    requires g.Valid() && g.parent != null && (m == PROC_NULL || 0 <= m < g.count) && ParentRank(g.bits, m, r)
    ensures Translated(g, g.parent, m, r)
  {
  }

  /** From the whole to the part, if the processes of the whole are distinct. */
  lemma {:induction false} ForwardRight(g: Group, m: int, r: int)
    requires g.Valid() && g.parent != null && Distinct(g.parent.members)
    requires (m == PROC_NULL || 0 <= m < g.parent.count) && ChildRank(g.bits, m, r)
    ensures Translated(g.parent, g, m, r)
  {
    if m != PROC_NULL {
      var bits, p := g.bits, g.parent.members[m];
      if IsSet(bits, m) {
        CountMore(bits, m, BSIZE * |bits|);
        assert ParentRank(bits, r, m);
      } else {
        forall i: nat | i < g.count ensures g.members[i] != p {
          var k := SetBitOf(bits, i, BSIZE * |bits|);
          assert k != m && g.members[i] == g.parent.members[k];
        }
      }
    }
  }

  /** The search over all pairs of processes. */
  method Search(from: Group, ranks1: seq<int>, to: Group) returns (ranks2: array<int>)
    requires from.Valid() && to.Valid()
    requires forall j :: 0 <= j < |ranks1| ==> ranks1[j] == PROC_NULL || 0 <= ranks1[j] < from.count
    ensures fresh(ranks2) && ranks2.Length == |ranks1|
    ensures forall j :: 0 <= j < |ranks1| ==> ranks2[j] == Searched(from, to, ranks1[j])
    ensures forall j :: 0 <= j < |ranks1| ==> Translated(from, to, ranks1[j], ranks2[j])
  {
    ranks2 := new int[|ranks1|](_ => UNDEFINED);
    var proc := 0;
    while proc < |ranks1|
      invariant 0 <= proc <= |ranks1|
      invariant forall j :: 0 <= j < proc ==> ranks2[j] == Searched(from, to, ranks1[j])
    {
      if ranks1[proc] == PROC_NULL {
        ranks2[proc] := PROC_NULL;
      } else {
        ranks2[proc] := SearchOne(from, ranks1[proc], to);
      }
      proc := proc + 1;
    }
  }

  /** The first process of the other group that is the same. */
  method SearchOne(from: Group, rank: nat, to: Group) returns (r: int)
    requires from.Valid() && to.Valid() && rank < from.count
    ensures r == FirstRank(to.members, from.members[rank])
  {
    var p := GetProcPtr(from, rank);
    r := UNDEFINED;
    var proc2 := 0;
    while proc2 < to.count
      invariant 0 <= proc2 <= to.count && r == UNDEFINED && forall k :: 0 <= k < proc2 ==> to.members[k] != p
    {
      var q := GetProcPtr(to, proc2);
      if p == q {
        return proc2;
      }
      proc2 := proc2 + 1;
    }
  }

  /** Follows the groups that a group is part of to the dense one, translating the rank
      on the way. */
  method GetProcPtr(g: Group, r: nat) returns (p: Proc)
    requires g.Valid() && r < g.count
    ensures p == g.members[r]
  {
    var group: Group, rank: nat := g, r;
    while group.parent != null
      invariant group.Valid() && rank < group.count && group.members[rank] == g.members[r]
      decreases group.depth
    {
      var ranks2 := TranslateRanksReverse([rank], group.bits);
      assert ParentRank(group.bits, rank, ranks2[0]);
      rank := ranks2[0];
      group := group.parent;
    }
    p := group.procs[rank];
  }

  /** The translation of ranks picks the bitmap forms where one group is part of the other. */
  method Translate(from: Group, ranks1: seq<int>, to: Group, empty: Group) returns (ranks2: array<int>)
    requires from.Valid() && to.Valid()
    requires to.parent == from && from.parent != to ==> Distinct(from.members)
    requires forall j :: 0 <= j < |ranks1| ==> ranks1[j] == PROC_NULL || 0 <= ranks1[j] < from.count
    ensures fresh(ranks2) && ranks2.Length == |ranks1|
    ensures from == empty || to == empty ==> forall j :: 0 <= j < |ranks1| ==> ranks2[j] == UNDEFINED
    ensures from != empty && to != empty ==> forall j :: 0 <= j < |ranks1| ==> Translated(from, to, ranks1[j], ranks2[j])
  {
    if from == empty || to == empty {
      ranks2 := new int[|ranks1|](_ => UNDEFINED);
    } else if from.parent == to {
      ranks2 := TranslateRanksReverse(ranks1, from.bits);
      forall j | 0 <= j < |ranks1| ensures Translated(from, to, ranks1[j], ranks2[j]) {
        ReverseRight(from, ranks1[j], ranks2[j]);
      }
    } else if to.parent == from {
      ranks2 := TranslateRanks(ranks1, to.bits);
      forall j | 0 <= j < |ranks1| ensures Translated(from, to, ranks1[j], ranks2[j]) {
        ForwardRight(to, ranks1[j], ranks2[j]);
      }
    } else {
      ranks2 := Search(from, ranks1, to);
    }
  }

  /** The part of a group with the given ranks; null if the check finds that they do not
      rise. The check lets repeated ranks through, which the standard forbids: the new
      group is a proper one exactly if there are none, and otherwise counts more ranks
      than it has bits. */
  method Include(group: Group, ranks: seq<nat>, empty: Group) returns (newGroup: Group?)
    requires group.Valid() && forall i :: 0 <= i < |ranks| ==> ranks[i] < group.count
    requires empty.Valid() && empty.members == []
    ensures newGroup == null <==> !Rising(ranks)
    ensures newGroup != null ==>
      && (newGroup.Valid() <==> Strict(ranks)) && newGroup.count == |newGroup.members| == |ranks|
      && forall i :: 0 <= i < |ranks| ==> newGroup.members[i] == group.members[ranks[i]]
    ensures newGroup != null && !Strict(ranks) ==> Count(newGroup.bits, BSIZE * |newGroup.bits|) < newGroup.count
  {
    var ok := CheckRanks(ranks);
    if !ok {
      return null;
    }
    if |ranks| == 0 {
      return empty;
    }
    var bits := BuildBitmap(group.count, ranks);
    RepeatedRanksMissing(bits[..], ranks);
    newGroup := new Group.Sparse(group, bits[..], ranks);
  }
}
