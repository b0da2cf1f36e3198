/** A group of processes that is part of another, stored as a bitmap over the ranks of
    the other, and the translation of ranks between the two. */
module GroupBitmap {

  const BSIZE := 8
  const UNDEFINED := -32766
  const PROC_NULL := -2

  // ----- bits of a byte -----

  /** 1 << k. */
  function Mask(k: nat): bv8
    requires k < BSIZE
  {
    match k
    case 0 => 1
    case 1 => 2
    case 2 => 4
    case 3 => 8
    case 4 => 16
    case 5 => 32
    case 6 => 64
    case _ => 128
  }

  predicate Bit(b: bv8, k: nat)
    requires k < BSIZE
  {
    b & Mask(k) == Mask(k)
  }

  lemma {:induction false} NoBits(k: nat)
    requires k < BSIZE
    ensures !Bit(0, k)
  {
  }

  lemma {:induction false} SetBit(b: bv8, j: nat, k: nat)
    requires j < BSIZE && k < BSIZE
    ensures Bit(b | Mask(j), k) <==> Bit(b, k) || j == k
  {
  }

  // ----- the bitmap -----

  predicate IsSet(bits: seq<bv8>, m: nat)
    requires m < BSIZE * |bits|
  {
    Bit(bits[m / BSIZE], m % BSIZE)
  }

  /** How many of the first m bits are set. */
  function Count(bits: seq<bv8>, m: nat): (c: nat)
    requires m <= BSIZE * |bits|
    ensures c <= m
  {
    if m == 0 then 0 else Count(bits, m - 1) + if IsSet(bits, m - 1) then 1 else 0
  }

  lemma {:induction false} CountMore(bits: seq<bv8>, m: nat, k: nat)
    requires m <= k <= BSIZE * |bits|
    ensures Count(bits, m) <= Count(bits, k)
    ensures m < k && IsSet(bits, m) ==> Count(bits, m) < Count(bits, k)
  {
    if m < k { CountMore(bits, m, k - 1); }
  }

  /** The rank in the child of a rank in the parent. */
  ghost predicate ChildRank(bits: seq<bv8>, m: int, r: int) {
    if m == PROC_NULL then r == PROC_NULL
    else 0 <= m < BSIZE * |bits| && r == if IsSet(bits, m) then Count(bits, m) else UNDEFINED
  }

  /** The rank in the parent of a rank in the child: its m-th set bit. */
  ghost predicate ParentRank(bits: seq<bv8>, m: int, r: int) {
    if m == PROC_NULL then r == PROC_NULL
    else 0 <= r < BSIZE * |bits| && IsSet(bits, r) && Count(bits, r) == m
  }

  /** The two translations undo each other. */
  lemma {:induction false} MutualInverses(bits: seq<bv8>, m: nat, r: nat)
    requires m < BSIZE * |bits|
    ensures ChildRank(bits, m, r) <==> ParentRank(bits, r, m)
    ensures forall k :: ParentRank(bits, r, m) && ParentRank(bits, r, k) ==> k == m
  {
    forall k | ParentRank(bits, r, m) && ParentRank(bits, r, k) ensures k == m {
      if k < m { CountMore(bits, k, m); } else if m < k { CountMore(bits, m, k); }
    }
  }

  lemma {:induction false} NextPlace(bits: seq<bv8>, i: nat, k: nat)
    requires i < |bits| && k < BSIZE
    ensures BSIZE * i + k < BSIZE * |bits|
    ensures IsSet(bits, BSIZE * i + k) == Bit(bits[i], k)
    ensures Count(bits, BSIZE * i + k + 1) == Count(bits, BSIZE * i + k) + if Bit(bits[i], k) then 1 else 0
  {
    assert (BSIZE * i + k) / BSIZE == i && (BSIZE * i + k) % BSIZE == k;
  }

  /** Counts the set bits up to and with that of a parent rank. */
  method CountUpTo(bits: seq<bv8>, m: nat) returns (r: int)
    requires m < BSIZE * |bits|
    ensures r == Count(bits, m + 1) - 1
  {
    var count, i := 0, 0;
    assert Count(bits, 0) == 0;
    hide Bit, IsSet, Count;
    while true
      invariant 0 <= i <= m / BSIZE && count == Count(bits, BSIZE * i)
      decreases m / BSIZE - i
    {
      var k := 0;
      while k < BSIZE
        invariant 0 <= k <= BSIZE && BSIZE * i + k <= m + 1 && count == Count(bits, BSIZE * i + k)
        invariant i == m / BSIZE ==> k <= m % BSIZE
      {
        NextPlace(bits, i, k);
        if Bit(bits[i], k) {
          count := count + 1;
        }
        if i == m / BSIZE && k == m % BSIZE {
          return count - 1;
        }
        k := k + 1;
      }
      i := i + 1;
    }
  }

  /** From the parent to the child. */
  method TranslateRanks(ranks1: seq<int>, bits: seq<bv8>) returns (ranks2: array<int>)
    requires forall j :: 0 <= j < |ranks1| ==> ranks1[j] == PROC_NULL || 0 <= ranks1[j] < BSIZE * |bits|
    ensures fresh(ranks2) && ranks2.Length == |ranks1|
    ensures forall j :: 0 <= j < |ranks1| ==> ChildRank(bits, ranks1[j], ranks2[j])
  {
    ranks2 := new int[|ranks1|](_ => UNDEFINED);
    var j := 0;
    while j < |ranks1|
      invariant 0 <= j <= |ranks1|
      invariant forall k :: 0 <= k < j ==> ChildRank(bits, ranks1[k], ranks2[k])
    {
      if ranks1[j] == PROC_NULL {
        ranks2[j] := PROC_NULL;
      } else {
        ranks2[j] := UNDEFINED;
        var m := ranks1[j];
        if Bit(bits[m / BSIZE], m % BSIZE) {
          ranks2[j] := CountUpTo(bits, m);
        }
      }
      j := j + 1;
    }
  }

  /** Counts through one byte until the count exceeds m; k is the bit where it does. */
  method ScanByte(bits: seq<bv8>, i: nat, count: nat, m: nat) returns (found: bool, k: nat, count': nat)
    requires i < |bits| && count == Count(bits, BSIZE * i) <= m
    ensures found ==> k < BSIZE && ParentRank(bits, m, i * BSIZE + k)
    ensures !found ==> count' == Count(bits, BSIZE * (i + 1)) <= m
  {
    hide Bit, IsSet, Count;
    found, k, count' := false, 0, count;
    while k < BSIZE
      invariant 0 <= k <= BSIZE && count' == Count(bits, BSIZE * i + k) <= m && !found
    {
      NextPlace(bits, i, k);
      if Bit(bits[i], k) {
        count' := count' + 1;
      }
      if m == count' - 1 {
        found := true;
        return;
      }
      k := k + 1;
    }
  }

  /** The place of the set bit that makes the count exceed m. */
  method FindSet(bits: seq<bv8>, m: nat) returns (r: nat)
    requires m < Count(bits, BSIZE * |bits|)
    ensures ParentRank(bits, m, r)
  {
    var count, i := 0, 0;
    assert Count(bits, 0) == 0;
    hide Bit, IsSet, Count, ParentRank;
    while true
      invariant 0 <= i < |bits| && count == Count(bits, BSIZE * i) <= m
      decreases |bits| - i
    {
      var found, k;
      found, k, count := ScanByte(bits, i, count, m);
      if found {
        return i * BSIZE + k;
      }
      i := i + 1;
    }
  }

  /** From the child to the parent. */
  method TranslateRanksReverse(ranks1: seq<int>, bits: seq<bv8>) returns (ranks2: array<int>)
    requires forall j :: 0 <= j < |ranks1| ==> ranks1[j] == PROC_NULL || 0 <= ranks1[j] < Count(bits, BSIZE * |bits|)
    ensures fresh(ranks2) && ranks2.Length == |ranks1|
    ensures forall j :: 0 <= j < |ranks1| ==> ParentRank(bits, ranks1[j], ranks2[j])
  {
    ranks2 := new int[|ranks1|](_ => UNDEFINED);
    var j := 0;
    while j < |ranks1|
      invariant 0 <= j <= |ranks1|
      invariant forall k :: 0 <= k < j ==> ParentRank(bits, ranks1[k], ranks2[k])
    {
      if ranks1[j] == PROC_NULL {
        ranks2[j] := PROC_NULL;
      } else {
        ranks2[j] := FindSet(bits, ranks1[j]);
      }
      j := j + 1;
    }
  }

  // ----- building the bitmap -----

  function DivCeil(num: nat, den: nat): (r: nat)
    requires den > 0
    ensures r * den >= num && (r - 1) * den < num
  {
    var q := num / den;
    assert num == q * den + num % den;
    assert (q + 1) * den == q * den + den && (q - 1) * den == q * den - den;
    if num % den == 0 then q else q + 1
  }

  predicate Rising(ranks: seq<nat>) {
    forall i :: 1 <= i < |ranks| ==> ranks[i - 1] <= ranks[i]
  }

  ghost predicate Strict(ranks: seq<nat>) {
    forall i, j :: 0 <= i < j < |ranks| ==> ranks[i] < ranks[j]
  }

  /** The check before the bitmap format is used. */
  method CheckRanks(ranks: seq<nat>) returns (ok: bool)
    ensures ok == Rising(ranks)
  {
    var i := 1;
    while i < |ranks|
      invariant 1 <= i && (|ranks| >= 1 ==> i <= |ranks|) && forall k :: 1 <= k < i && k < |ranks| ==> ranks[k - 1] <= ranks[k]
    {
      if ranks[i - 1] > ranks[i] {
        return false;
      }
      i := i + 1;
    }
    ok := true;
  }

  /** The bits of exactly the given ranks. */
  ghost predicate Represents(bits: seq<bv8>, ranks: seq<nat>) {
    forall m: nat :: m < BSIZE * |bits| ==> (IsSet(bits, m) <==> m in ranks)
  }

  method BuildBitmap(size: nat, ranks: seq<nat>) returns (bits: array<bv8>)
    requires forall i :: 0 <= i < |ranks| ==> ranks[i] < size
    ensures fresh(bits) && bits.Length == DivCeil(size, BSIZE) && Represents(bits[..], ranks)
  {
    bits := new bv8[DivCeil(size, BSIZE)](_ => 0);
    forall m: nat | m < BSIZE * bits.Length ensures !IsSet(bits[..], m) { NoBits(m % BSIZE); }
    assert ranks[..0] == [];
    var i := 0;
    while i < |ranks|
      invariant 0 <= i <= |ranks| && Represents(bits[..], ranks[..i])
    {
      ghost var before := bits[..];
      var bit := ranks[i] % BSIZE;
      bits[ranks[i] / BSIZE] := bits[ranks[i] / BSIZE] | Mask(bit);
      SetOne(before, bits[..], ranks[i]);
      assert ranks[..i + 1] == ranks[..i] + [ranks[i]];
      i := i + 1;
    }
    assert ranks[..i] == ranks;
  }

  lemma {:induction false} SetOne(before: seq<bv8>, after: seq<bv8>, r: nat)
    requires r < BSIZE * |before| && after == before[r / BSIZE := before[r / BSIZE] | Mask(r % BSIZE)]
    ensures forall m: nat :: m < BSIZE * |before| ==> (IsSet(after, m) <==> IsSet(before, m) || m == r)
  {
    hide Bit, Mask;
    forall m: nat | m < BSIZE * |before| ensures IsSet(after, m) <==> IsSet(before, m) || m == r {
      SetOneAt(before[m / BSIZE], after[m / BSIZE], r, m);
    }
  }

  lemma {:induction false} SetOneAt(before: bv8, after: bv8, r: nat, m: nat)
    requires after == if m / BSIZE == r / BSIZE then before | Mask(r % BSIZE) else before
    ensures Bit(after, m % BSIZE) <==> Bit(before, m % BSIZE) || m == r
  {
    SetBit(before, r % BSIZE, m % BSIZE);
    hide Bit, Mask;
    assert m == (m / BSIZE) * BSIZE + m % BSIZE && r == (r / BSIZE) * BSIZE + r % BSIZE;
  }

  /** In the bitmap of strictly rising ranks, the i-th set bit is the i-th rank. */
  lemma {:induction false} CountOfRanks(bits: seq<bv8>, ranks: seq<nat>, m: nat, k: nat)
    requires Represents(bits, ranks) && Strict(ranks) && m <= BSIZE * |bits| && k <= |ranks|
    requires (forall i :: 0 <= i < k ==> ranks[i] < m) && (forall i :: k <= i < |ranks| ==> m <= ranks[i])
    ensures Count(bits, m) == k
  {
    hide Bit;
    if m > 0 {
      if IsSet(bits, m - 1) {
        var i :| 0 <= i < |ranks| && ranks[i] == m - 1;
        var next := if i + 1 < |ranks| then i + 1 else i;
        assert ranks[i] <= ranks[next];
        CountOfRanks(bits, ranks, m - 1, k - 1);
      } else {
        forall i | 0 <= i < k ensures ranks[i] < m - 1 { assert ranks[i] in ranks; }
        CountOfRanks(bits, ranks, m - 1, k);
      }
    }
  }

  /** The bitmap format is right exactly for strictly rising ranks: then, and only then, the
      child rank i is translated to the i-th of the ranks. The check also lets repeated
      ranks through. */
  lemma {:induction false} RightForStrict(bits: seq<bv8>, ranks: seq<nat>)
    requires Represents(bits, ranks) && forall i :: 0 <= i < |ranks| ==> ranks[i] < BSIZE * |bits|
    ensures (forall i: nat :: i < |ranks| ==> ParentRank(bits, i, ranks[i])) <==> Strict(ranks)
    ensures Strict(ranks) ==> Count(bits, BSIZE * |bits|) == |ranks|
  {
    if Strict(ranks) {
      forall i: nat | i < |ranks| ensures ParentRank(bits, i, ranks[i]) {
        assert ranks[i] in ranks;
        CountOfRanks(bits, ranks, ranks[i], i);
      }
      CountOfRanks(bits, ranks, BSIZE * |bits|, |ranks|);
    }
    if forall i: nat :: i < |ranks| ==> ParentRank(bits, i, ranks[i]) {
      forall i: nat, j: nat | i < j < |ranks| ensures ranks[i] < ranks[j] {
        assert ParentRank(bits, i, ranks[i]) && ParentRank(bits, j, ranks[j]);
        if ranks[j] <= ranks[i] { CountMore(bits, ranks[j], ranks[i]); }
      }
    }
  }

  ghost function Below(ranks: seq<nat>, m: nat): set<nat> {
    set x | x in ranks && x < m
  }

  /** As many bits are set as there are different ranks. */
  lemma {:induction false} CountIsSize(bits: seq<bv8>, ranks: seq<nat>, m: nat)
    requires Represents(bits, ranks) && m <= BSIZE * |bits|
    ensures Count(bits, m) == |Below(ranks, m)|
  {
    hide Bit;
    if m == 0 {
      assert Below(ranks, 0) == {};
    } else {
      CountIsSize(bits, ranks, m - 1);
      assert Below(ranks, m) == Below(ranks, m - 1) + if m - 1 in ranks then {m - 1} else {};
    }
  }

  ghost function AllOf(ranks: seq<nat>): set<nat> {
    set x | x in ranks
  }

  lemma {:induction false} DifferentRanks(ranks: seq<nat>)
    ensures |AllOf(ranks)| <= |ranks|
    ensures |AllOf(ranks)| == |ranks| ==> forall i, j :: 0 <= i < j < |ranks| ==> ranks[i] != ranks[j]
  {
    if ranks == [] {
      assert AllOf(ranks) == {};
    } else {
      var init, last := ranks[..|ranks| - 1], ranks[|ranks| - 1];
      DifferentRanks(init);
      assert ranks == init + [last] && AllOf(ranks) == AllOf(init) + {last};
      assert forall i :: 0 <= i < |init| ==> init[i] in AllOf(init);
      if last in AllOf(init) { assert AllOf(ranks) == AllOf(init); }
    }
  }

  lemma {:induction false} RisingIsStrict(ranks: seq<nat>, i: nat, j: nat)
    requires Rising(ranks) && i < j < |ranks| && forall k, l :: 0 <= k < l < |ranks| ==> ranks[k] != ranks[l]
    ensures ranks[i] < ranks[j]
  {
    if i + 1 < j { RisingIsStrict(ranks, i, j - 1); }
    assert ranks[j - 1] <= ranks[j];
  }

  /** Of rising ranks that repeat, fewer bits are set than there are ranks. */
  lemma {:induction false} RepeatedRanksMissing(bits: seq<bv8>, ranks: seq<nat>)
    requires Represents(bits, ranks) && Rising(ranks) && forall i :: 0 <= i < |ranks| ==> ranks[i] < BSIZE * |bits|
    ensures Count(bits, BSIZE * |bits|) <= |ranks|
    ensures Count(bits, BSIZE * |bits|) == |ranks| <==> Strict(ranks)
  {
    CountIsSize(bits, ranks, BSIZE * |bits|);
    assert Below(ranks, BSIZE * |bits|) == AllOf(ranks);
    DifferentRanks(ranks);
    if Count(bits, BSIZE * |bits|) == |ranks| {
      forall i, j | 0 <= i < j < |ranks| ensures ranks[i] < ranks[j] { RisingIsStrict(ranks, i, j); }
    }
    if Strict(ranks) { RightForStrict(bits, ranks); }
  }

  lemma {:induction false} RepeatedRanksPass()
    ensures Rising([1, 1]) && !Strict([1, 1])
  {
    assert [1, 1][0] == [1, 1][1];
  }
}
