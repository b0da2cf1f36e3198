/** The items of an array that have a chosen set of indices in each dimension, in
    storage order. */
module TypeBoxes {
  import opened TypeMaps

  /** One dimension: its size, and the chosen indices as a list from a start on. */
  datatype Dim = Dim(size: nat, picks: seq<int>, start: int)
  {
    function Chosen(): seq<int> {
      Moved(picks, start)
    }
  }

  ghost predicate Increasing(a: seq<int>) {
    forall i, j :: 0 <= i < j < |a| ==> a[i] < a[j]
  }

  ghost predicate InRange(d: Dim) {
    d.size >= 1 && Increasing(d.Chosen()) && forall x :: x in d.Chosen() ==> 0 <= x < d.size
  }

  ghost predicate AllInRange(dims: seq<Dim>) {
    forall k :: 0 <= k < |dims| ==> InRange(dims[k])
  }

  /** The number of items of the whole array; the fastest dimension comes first. */
  function Items(dims: seq<Dim>): nat {
    if dims == [] then 1 else Items(dims[..|dims| - 1]) * dims[|dims| - 1].size
  }

  function ChosenItems(dims: seq<Dim>): nat {
    if dims == [] then 1 else ChosenItems(dims[..|dims| - 1]) * |dims[|dims| - 1].picks|
  }

  /** The chosen item numbers, row after row. */
  function Box(dims: seq<Dim>): seq<int> {
    if dims == [] then [0]
    else Combine(Box(dims[..|dims| - 1]), Scaled(dims[|dims| - 1].Chosen(), Items(dims[..|dims| - 1])))
  }

  /** The same moved to the origin, and where it was. */
  function Origin(dims: seq<Dim>): seq<int> {
    if dims == [] then [0]
    else Combine(Origin(dims[..|dims| - 1]), Scaled(dims[|dims| - 1].picks, Items(dims[..|dims| - 1])))
  }

  function Displacement(dims: seq<Dim>): int {
    if dims == [] then 0
    else Displacement(dims[..|dims| - 1]) + Items(dims[..|dims| - 1]) * dims[|dims| - 1].start
  }

  lemma {:induction false} BothMoved(o: seq<int>, d: int, at: seq<int>, x: int)
    ensures Combine(Moved(o, d), Moved(at, x)) == Moved(Combine(o, at), d + x)
  {
    CombineMoved(o, at, d);
    CombineMoved(Moved(o, d), at, x);
    MovedTwice(Combine(o, at), d, x);
  }

  lemma {:induction false} BoxIsMoved(dims: seq<Dim>)
    ensures Box(dims) == Moved(Origin(dims), Displacement(dims))
  {
    if dims == [] {
      assert Moved([0], 0) == [0];
    } else {
      BoxParts(dims);
      hide *;
      var init, d := dims[..|dims| - 1], dims[|dims| - 1];
      BoxIsMoved(init);
      ScaledMoved(d.picks, d.start, Items(init));
      BothMoved(Origin(init), Displacement(init), Scaled(d.picks, Items(init)), d.start * Items(init));
    }
  }

  lemma {:induction false} BoxParts(dims: seq<Dim>)
    requires dims != []
    ensures
      var init, d := dims[..|dims| - 1], dims[|dims| - 1];
      && Box(dims) == Combine(Box(init), Scaled(Moved(d.picks, d.start), Items(init)))
      && Origin(dims) == Combine(Origin(init), Scaled(d.picks, Items(init)))
      && Displacement(dims) == Displacement(init) + d.start * Items(init)
  {
  }

  /** An item number is chosen if each of its digits is. */
  predicate InBox(dims: seq<Dim>, x: nat) {
    if dims == [] then x == 0
    else
      var row := Items(dims[..|dims| - 1]);
      row > 0 && x / row in dims[|dims| - 1].Chosen() && InBox(dims[..|dims| - 1], x % row)
  }

  lemma {:induction false} ItemsPositive(dims: seq<Dim>)
    requires AllInRange(dims)
    ensures Items(dims) > 0
  {
    if dims != [] {
      ItemsPositive(dims[..|dims| - 1]);
    }
  }

  /** The numbers of chosen items in chosen rows. */
  ghost predicate Rows(a: seq<int>, row: int, chosen: seq<int>, r: seq<int>)
    requires row > 0
  {
    && Increasing(r)
    && forall x :: x in r <==> x / row in chosen && x % row in a
  }

  lemma {:induction false} RowsMeaning(a: seq<int>, row: int, chosen: seq<int>)
    requires row > 0 && Increasing(a) && Increasing(chosen) && forall x :: x in a ==> 0 <= x < row
    ensures Rows(a, row, chosen, Combine(a, Scaled(chosen, row)))
    decreases |chosen|
  {
    if chosen == [] {
      CombineLast(a, [], 0);
      assert Scaled(chosen, row) == [];
    } else {
      var init, q := chosen[..|chosen| - 1], chosen[|chosen| - 1];
      assert chosen == init + [q];
      RowsMeaning(a, row, init);
      assert Scaled(chosen, row) == Scaled(init, row) + [q * row];
      CombineLast(a, Scaled(init, row), q * row);
      assert forall y :: y in init ==> y < q;
      hide Combine, Scaled;
      NextRow(a, row, init, q, Combine(a, Scaled(init, row)));
    }
  }

  lemma {:induction false} NextRow(a: seq<int>, row: int, init: seq<int>, q: int, r: seq<int>)
    requires row > 0 && Increasing(a) && (forall x :: x in a ==> 0 <= x < row)
    requires Rows(a, row, init, r) && forall y :: y in init ==> y < q
    ensures Rows(a, row, init + [q], r + Moved(a, q * row))
  {
    var more := Moved(a, q * row);
    forall x ensures x in more <==> x / row == q && x % row in a {
      Digits(x, row, q);
      if x in more {
        var k :| 0 <= k < |a| && more[k] == x;
        assert a[k] in a;
      }
      if x / row == q && x % row in a {
        var k :| 0 <= k < |a| && a[k] == x % row;
        assert more[k] == x;
      }
    }
    forall x | x in r ensures x < q * row {
      Below(x, row, q);
    }
    forall i, j | 0 <= i < j < |r + more| ensures (r + more)[i] < (r + more)[j] {
      if i < |r| <= j {
        assert r[i] in r && a[j - |r|] in a;
      }
    }
  }

  lemma {:induction false} LargeMultiple(t: int, row: int)
    requires row > 0
    ensures t >= 1 ==> t * row >= row
    ensures t <= -1 ==> t * row <= -row
  {
    assert (t - 1) * row == t * row - row && (t + 1) * row == t * row + row;
    if t >= 1 { assert (t - 1) * row >= 0; }
    if t <= -1 { assert (t + 1) * row <= 0; }
  }

  lemma {:induction false} Digits(x: int, row: int, q: int)
    requires row > 0
    ensures x / row == q <==> 0 <= x - q * row < row
    ensures x / row == q ==> x % row == x - q * row
  {
    var k, s := x / row, x % row;
    assert x == k * row + s && 0 <= s < row;
    assert (k - q) * row == k * row - q * row;
    LargeMultiple(k - q, row);
  }

  lemma {:induction false} Below(x: int, row: int, q: int)
    requires row > 0 && x / row < q
    ensures x < q * row
  {
    assert x == (x / row) * row + x % row;
    assert (x / row + 1) * row <= q * row;
  }

  lemma {:induction false} InRows(x: int, row: int, size: nat)
    requires row > 0 && 0 <= x / row < size
    ensures 0 <= x < row * size
  {
    Below(x, row, size);
    assert x == (x / row) * row + x % row && (x / row) * row >= 0;
  }

  /** The box is the increasing list of exactly the chosen item numbers. */
  lemma {:induction false} BoxMeaning(dims: seq<Dim>)
    requires AllInRange(dims)
    ensures Increasing(Box(dims)) && |Box(dims)| == ChosenItems(dims)
    ensures forall x :: x in Box(dims) ==> 0 <= x < Items(dims)
    ensures forall x: nat :: x in Box(dims) <==> InBox(dims, x)
  {
    if dims != [] {
      var init, d := dims[..|dims| - 1], dims[|dims| - 1];
      var row := Items(init);
      assert AllInRange(init) && InRange(d);
      BoxMeaning(init);
      ItemsPositive(init);
      RowsMeaning(Box(init), row, d.Chosen());
      CombineSize(Box(init), Scaled(d.Chosen(), row));
      assert Box(dims) == Combine(Box(init), Scaled(d.Chosen(), row));
      assert Items(dims) == row * d.size && ChosenItems(dims) == ChosenItems(init) * |d.picks|;
      var box, inner, chosen := Box(dims), Box(init), d.Chosen();
      hide Combine, Scaled, Box, Items, ChosenItems, Increasing, AllInRange;
      forall x | x in box ensures 0 <= x < row * d.size {
        InRows(x, row, d.size);
      }
      forall x: nat ensures x in box <==> InBox(dims, x) {
        assert x in box <==> x / row in chosen && x % row in inner;
        assert x % row in inner <==> InBox(init, x % row);
      }
    }
  }

  // ----- in bytes -----

  /** The items at the origin, in bytes. */
  function OriginBytes(dims: seq<Dim>, extent: int): seq<int> {
    if dims == [] then [0]
    else
      var init := dims[..|dims| - 1];
      Combine(OriginBytes(init, extent), Scaled(dims[|dims| - 1].picks, Items(init) * extent))
  }

  lemma {:induction false} ScaledTwice(a: seq<int>, x: int, y: int)
    ensures Scaled(Scaled(a, x), y) == Scaled(a, x * y)
  {
    forall i | 0 <= i < |a| ensures (a[i] * x) * y == a[i] * (x * y) {}
  }

  lemma {:induction false} OriginInBytes(dims: seq<Dim>, extent: int)
    ensures OriginBytes(dims, extent) == Scaled(Origin(dims), extent)
  {
    if dims == [] {
      assert Scaled([0], extent) == [0];
    } else {
      var init, d := dims[..|dims| - 1], dims[|dims| - 1];
      OriginInBytes(init, extent);
      var at := Scaled(d.picks, Items(init));
      ScaledCombine(Origin(init), at, extent);
      ScaledTwice(d.picks, Items(init), extent);
    }
  }

  lemma {:induction false} NextDim(dims: seq<Dim>, k: nat, extent: int)
    requires k < |dims|
    ensures Items(dims[..k + 1]) == Items(dims[..k]) * dims[k].size
    ensures Displacement(dims[..k + 1]) == Displacement(dims[..k]) + Items(dims[..k]) * dims[k].start
    ensures OriginBytes(dims[..k + 1], extent)
         == Combine(OriginBytes(dims[..k], extent), Scaled(dims[k].picks, Items(dims[..k]) * extent))
  {
    assert dims[..k + 1][..k] == dims[..k];
  }

  lemma {:induction false} NoDims(extent: int)
    ensures Items([]) == 1 && Displacement([]) == 0 && OriginBytes([], extent) == [0]
  {
  }

  lemma {:induction false} FirstDim(dims: seq<Dim>, extent: int)
    requires dims != []
    ensures Items(dims[..1]) == dims[0].size && Displacement(dims[..1]) == dims[0].start
    ensures OriginBytes(dims[..1], extent) == Scaled(dims[0].picks, extent)
  {
    hide Items, Displacement, OriginBytes, Scaled, Combine;
    assert dims[..0] == [];
    NextDim(dims, 0, extent);
    NoDims(extent);
    CombineWithOne(Scaled(dims[0].picks, 1 * extent));
  }

  lemma {:induction false} PositiveItems(dims: seq<Dim>, k: nat)
    requires AllInRange(dims) && k <= |dims|
    ensures Items(dims[..k]) > 0
  {
    ItemsPositive(dims[..k]);
  }

  /** The items at the origin, moved to their place. */
  lemma {:induction false} BoxInBytes(m: seq<Entry>, dims: seq<Dim>, extent: int)
    ensures Shift(Place(m, OriginBytes(dims, extent)), Displacement(dims) * extent) == Place(m, Scaled(Box(dims), extent))
  {
    OriginInBytes(dims, extent);
    BoxIsMoved(dims);
    ScaledMoved(Origin(dims), Displacement(dims), extent);
    PlaceMoved(m, OriginBytes(dims, extent), Displacement(dims) * extent);
  }

  /** One item in all faster dimensions, at the origin: only the last dimension counts. */
  lemma {:induction false} LastDimOnly(dims: seq<Dim>, extent: int)
    requires dims != [] && Displacement(dims) == 0 && OriginBytes(dims[..|dims| - 1], extent) == [0]
    ensures Scaled(Box(dims), extent) == Scaled(dims[|dims| - 1].picks, Items(dims[..|dims| - 1]) * extent)
  {
    OriginInBytes(dims, extent);
    BoxIsMoved(dims);
    assert Moved(Origin(dims), 0) == Origin(dims);
    CombineWithOne(Scaled(dims[|dims| - 1].picks, Items(dims[..|dims| - 1]) * extent));
    hide Combine, Scaled, Origin, Box, Displacement, Items;
  }

  lemma {:induction false} MinusOne(a: int, n: nat)
    ensures a * n == -1 <==> a == -1 && n == 1
  {
    if n > 0 { LargeMultiple(a, n); }
  }
}
