/** The process grid, and that the ranks of the grid share out the whole array. */
module GridPartition {
  import opened TypeBoxes
  import opened Distribution

  function Procs(ps: seq<nat>): nat {
    if ps == [] then 1 else ps[0] * Procs(ps[1..])
  }

  predicate Positive(ps: seq<nat>) {
    forall i :: 0 <= i < |ps| ==> ps[i] >= 1
  }

  lemma {:induction false} ProcsPositive(ps: seq<nat>)
    requires Positive(ps)
    ensures Procs(ps) >= 1
  {
    if ps != [] {
      ProcsPositive(ps[1..]);
      Product(ps[0], Procs(ps[1..]));
    }
  }

  /** The coordinates of a rank, in row-major order. */
  function Coords(rank: nat, ps: seq<nat>): (c: seq<nat>)
    requires Positive(ps)
    ensures |c| == |ps|
  {
    if ps == [] then []
    else
      ProcsPositive(ps[1..]);
      [rank / Procs(ps[1..])] + Coords(rank % Procs(ps[1..]), ps[1..])
  }

  function RankOf(c: seq<nat>, ps: seq<nat>): nat
    requires |c| == |ps|
  {
    if ps == [] then 0 else c[0] * Procs(ps[1..]) + RankOf(c[1..], ps[1..])
  }

  predicate InGrid(c: seq<nat>, ps: seq<nat>) {
    |c| == |ps| && forall i :: 0 <= i < |ps| ==> c[i] < ps[i]
  }

  lemma {:induction false} RankInGrid(c: seq<nat>, ps: seq<nat>)
    requires InGrid(c, ps)
    ensures RankOf(c, ps) < Procs(ps)
  {
    if ps != [] {
      RankInGrid(c[1..], ps[1..]);
      var rest := Procs(ps[1..]);
      Ordered(c[0], ps[0], rest);
    }
  }

  lemma {:induction false} CoordsInGrid(rank: nat, ps: seq<nat>)
    requires Positive(ps) && rank < Procs(ps)
    ensures InGrid(Coords(rank, ps), ps)
  {
    if ps != [] {
      ProcsPositive(ps[1..]);
      DivLess(rank, Procs(ps[1..]), ps[0]);
      CoordsInGrid(rank % Procs(ps[1..]), ps[1..]);
    }
  }

  /** A rank has coordinates c exactly if it is the rank of c. */
  lemma {:induction false} CoordsUnique(rank: nat, c: seq<nat>, ps: seq<nat>)
    requires Positive(ps) && rank < Procs(ps) && InGrid(c, ps)
    ensures Coords(rank, ps) == c <==> rank == RankOf(c, ps)
  {
    if ps != [] {
      var rest, tail := ps[1..], c[1..];
      var w := Procs(rest);
      ProcsPositive(rest);
      assert c == [c[0]] + tail;
      CoordsUnique(rank % w, tail, rest);
      RankInGrid(tail, rest);
      Digits(rank, w, c[0]);
      assert Coords(rank, ps) == [rank / w] + Coords(rank % w, rest);
      assert Coords(rank, ps)[1..] == Coords(rank % w, rest);
    }
  }

  /** The loop that computes the coordinates of a rank. */
  method GridCoords(size: nat, rank: nat, ps: seq<nat>) returns (coords: array<nat>)
    requires Positive(ps) && size == Procs(ps)
    ensures fresh(coords) && coords[..] == Coords(rank, ps)
  {
    coords := new nat[|ps|](_ => 0);
    var tmpRank: nat, procs: nat := rank, size;
    assert ps[0..] == ps;
    var i := 0;
    while i < |ps|
      invariant 0 <= i <= |ps| && procs == Procs(ps[i..])
      invariant coords[..i] + Coords(tmpRank, ps[i..]) == Coords(rank, ps)
    {
      NextCoord(tmpRank, ps, i);
      hide Coords, Procs, Positive;
      procs := procs / ps[i];
      coords[i] := tmpRank / procs;
      assert coords[..i + 1] == coords[..i] + [coords[i]];
      tmpRank := tmpRank % procs;
      i := i + 1;
    }
    assert ps[i..] == [];
  }

  lemma {:induction false} NextCoord(rank: nat, ps: seq<nat>, i: nat)
    requires Positive(ps) && i < |ps|
    ensures Positive(ps[i..]) && Positive(ps[i + 1..]) && ps[i] >= 1
    ensures Procs(ps[i..]) / ps[i] == Procs(ps[i + 1..]) >= 1
    ensures Coords(rank, ps[i..]) == [rank / Procs(ps[i + 1..])] + Coords(rank % Procs(ps[i + 1..]), ps[i + 1..])
  {
    var rest := ps[i + 1..];
    assert ps[i..][1..] == rest;
    ProcsPositive(rest);
    DivExact(ps[i], Procs(rest));
  }

  lemma {:induction false} DivExact(a: nat, b: nat)
    requires a >= 1
    ensures a * b / a == b
  {
    Digits(a * b, a, b);
    assert b * a == a * b;
  }

  // ----- the partition -----

  ghost predicate AllLegal(axes: seq<Axis>) {
    forall i :: 0 <= i < |axes| ==> Legal(axes[i])
  }

  function GridOf(axes: seq<Axis>): (ps: seq<nat>)
    ensures |ps| == |axes| && forall i :: 0 <= i < |axes| ==> ps[i] == axes[i].n
    ensures AllLegal(axes) ==> Positive(ps)
  {
    seq(|axes|, i requires 0 <= i < |axes| => axes[i].n)
  }

  /** From the order of the arguments to storage order, the fastest first, and back. */
  function Reordered<T>(s: seq<T>, orderC: bool): (r: seq<T>)
    ensures |r| == |s| && forall k :: 0 <= k < |s| ==> r[k] == s[if orderC then |s| - 1 - k else k]
  {
    seq(|s|, k requires 0 <= k < |s| => s[if orderC then |s| - 1 - k else k])
  }

  lemma {:induction false} ReorderedTwice<T>(s: seq<T>, orderC: bool)
    ensures Reordered(Reordered(s, orderC), orderC) == s
  {
  }

  function DimsOf(axes: seq<Axis>, coords: seq<nat>): (dims: seq<Dim>)
    requires |axes| == |coords| && AllLegal(axes)
    ensures |dims| == |axes|
  {
    seq(|axes|, i requires 0 <= i < |axes| => DimOf(axes[i], coords[i]))
  }

  function ArrayItems(axes: seq<Axis>): nat {
    if axes == [] then 1 else ArrayItems(axes[..|axes| - 1]) * axes[|axes| - 1].g
  }

  /** The coordinates of the owner of an item, dimension by dimension. */
  function Owners(axes: seq<Axis>, x: nat): (c: seq<nat>)
    requires AllLegal(axes)
    ensures |c| == |axes|
  {
    if axes == [] then []
    else
      var row := ArrayItems(axes[..|axes| - 1]);
      if row == 0 then seq(|axes|, _ => 0)
      else Owners(axes[..|axes| - 1], x % row) + [Owner(axes[|axes| - 1], x / row)]
  }

  lemma {:induction false} DimsItems(axes: seq<Axis>, coords: seq<nat>)
    requires AllLegal(axes) && |axes| == |coords|
    ensures Items(DimsOf(axes, coords)) == ArrayItems(axes) >= 1
  {
    if axes != [] {
      var n := |axes| - 1;
      DimsItems(axes[..n], coords[..n]);
      assert DimsOf(axes, coords)[..n] == DimsOf(axes[..n], coords[..n]);
      Product(axes[n].g, ArrayItems(axes[..n]));
    }
  }

  /** The last digit of an item number is an index, and the others make up a smaller one. */
  lemma {:induction false} LastDigit(axes: seq<Axis>, x: nat)
    requires AllLegal(axes) && axes != [] && x < ArrayItems(axes)
    ensures
      var init, last := axes[..|axes| - 1], axes[|axes| - 1];
      var row := ArrayItems(init);
      AllLegal(init) && Legal(last) && row >= 1 && 0 <= x / row < last.g && 0 <= x % row < row
  {
    var n := |axes| - 1;
    var row := ArrayItems(axes[..n]);
    DimsItems(axes[..n], seq(n, _ => 0));
    assert axes[n].g * row == row * axes[n].g;
    DivLess(x, row, axes[n].g);
  }

  lemma {:induction false} OwnersInGrid(axes: seq<Axis>, x: nat)
    requires AllLegal(axes) && x < ArrayItems(axes)
    ensures InGrid(Owners(axes, x), GridOf(axes))
  {
    if axes != [] {
      var n := |axes| - 1;
      var row := ArrayItems(axes[..n]);
      LastDigit(axes, x);
      hide ArrayItems, Owner;
      OwnersInGrid(axes[..n], x % row);
      OwnerInGrid(axes[n], x / row);
      assert GridOf(axes) == GridOf(axes[..n]) + [axes[n].n];
    }
  }

  /** An item is chosen for coordinates c exactly if they are those of its owner. */
  lemma {:induction false} ChosenByOwner(axes: seq<Axis>, coords: seq<nat>, x: nat)
    requires AllLegal(axes) && InGrid(coords, GridOf(axes)) && x < ArrayItems(axes)
    ensures InBox(DimsOf(axes, coords), x) <==> coords == Owners(axes, x)
  {
    if axes != [] {
      var n := |axes| - 1;
      var init, last, others := axes[..n], axes[n], coords[..n];
      var row := ArrayItems(init);
      LastDigit(axes, x);
      LastChosen(axes, coords, x);
      LastOwner(axes, coords, x);
      hide *;
      GridPrefix(coords, axes);
      ChosenByOwner(init, others, x % row);
      OwnedExactly(last, coords[n]);
    }
  }

  lemma {:induction false} GridPrefix(coords: seq<nat>, axes: seq<Axis>)
    requires axes != [] && InGrid(coords, GridOf(axes))
    ensures InGrid(coords[..|axes| - 1], GridOf(axes[..|axes| - 1])) && coords[|axes| - 1] < axes[|axes| - 1].n
  {
  }

  // Being chosen, and having an owner, is decided digit by digit.

  lemma {:induction false} LastChosen(axes: seq<Axis>, coords: seq<nat>, x: nat)
    requires AllLegal(axes) && axes != [] && |coords| == |axes|
    ensures
      var n := |axes| - 1;
      var row := ArrayItems(axes[..n]);
      row >= 1 &&
      (InBox(DimsOf(axes, coords), x)
       <==> x / row in DimOf(axes[n], coords[n]).Chosen() && InBox(DimsOf(axes[..n], coords[..n]), x % row))
  {
    var n := |axes| - 1;
    DimsItems(axes[..n], coords[..n]);
    hide ArrayItems, Items, DimOf;
    var dims := DimsOf(axes, coords);
    assert dims[..n] == DimsOf(axes[..n], coords[..n]) && dims[n] == DimOf(axes[n], coords[n]);
  }

  lemma {:induction false} LastOwner(axes: seq<Axis>, coords: seq<nat>, x: nat)
    requires AllLegal(axes) && axes != [] && |coords| == |axes| && ArrayItems(axes[..|axes| - 1]) >= 1
    requires AllLegal(axes[..|axes| - 1]) && Legal(axes[|axes| - 1])
    ensures
      var n := |axes| - 1;
      var row := ArrayItems(axes[..n]);
      coords == Owners(axes, x) <==> coords[..n] == Owners(axes[..n], x % row) && coords[n] == Owner(axes[n], x / row)
  {
    var n := |axes| - 1;
    hide ArrayItems, Owner;
    assert coords == coords[..n] + [coords[n]];
  }

  /** The items of a rank: of all axes in storage order, those chosen by its coordinates. */
  function ItemsOfRank(axes: seq<Axis>, rank: nat, orderC: bool): seq<int>
    requires AllLegal(axes)
  {
    Box(DimsOf(Reordered(axes, orderC), Reordered(Coords(rank, GridOf(axes)), orderC)))
  }

  function OwnerRank(axes: seq<Axis>, x: nat, orderC: bool): nat
    requires AllLegal(axes)
  {
    RankOf(Reordered(Owners(Reordered(axes, orderC), x), orderC), GridOf(axes))
  }

  /** Every item of the array belongs to exactly one rank of the grid. */
  lemma {:induction false} Partition(axes: seq<Axis>, orderC: bool, x: nat)
    requires AllLegal(axes) && x < ArrayItems(Reordered(axes, orderC))
    ensures OwnerRank(axes, x, orderC) < Procs(GridOf(axes))
    ensures forall rank: nat :: rank < Procs(GridOf(axes)) ==>
      (x in ItemsOfRank(axes, rank, orderC) <==> rank == OwnerRank(axes, x, orderC))
  {
    var ps, stored := GridOf(axes), Reordered(axes, orderC);
    var owners := Owners(stored, x);
    var c := Reordered(owners, orderC);
    OwnersInGrid(stored, x);
    InGridReordered(owners, stored, axes, orderC);
    RankInGrid(c, ps);
    forall rank: nat | rank < Procs(ps)
      ensures x in ItemsOfRank(axes, rank, orderC) <==> rank == OwnerRank(axes, x, orderC)
    {
      var mine := Reordered(Coords(rank, ps), orderC);
      CoordsInGrid(rank, ps);
      CoordsUnique(rank, c, ps);
      InGridReordered(Coords(rank, ps), axes, stored, orderC);
      InRankBox(stored, mine, x);
      ReorderedTwice(Coords(rank, ps), orderC);
      ReorderedTwice(owners, orderC);
      hide Owners, Coords, Reordered, Procs, RankOf, DimsOf, Box, GridOf;
      assert mine == owners <==> Coords(rank, ps) == c;
    }
  }

  lemma {:induction false} InGridReordered(c: seq<nat>, axes: seq<Axis>, other: seq<Axis>, orderC: bool)
    requires InGrid(c, GridOf(axes)) && (other == Reordered(axes, orderC) || axes == Reordered(other, orderC))
    ensures InGrid(Reordered(c, orderC), GridOf(other))
  {
  }

  lemma {:induction false} InRankBox(stored: seq<Axis>, mine: seq<nat>, x: nat)
    requires AllLegal(stored) && InGrid(mine, GridOf(stored)) && x < ArrayItems(stored)
    ensures x in Box(DimsOf(stored, mine)) <==> mine == Owners(stored, x)
  {
    var dims := DimsOf(stored, mine);
    forall k | 0 <= k < |dims| ensures InRange(dims[k]) { OwnedExactly(stored[k], mine[k]); }
    BoxMeaning(dims);
    ChosenByOwner(stored, mine, x);
  }

  /** A rank has only items of the array. */
  lemma {:induction false} OnlyItems(axes: seq<Axis>, rank: nat, orderC: bool)
    requires AllLegal(axes) && rank < Procs(GridOf(axes))
    ensures forall x :: x in ItemsOfRank(axes, rank, orderC) ==> 0 <= x < ArrayItems(Reordered(axes, orderC))
  {
    var stored, mine := Reordered(axes, orderC), Reordered(Coords(rank, GridOf(axes)), orderC);
    CoordsInGrid(rank, GridOf(axes));
    var dims := DimsOf(stored, mine);
    forall k | 0 <= k < |dims| ensures InRange(dims[k]) { OwnedExactly(stored[k], mine[k]); }
    BoxMeaning(dims);
    DimsItems(stored, mine);
  }
}
