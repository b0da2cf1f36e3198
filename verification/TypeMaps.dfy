/** Type maps: which basic items a datatype denotes, and at which displacements. A
    datatype built from another is that other at a list of displacements, so most of
    the reasoning is about such lists. */
module TypeMaps {

  type Prim = nat

  datatype Entry = Entry(prim: Prim, disp: int)

  // ----- lists of displacements -----

  function Arith(start: int, step: int, n: nat): (a: seq<int>)
    ensures |a| == n && forall k :: 0 <= k < n ==> a[k] == start + k * step
  {
    seq(n, k => start + k * step)
  }

  function Moved(a: seq<int>, x: int): (b: seq<int>)
    ensures |b| == |a| && forall k :: 0 <= k < |a| ==> b[k] == a[k] + x
  {
    seq(|a|, k requires 0 <= k < |a| => a[k] + x)
  }

  /** The displacements a, once at each of the displacements b. */
  function Combine(a: seq<int>, b: seq<int>): seq<int> {
    if b == [] then [] else Combine(a, b[..|b| - 1]) + Moved(a, b[|b| - 1])
  }

  lemma {:induction false} ArithSplit(start: int, step: int, a: nat, b: nat)
    ensures Arith(start, step, a) + Arith(start + a * step, step, b) == Arith(start, step, a + b)
  {
    forall k | 0 <= k < b ensures start + a * step + k * step == start + (a + k) * step {
      assert (a + k) * step == a * step + k * step;
    }
  }

  lemma {:induction false} CombineLast(a: seq<int>, b: seq<int>, x: int)
    ensures Combine(a, b + [x]) == Combine(a, b) + Moved(a, x)
    ensures Combine(a, []) == []
  {
    assert (b + [x])[..|b|] == b;
  }

  lemma {:induction false} CombineConcat(a: seq<int>, b: seq<int>, c: seq<int>)
    ensures Combine(a, b + c) == Combine(a, b) + Combine(a, c)
    decreases |c|
  {
    hide Combine, Moved;
    if c == [] {
      CombineLast(a, b, 0);
      assert b + c == b;
    } else {
      var init, x := c[..|c| - 1], c[|c| - 1];
      assert c == init + [x] && b + c == (b + init) + [x];
      CombineConcat(a, b, init);
      CombineLast(a, b + init, x);
      CombineLast(a, init, x);
    }
  }

  lemma {:induction false} MovedLast(b: seq<int>, y: int, x: int)
    ensures Moved(b + [y], x) == Moved(b, x) + [y + x] && Moved([], x) == []
  {
  }

  lemma {:induction false} MovedTwice(a: seq<int>, x: int, y: int)
    ensures Moved(Moved(a, x), y) == Moved(a, x + y) == Moved(a, y + x)
  {
  }

  lemma {:induction false} MovedConcat(a: seq<int>, b: seq<int>, x: int)
    ensures Moved(a + b, x) == Moved(a, x) + Moved(b, x)
  {
  }

  lemma {:induction false} CombineMoved(a: seq<int>, b: seq<int>, x: int)
    ensures Combine(Moved(a, x), b) == Moved(Combine(a, b), x)
    ensures Combine(a, Moved(b, x)) == Moved(Combine(a, b), x)
    decreases |b|
  {
    hide Combine, Moved;
    if b == [] {
      CombineLast(a, [], x);
      CombineLast(Moved(a, x), [], x);
      MovedLast([], 0, x);
    } else {
      var init, y := b[..|b| - 1], b[|b| - 1];
      assert b == init + [y];
      CombineMoved(a, init, x);
      CombineLast(a, init, y);
      CombineLast(Moved(a, x), init, y);
      MovedLast(init, y, x);
      CombineLast(a, Moved(init, x), y + x);
      MovedConcat(Combine(a, init), Moved(a, y), x);
      MovedTwice(a, x, y);
      MovedTwice(a, y, x);
    }
  }

  lemma {:induction false} CombineSize(a: seq<int>, b: seq<int>)
    ensures |Combine(a, b)| == |a| * |b|
    decreases |b|
  {
    if b != [] {
      CombineSize(a, b[..|b| - 1]);
      assert |a| * |b| == |a| * (|b| - 1) + |a|;
    }
  }

  lemma {:induction false} CombineOne(a: seq<int>, x: int)
    ensures Combine(a, [x]) == Moved(a, x)
  {
    CombineLast(a, [], x);
    assert [] + [x] == [x];
  }

  lemma {:induction false} CombineWithOne(a: seq<int>)
    ensures Combine([0], a) == a
    decreases |a|
  {
    hide Combine, Moved;
    CombineLast([0], [], 0);
    if a != [] {
      var init, x := a[..|a| - 1], a[|a| - 1];
      assert a == init + [x];
      CombineWithOne(init);
      CombineLast([0], init, x);
      assert Moved([0], x) == [x] by { MovedLast([], 0, x); assert [] + [0] == [0]; }
    }
  }

  lemma {:induction false} MovedArith(start: int, step: int, n: nat, x: int)
    ensures Moved(Arith(start, step, n), x) == Arith(start + x, step, n)
  {
  }

  lemma {:induction false} ArithLast(start: int, step: int, n: nat)
    ensures Arith(start, step, n + 1) == Arith(start, step, n) + [start + n * step]
    ensures Arith(start, step, n + 1)[..n] == Arith(start, step, n)
  {
  }

  lemma {:induction false} ArithNone(start: int, step: int)
    ensures Arith(start, step, 0) == []
  {
  }

  /** Equally spaced blocks of equally spaced items that touch are equally spaced items. */
  lemma {:induction false} CombineTouching(step: int, b: nat, n: nat)
    ensures Combine(Arith(0, step, b), Arith(0, b * step, n)) == Arith(0, step, n * b)
    decreases n
  {
    hide Arith, Moved, Combine;
    var block, w := Arith(0, step, b), b * step;
    if n == 0 {
      ArithNone(0, w);
      ArithNone(0, step);
      CombineLast(block, [], 0);
    } else {
      var m: nat := n - 1;
      CombineTouching(step, b, m);
      TouchingStep(step, b, m, w);
      assert Combine(block, Arith(0, w, m + 1)) == Arith(0, step, (m + 1) * b);
    }
  }

  lemma {:induction false} TouchingStep(step: int, b: nat, m: nat, w: int)
    requires w == b * step && Combine(Arith(0, step, b), Arith(0, w, m)) == Arith(0, step, m * b)
    ensures Combine(Arith(0, step, b), Arith(0, w, m + 1)) == Arith(0, step, (m + 1) * b)
  {
    hide Arith, Moved, Combine;
    Multiples(m, b, step);
    ArithLast(0, w, m);
    MovedArith(0, step, b, m * w);
    var k: nat, x := m * b, m * w;
    assert x == k * step && (m + 1) * b == k + b;
    ArithSplit(0, step, k, b);
    CombineLast(Arith(0, step, b), Arith(0, w, m), x);
  }

  lemma {:induction false} Multiples(m: nat, b: nat, step: int)
    ensures m * (b * step) == (m * b) * step && m * b + b == (m + 1) * b && m * b >= 0
  {
  }

  function Scaled(disps: seq<int>, extent: int): (r: seq<int>)
    ensures |r| == |disps| && forall i :: 0 <= i < |disps| ==> r[i] == disps[i] * extent
  {
    seq(|disps|, i requires 0 <= i < |disps| => disps[i] * extent)
  }

  lemma {:induction false} ScaledConcat(a: seq<int>, b: seq<int>, x: int)
    ensures Scaled(a + b, x) == Scaled(a, x) + Scaled(b, x)
  {
  }

  lemma {:induction false} ScaledMoved(a: seq<int>, y: int, x: int)
    ensures Scaled(Moved(a, y), x) == Moved(Scaled(a, x), y * x)
  {
    forall i | 0 <= i < |a| ensures (a[i] + y) * x == a[i] * x + y * x {}
  }

  lemma {:induction false} ScaledArith(start: int, step: int, n: nat, x: int)
    ensures Scaled(Arith(start, step, n), x) == Arith(start * x, step * x, n)
  {
    forall k | 0 <= k < n ensures (start + k * step) * x == start * x + k * (step * x) {
      assert (k * step) * x == k * (step * x);
    }
  }

  lemma {:induction false} ScaledCombine(a: seq<int>, b: seq<int>, x: int)
    ensures Scaled(Combine(a, b), x) == Combine(Scaled(a, x), Scaled(b, x))
    decreases |b|
  {
    hide Combine, Moved, Scaled;
    CombineLast(a, [], 0);
    CombineLast(Scaled(a, x), [], 0);
    assert Scaled([], x) == [];
    if b != [] {
      var init, y := b[..|b| - 1], b[|b| - 1];
      assert b == init + [y];
      ScaledCombine(a, init, x);
      CombineLast(a, init, y);
      ScaledConcat(Combine(a, init), Moved(a, y), x);
      ScaledMoved(a, y, x);
      ScaledConcat(init, [y], x);
      assert Scaled([y], x) == [y * x];
      CombineLast(Scaled(a, x), Scaled(init, x), y * x);
    }
  }

  // ----- type maps -----

  function Shift(m: seq<Entry>, x: int): (r: seq<Entry>)
    ensures |r| == |m|
  {
    seq(|m|, i requires 0 <= i < |m| => Entry(m[i].prim, m[i].disp + x))
  }

  /** The type map m at each of the displacements. */
  function Place(m: seq<Entry>, at: seq<int>): seq<Entry> {
    if at == [] then [] else Place(m, at[..|at| - 1]) + Shift(m, at[|at| - 1])
  }

  lemma {:induction false} PlaceLast(m: seq<Entry>, at: seq<int>, x: int)
    ensures Place(m, at + [x]) == Place(m, at) + Shift(m, x)
    ensures Place(m, []) == []
  {
    assert (at + [x])[..|at|] == at;
  }

  lemma {:induction false} PlaceConcat(m: seq<Entry>, a: seq<int>, b: seq<int>)
    ensures Place(m, a + b) == Place(m, a) + Place(m, b)
    decreases |b|
  {
    hide Place, Shift;
    PlaceLast(m, a, 0);
    if b == [] {
      assert a + b == a;
    } else {
      var init, x := b[..|b| - 1], b[|b| - 1];
      assert b == init + [x] && a + b == (a + init) + [x];
      PlaceConcat(m, a, init);
      PlaceLast(m, a + init, x);
      PlaceLast(m, init, x);
    }
  }

  lemma {:induction false} ShiftTwice(m: seq<Entry>, x: int, y: int)
    ensures Shift(Shift(m, x), y) == Shift(m, x + y)
  {
  }

  lemma {:induction false} ShiftConcat(m: seq<Entry>, n: seq<Entry>, x: int)
    ensures Shift(m + n, x) == Shift(m, x) + Shift(n, x) && Shift([], x) == []
  {
  }

  lemma {:induction false} PlaceMoved(m: seq<Entry>, a: seq<int>, x: int)
    ensures Place(m, Moved(a, x)) == Shift(Place(m, a), x)
    decreases |a|
  {
    hide Place, Shift, Moved;
    PlaceLast(m, a, 0);
    ShiftConcat([], [], x);
    MovedLast([], 0, x);
    if a != [] {
      var init, y := a[..|a| - 1], a[|a| - 1];
      assert a == init + [y];
      PlaceMoved(m, init, x);
      PlaceLast(m, init, y);
      MovedLast(init, y, x);
      PlaceLast(m, Moved(init, x), y + x);
      ShiftConcat(Place(m, init), Shift(m, y), x);
      ShiftTwice(m, y, x);
    }
  }

  lemma {:induction false} PlaceTwice(m: seq<Entry>, a: seq<int>, b: seq<int>)
    ensures Place(Place(m, a), b) == Place(m, Combine(a, b))
    decreases |b|
  {
    hide Place, Shift, Moved, Combine;
    PlaceLast(m, a, 0);
    PlaceLast(Place(m, a), [], 0);
    CombineLast(a, [], 0);
    if b != [] {
      var init, x := b[..|b| - 1], b[|b| - 1];
      assert b == init + [x];
      PlaceTwice(m, a, init);
      PlaceLast(Place(m, a), init, x);
      CombineLast(a, init, x);
      PlaceConcat(m, Combine(a, init), Moved(a, x));
      PlaceMoved(m, a, x);
    }
  }

  lemma {:induction false} PlaceSize(m: seq<Entry>, at: seq<int>)
    ensures |Place(m, at)| == |m| * |at|
    decreases |at|
  {
    if at != [] {
      PlaceSize(m, at[..|at| - 1]);
      assert |m| * |at| == |m| * (|at| - 1) + |m|;
    }
  }

  lemma {:induction false} PlaceHere(m: seq<Entry>)
    ensures Place(m, [0]) == m && Place([], []) == []
  {
    assert [0][..0] == [];
    assert Shift(m, 0) == m;
  }

  lemma {:induction false} PlaceNothing(at: seq<int>)
    ensures Place([], at) == []
    decreases |at|
  {
    if at != [] { PlaceNothing(at[..|at| - 1]); }
  }

  lemma {:induction false} PlaceAt(m: seq<Entry>, at: seq<int>, k: nat)
    requires k < |at| && m != []
    ensures k * |m| < |Place(m, at)| && Place(m, at)[k * |m|] == Entry(m[0].prim, m[0].disp + at[k])
    decreases |at|
  {
    var n := |at| - 1;
    PlaceSize(m, at);
    PlaceSize(m, at[..n]);
    assert |m| * |at| == |m| * n + |m|;
    if k < n {
      PlaceAt(m, at[..n], k);
      assert k * |m| + |m| <= n * |m| by { assert (k + 1) * |m| <= n * |m|; }
    }
  }

  /** What is placed at 0 first comes first. */
  lemma {:induction false} PlaceHead(m: seq<Entry>, at: seq<int>)
    requires at != [] && at[0] == 0
    ensures |Place(m, at)| == |m| * |at| && m <= Place(m, at)
  {
    assert at == [0] + at[1..];
    PlaceConcat(m, [0], at[1..]);
    PlaceHere(m);
    PlaceSize(m, at);
  }

  /** A type map repeated at two distances is the same only if the distances are. */
  lemma {:induction false} PlaceDistance(m: seq<Entry>, x: int, y: int, count: nat)
    requires m != [] && count >= 2 && Place(m, Arith(0, x, count)) == Place(m, Arith(0, y, count))
    ensures x == y
  {
    PlaceAt(m, Arith(0, x, count), 1);
    PlaceAt(m, Arith(0, y, count), 1);
  }

  // ----- datatypes with their bounds -----

  datatype Bound = None | Some(value: int)

  /** A marker datatype only sets a bound. */
  datatype Kind = Data | LbMarker | UbMarker

  /** None is the initial bound, above all lower and below all upper bounds. The user
      flags say that a bound comes from a marker. */
  datatype Layout = Layout(
    kind: Kind, entries: seq<Entry>, lb: Bound, ub: Bound, userLb: bool, userUb: bool, align: int)
  {
    predicate Bounded() {
      lb.Some? && ub.Some?
    }

    function Extent(): int {
      if Bounded() then ub.value - lb.value else 1
    }
  }

  const NEW_TYPE := Layout(Data, [], None, None, false, false, 1)

  function Least(a: Bound, b: Bound): Bound {
    if a.None? then b else if b.None? || a.value <= b.value then a else b
  }

  function Greatest(a: Bound, b: Bound): Bound {
    if a.None? then b else if b.None? || a.value >= b.value then a else b
  }

  function Plus(a: Bound, x: int): Bound {
    if a.None? then None else Some(a.value + x)
  }

  /** Rounds the upper bound up so that the extent is a multiple of the alignment; the
      remainder is the truncating one of the program. */
  function RoundedUb(lb: int, ub: int, align: int): int
    requires align > 0
  {
    var extent := ub - lb;
    var epsilon := if extent >= 0 then extent % align else -(-extent % align);
    if epsilon != 0 then ub + (align - epsilon) else ub
  }

  /** The extent of copies of a type, the first two a step apart, of a fresh type. */
  function CopiesExtent(x: int, count: nat, step: int, align: int, userUb: bool): int
    requires align > 0
  {
    var all := x + (if step >= 0 then step else -step) * (count - 1);
    if userUb then all else RoundedUb(0, all, align)
  }

  /** Adding count copies of t to p, the first at disp and each extent behind the one
      before; an extent of -1 stands for the extent of t. */
  function Added(p: Layout, t: Layout, count: nat, disp: int, extent: int): (r: Layout)
    requires p.align > 0 && t.align > 0
    ensures r.align > 0
  {
    if count == 0 then p
    else if t.kind == LbMarker then
      p.(lb := if p.userLb then Least(p.lb, Some(disp)) else Some(disp), userLb := true)
    else if t.kind == UbMarker then
      p.(ub := if p.userUb then Greatest(p.ub, Some(disp)) else Some(disp), userUb := true)
    else AddedData(p, t, count, disp, if extent == -1 then t.Extent() else extent)
  }

  function LastAt(disp: int, step: int, count: nat): int {
    disp + step * (count - 1)
  }

  /** A bound set by a marker wins over one that is not. */
  function NewLb(was: Bound, user: bool, more: Bound, userNew: bool): Bound {
    if user == userNew then Least(was, more) else if user then was else more
  }

  function NewUb(was: Bound, user: bool, more: Bound, userNew: bool): Bound {
    if user == userNew then Greatest(was, more) else if user then was else more
  }

  function AddedData(p: Layout, t: Layout, count: nat, disp: int, step: int): Layout
    requires p.align > 0 && t.align > 0
  {
    var last := LastAt(disp, step, count);
    var low := Plus(t.lb, if disp < last then disp else last);
    var high := Plus(t.ub, if disp < last then last else disp);
    var lb, ub := NewLb(p.lb, p.userLb, low, t.userLb), NewUb(p.ub, p.userUb, high, t.userUb);
    var userUb := p.userUb || t.userUb;
    var align := if p.align < t.align then t.align else p.align;
    Layout(p.kind, p.entries + Place(t.entries, Arith(disp, step, count)), lb,
           if !userUb && lb.Some? && ub.Some? then Some(RoundedUb(lb.value, ub.value, align)) else ub,
           p.userLb || t.userLb, userUb, align)
  }

  /** What adding does to the type map. */
  lemma {:induction false} AddedEntries(p: Layout, t: Layout, count: nat, disp: int, extent: int)
    requires p.align > 0 && t.align > 0 && (t.kind == Data || t.entries == [])
    ensures
      Added(p, t, count, disp, extent).entries
      == p.entries + Place(t.entries, Arith(disp, if extent == -1 then t.Extent() else extent, count))
    ensures Added(p, t, count, disp, extent).align > 0 && Added(p, t, count, disp, extent).kind == p.kind
  {
    PlaceNothing(Arith(disp, if extent == -1 then t.Extent() else extent, count));
  }
}
