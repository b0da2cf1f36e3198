/** The generator of Latin squares. It is right because every square it builds on the
    way is circulant: an entry depends only on its distance from the diagonal. */
module LatinSquare {

  type Square = seq<seq<int>>

  ghost predicate Distinct(s: seq<int>) {
    forall i, j :: 0 <= i < j < |s| ==> s[i] != s[j]
  }

  ghost predicate Sized(sq: Square) {
    forall i :: 0 <= i < |sq| ==> |sq[i]| == |sq|
  }

  /** Every entry is given by f from its distance to the diagonal, counted cyclically. */
  ghost predicate Circulant(sq: Square, f: seq<int>) {
    && Sized(sq) && |f| == |sq|
    && forall i, j :: 0 <= i < |sq| && 0 <= j < |sq| ==> sq[i][j] == f[if i >= j then i - j else i - j + |sq|]
  }

  // ----- one step of the generator -----

  function Insert(row: seq<int>, i: nat, x: int): (r: seq<int>)
    requires i <= |row|
    ensures |r| == |row| + 1
  {
    row[..i] + [x] + row[i..]
  }

  /** The first row repeated at the end, and the new symbol put on the diagonal. */
  function Grown(sq: Square, sym: int): (r: Square)
    requires sq != [] && forall i :: 0 <= i < |sq| ==> |sq[i]| == |sq|
    ensures |r| == |sq| + 1
  {
    seq(|sq| + 1, i requires 0 <= i < |sq| + 1 => Insert(if i < |sq| then sq[i] else sq[0], i, sym))
  }

  function Rotated(f: seq<int>, sym: int): (g: seq<int>)
    requires f != []
    ensures |g| == |f| + 1
  {
    [sym] + f[1..] + [f[0]]
  }

  lemma {:induction false} GrownCirculant(sq: Square, f: seq<int>, sym: int)
    requires Circulant(sq, f) && sq != []
    ensures Circulant(Grown(sq, sym), Rotated(f, sym))
  {
    var r, g, n := Grown(sq, sym), Rotated(f, sym), |sq| + 1;
    forall i | 0 <= i < n ensures |r[i]| == n {
      var row := if i < n - 1 then sq[i] else sq[0];
      assert |row| == n - 1 && r[i] == Insert(row, i, sym);
    }
    forall i, j | 0 <= i < n && 0 <= j < n ensures r[i][j] == g[if i >= j then i - j else i - j + n] {
      var row := if i < n - 1 then sq[i] else sq[0];
      assert |row| == n - 1;
      assert r[i] == Insert(row, i, sym);
      if j < i {
        assert r[i][j] == row[j];
      } else if j > i {
        assert r[i][j] == row[j - 1];
      }
    }
  }

  lemma {:induction false} RotatedSymbols(f: seq<int>, sym: int)
    requires f != [] && Distinct(f) && sym !in f
    ensures Distinct(Rotated(f, sym))
    ensures forall x :: x in Rotated(f, sym) <==> x in f || x == sym
  {
    var g := Rotated(f, sym);
    assert f == [f[0]] + f[1..];
    forall i, j | 0 <= i < j < |g| ensures g[i] != g[j] {
      assert 0 < j < |f| ==> g[j] == f[j];
      assert 0 < i < |f| ==> g[i] == f[i];
      assert g[|f|] == f[0] && g[0] == sym;
    }
  }

  // ----- the generator -----

  /** A list of the program: it is changed in place, and can be a row of a square. */
  class Row {
    var items: seq<int>

    constructor (items: seq<int>)
      ensures this.items == items
    {
      this.items := items;
    }

    method InsertAt(i: nat, x: int)
      requires i <= |items|
      modifies this
      ensures items == Insert(old(items), i, x)
    {
      items := items[..i] + [x] + items[i..];
    }

    /** Removes the first occurrence. */
    method Remove(x: int)
      requires x in items && Distinct(items)
      modifies this
      ensures |items| == |old(items)| - 1 && Distinct(items)
      ensures forall y :: y in items <==> y in old(items) && y != x
    {
      var i := 0;
      while items[i] != x
        invariant 0 <= i < |items| && x in items[i..]
        decreases |items| - i
      {
        assert items[i..] == [items[i]] + items[i + 1..];
        i := i + 1;
      }
      ghost var before := items;
      items := items[..i] + items[i + 1..];
      assert before == before[..i] + [x] + before[i + 1..];
      assert forall k :: 0 <= k < |items| ==> items[k] == if k < i then before[k] else before[k + 1];
    }
  }

  function Entries(square: seq<Row>): (sq: Square)
    reads square
    ensures |sq| == |square| && forall i :: 0 <= i < |square| ==> sq[i] == square[i].items
  {
    seq(|square|, i requires 0 <= i < |square| reads square => square[i].items)
  }

  ghost predicate Separate(square: seq<Row>) {
    forall i, j :: 0 <= i < j < |square| ==> square[i] != square[j]
  }

  /** A random choice. */
  method Choose(n: nat) returns (k: nat)
    requires n > 0
    ensures k < n
  {
    var any: int := *;
    k := if 0 <= any < n then any else 0;
  }

  /** Builds a square from the symbols in the list. The list ends up as one of the rows. */
  method Rls(symbols: Row) returns (square: seq<Row>, ghost f: seq<int>)
    requires symbols.items != [] && Distinct(symbols.items)
    modifies symbols
    ensures |square| == |old(symbols.items)| && Separate(square)
    ensures forall i :: 0 <= i < |square| ==> square[i] == symbols || fresh(square[i])
    ensures Circulant(Entries(square), f) && Distinct(f)
    ensures forall x :: x in f <==> x in old(symbols.items)
    decreases |symbols.items|
  {
    var n := |symbols.items|;
    if n == 1 {
      square, f := [symbols], symbols.items;
      return;
    }
    var k := Choose(n);
    var sym := symbols.items[k];
    symbols.Remove(sym);
    square, f := Rls(symbols);
    ghost var smaller := Entries(square);
    GrownCirculant(smaller, f, sym);
    RotatedSymbols(f, sym);
    CirculantSized(smaller, f);
    hide Circulant, Distinct, Grown, Rotated, Sized;
    square := Extend(square, sym, smaller);
    f := Rotated(f, sym);
  }

  lemma {:induction false} CirculantSized(sq: Square, f: seq<int>)
    requires Circulant(sq, f)
    ensures Sized(sq)
  {
  }

  /** Appends a copy of the first row and puts the symbol on the diagonal. */
  method Extend(smallerSquare: seq<Row>, sym: int, ghost smaller: Square) returns (square: seq<Row>)
    requires smaller != [] && Sized(smaller) && Separate(smallerSquare) && Entries(smallerSquare) == smaller
    modifies smallerSquare
    ensures Separate(square) && Entries(square) == Grown(smaller, sym)
    ensures forall i :: 0 <= i < |square| ==> square[i] in smallerSquare || fresh(square[i])
  {
    var copy := new Row(smallerSquare[0].items);
    square := smallerSquare + [copy];
    PutOnDiagonal(square, sym, smaller);
  }

  /** Inserts the symbol into each row at its own place. */
  method PutOnDiagonal(square: seq<Row>, sym: int, ghost smaller: Square)
    requires smaller != [] && Sized(smaller) && Separate(square)
    requires Entries(square) == smaller + [smaller[0]]
    modifies square
    ensures Entries(square) == Grown(smaller, sym)
  {
    ghost var target := Grown(smaller, sym);
    var i := 0;
    while i < |square|
      invariant 0 <= i <= |square|
      invariant forall k :: 0 <= k < i ==> square[k].items == target[k]
      invariant forall k :: i <= k < |square| ==> square[k].items == (smaller + [smaller[0]])[k]
    {
      square[i].InsertAt(i, sym);
      i := i + 1;
    }
  }

  // ----- Latin squares -----

  ghost predicate Permutes(s: seq<int>, symbols: set<int>) {
    |s| == |symbols| && Distinct(s) && forall x :: x in s <==> x in symbols
  }

  function Column(sq: Square, j: nat): (c: seq<int>)
    requires forall i :: 0 <= i < |sq| ==> |sq[i]| == |sq|
    requires j < |sq|
    ensures |c| == |sq| && forall i :: 0 <= i < |sq| ==> c[i] == sq[i][j]
  {
    seq(|sq|, i requires 0 <= i < |sq| => sq[i][j])
  }

  /** Every row and every column has every symbol once. */
  ghost predicate Latin(sq: Square, symbols: set<int>) {
    && Sized(sq) && |symbols| == |sq|
    && (forall i :: 0 <= i < |sq| ==> Permutes(sq[i], symbols))
    && (forall j :: 0 <= j < |sq| ==> Permutes(Column(sq, j), symbols))
  }

  function Elements(s: seq<int>): set<int> {
    set x | x in s
  }

  lemma {:induction false} DistinctSize(s: seq<int>)
    ensures |Elements(s)| <= |s|
    ensures |Elements(s)| == |s| <==> Distinct(s)
  {
    if s == [] {
      assert Elements(s) == {};
    } else {
      var n := |s| - 1;
      var init, x := s[..n], s[n];
      assert s == init + [x];
      DistinctSize(init);
      assert Elements(s) == Elements(init) + {x};
      if x in init {
        assert Elements(s) == Elements(init);
        var k :| 0 <= k < n && init[k] == x;
        assert s[k] == s[n];
      }
    }
  }

  /** The distances along a row, or along a column, are all distances once. */
  lemma {:induction false} CirculantLatin(sq: Square, f: seq<int>)
    requires Circulant(sq, f) && Distinct(f)
    ensures Latin(sq, Elements(f))
  {
    var n := |sq|;
    DistinctSize(f);
    forall i | 0 <= i < n ensures Permutes(sq[i], Elements(f)) {
      forall k | 0 <= k < n ensures f[k] in sq[i] {
        var j := if i >= k then i - k else i - k + n;
        assert sq[i][j] == f[k];
      }
      assert forall x :: x in sq[i] ==> x in f;
    }
    forall j | 0 <= j < n ensures Permutes(Column(sq, j), Elements(f)) {
      var c := Column(sq, j);
      forall k | 0 <= k < n ensures f[k] in c {
        var i := if j + k < n then j + k else j + k - n;
        assert c[i] == f[k];
      }
      assert forall x :: x in c ==> x in f;
    }
  }

  // ----- shuffling and transposing -----

  ghost predicate Order(p: seq<nat>, n: nat) {
    && |p| == n && (forall k :: 0 <= k < n ==> p[k] < n)
    && forall i, j :: 0 <= i < j < n ==> p[i] != p[j]
  }

  function Permuted(sq: Square, p: seq<nat>): (r: Square)
    requires |p| == |sq| && forall k :: 0 <= k < |sq| ==> p[k] < |sq|
    ensures |r| == |sq| && forall i :: 0 <= i < |sq| ==> r[i] == sq[p[i]]
  {
    seq(|sq|, i requires 0 <= i < |sq| => sq[p[i]])
  }

  function Transposed(sq: Square): (r: Square)
    requires forall i :: 0 <= i < |sq| ==> |sq[i]| == |sq|
    ensures |r| == |sq| && forall j :: 0 <= j < |sq| ==> r[j] == Column(sq, j)
  {
    seq(|sq|, j requires 0 <= j < |sq| => Column(sq, j))
  }

  lemma {:induction false} TransposedLatin(sq: Square, symbols: set<int>)
    requires Latin(sq, symbols)
    ensures Latin(Transposed(sq), symbols)
  {
    var t := Transposed(sq);
    assert Sized(t);
    forall i | 0 <= i < |sq| ensures Permutes(Column(t, i), symbols) && Permutes(t[i], symbols) {
      assert Column(t, i) == sq[i];
    }
  }

  function FirstNumbers(n: nat): (s: set<int>)
    ensures |s| == n && forall x :: x in s <==> 0 <= x < n
  {
    if n == 0 then {} else FirstNumbers(n - 1) + {n - 1}
  }

  /** A reordering reaches every place. */
  lemma {:induction false} OrderReaches(p: seq<nat>, n: nat, k: nat)
    requires Order(p, n) && k < n
    ensures k in p
  {
    var q: seq<int> := p;
    assert Distinct(q);
    DistinctSize(q);
    SubsetOfSameSize(Elements(q), FirstNumbers(n));
    assert k in Elements(q);
  }

  lemma {:induction false} SubsetOfSameSize(a: set<int>, b: set<int>)
    requires a <= b && |a| == |b|
    ensures a == b
  {
    assert |b - a| == |b| - |a|;
  }

  lemma {:induction false} PermutedLatin(sq: Square, p: seq<nat>, symbols: set<int>)
    requires Latin(sq, symbols) && Order(p, |sq|)
    ensures Latin(Permuted(sq, p), symbols)
  {
    var r, n := Permuted(sq, p), |sq|;
    forall j | 0 <= j < n ensures Permutes(Column(r, j), symbols) {
      var c, d := Column(r, j), Column(sq, j);
      assert Permutes(d, symbols);
      assert forall i :: 0 <= i < n ==> c[i] == d[p[i]];
      forall x ensures x in c <==> x in symbols {
        if x in symbols {
          var k :| 0 <= k < n && d[k] == x;
          OrderReaches(p, n, k);
          var i :| 0 <= i < n && p[i] == k;
          assert c[i] == x;
        }
      }
      forall i, k | 0 <= i < k < n ensures c[i] != c[k] {
        assert if p[i] < p[k] then d[p[i]] != d[p[k]] else d[p[k]] != d[p[i]];
      }
    }
  }

  /** Some order: the outcome of a random shuffle. */
  method SomeOrder(n: nat) returns (p: seq<nat>)
    ensures Order(p, n)
  {
    var start := seq(n, k => k);
    assert forall k :: 0 <= k < n ==> start[k] == k;
    p := start;
    var i := 0;
    while i < n
      invariant 0 <= i <= n && Order(p, n)
    {
      var j := Choose(i + 1);
      p := p[i := p[j]][j := p[i]];
      i := i + 1;
    }
  }

  method ShuffleTransposeShuffle(matrix: Square, ghost symbols: set<int>) returns (trans: Square)
    requires Latin(matrix, symbols)
    ensures Latin(trans, symbols)
  {
    var p := SomeOrder(|matrix|);
    PermutedLatin(matrix, p, symbols);
    var square := Permuted(matrix, p);
    TransposedLatin(square, symbols);
    trans := Transposed(square);
    var q := SomeOrder(|trans|);
    PermutedLatin(trans, q, symbols);
    trans := Permuted(trans, q);
  }

  // ----- the check -----

  predicate CheckRows(sq: Square) {
    sq == [] ||
    forall i :: 0 <= i < |sq| ==> |sq[i]| == |Elements(sq[i])| && Elements(sq[i]) == Elements(sq[0])
  }

  /** The check of the program, for squares. */
  predicate Check(sq: Square)
    requires forall i :: 0 <= i < |sq| ==> |sq[i]| == |sq|
  {
    CheckRows(sq) && CheckRows(Transposed(sq))
  }

  lemma {:induction false} PermutesCheck(s: seq<int>, symbols: set<int>)
    ensures Permutes(s, symbols) <==> |s| == |Elements(s)| && Elements(s) == symbols
  {
    DistinctSize(s);
    if Permutes(s, symbols) { assert Elements(s) == symbols; }
    if Elements(s) == symbols { assert forall x :: x in s <==> x in Elements(s); }
  }

  /** The check passes for exactly the Latin squares. */
  lemma {:induction false} CheckExact(sq: Square)
    requires Sized(sq) && sq != []
    ensures Check(sq) <==> exists symbols :: Latin(sq, symbols)
  {
    if Check(sq) { CheckedIsLatin(sq); }
    if some :| Latin(sq, some) { LatinIsChecked(sq, some); }
  }

  lemma {:induction false} CheckedIsLatin(sq: Square)
    requires Sized(sq) && sq != [] && Check(sq)
    ensures Latin(sq, Elements(sq[0]))
  {
    var t, symbols := Transposed(sq), Elements(sq[0]);
    SameElements(sq, t);
    forall i | 0 <= i < |sq| ensures Permutes(sq[i], symbols) && Permutes(Column(sq, i), symbols) {
      PermutesCheck(sq[i], symbols);
      PermutesCheck(t[i], symbols);
    }
  }

  lemma {:induction false} LatinIsChecked(sq: Square, symbols: set<int>)
    requires Latin(sq, symbols)
    ensures Check(sq)
  {
    var t := Transposed(sq);
    forall i | 0 <= i < |sq|
      ensures |sq[i]| == |Elements(sq[i])| && Elements(sq[i]) == symbols && |t[i]| == |Elements(t[i])| && Elements(t[i]) == symbols
    {
      PermutesCheck(sq[i], symbols);
      PermutesCheck(Column(sq, i), symbols);
    }
  }

  lemma {:induction false} SameElements(sq: Square, t: Square)
    requires Sized(sq) && sq != [] && t == Transposed(sq) && CheckRows(sq) && CheckRows(t)
    ensures Elements(t[0]) == Elements(sq[0])
  {
    forall x | x in t[0] ensures x in Elements(sq[0]) {
      var i :| 0 <= i < |sq| && t[0][i] == x;
      assert sq[i][0] == x && x in Elements(sq[i]);
    }
    forall x | x in sq[0] ensures x in Elements(t[0]) {
      var j :| 0 <= j < |sq| && sq[0][j] == x;
      assert t[j][0] == x && x in Elements(t[j]);
    }
  }

  /** The whole program: whatever the random choices are, the result is a Latin square
      on the first n numbers, and passes the check. */
  method Generate(n: int) returns (square: Square)
    ensures n <= 0 ==> square == []
    ensures n > 0 ==> |square| == n && Latin(square, FirstNumbers(n))
    ensures Sized(square) && Check(square)
  {
    if n <= 0 {
      return [];
    }
    var symbols := new Row(seq(n, k => k));
    forall x ensures x in symbols.items <==> 0 <= x < n {
      if 0 <= x < n { assert symbols.items[x] == x; }
    }
    ghost var names := FirstNumbers(n);
    var rows, f := Rls(symbols);
    CirculantLatin(Entries(rows), f);
    assert Elements(f) == names;
    hide Latin, Circulant, Sized, Check;
    square := ShuffleTransposeShuffle(Entries(rows), names);
    CheckExact(square);
  }
}
