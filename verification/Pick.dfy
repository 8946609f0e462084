/** Picking elements of an n-dimensional array by a matrix of coordinates, one row per element. */
module Pick {
  import opened MixedRadix
  import VecRef
  import Subscript

  /** A coordinate matrix: `rows` by `cols` one-based coordinates stored column-major; the
      data may be longer or shorter than its shape says. */
  datatype Matrix = Matrix(rows: nat, cols: nat, data: seq<int>)

  datatype Result<T> = Fail | Ok(values: seq<T>)

  lemma {:induction false} CellBound(i: nat, j: nat, rows: nat, cols: nat)
    requires i < rows && j < cols
    ensures 0 <= j * rows && i + j * rows < rows * cols
  {
    MulStep(rows, j, cols);
  }

  /** The checks made before any coordinate is looked at. */
  ghost predicate Fits(m: Matrix, shape: seq<nat>, length: nat) {
    m.cols == |shape| && m.rows * m.cols <= |m.data| && Product(shape) <= length
  }

  ghost function Cell(m: Matrix, i: nat, j: nat): int
    requires i < m.rows && j < m.cols && m.rows * m.cols <= |m.data|
  {
    CellBound(i, j, m.rows, m.cols);
    m.data[i + j * m.rows]
  }

  /** The coordinates are stored like any matrix. */
  lemma {:induction false} CellIsStored(m: Matrix, i: nat, j: nat)
    requires i < m.rows && j < m.cols && m.rows * m.cols <= |m.data|
    ensures Rank([i, j], [m.rows, m.cols]) < |m.data| && Cell(m, i, j) == m.data[Rank([i, j], [m.rows, m.cols])]
  {
    CellBound(i, j, m.rows, m.cols);
    ColumnMajor(i, j, m.rows, m.cols);
  }

  ghost predicate RowInRange(m: Matrix, shape: seq<nat>, length: nat, i: nat)
    requires i < m.rows && Fits(m, shape, length)
  {
    forall j :: 0 <= j < |shape| ==> 1 <= Cell(m, i, j) <= shape[j]
  }

  ghost predicate AllInRange(m: Matrix, shape: seq<nat>, length: nat)
    requires Fits(m, shape, length)
  {
    forall i :: 0 <= i < m.rows ==> RowInRange(m, shape, length, i)
  }

  /** Zero-based coordinates of row `i`. */
  ghost function Row(m: Matrix, shape: seq<nat>, length: nat, i: nat): (c: seq<nat>)
    requires i < m.rows && Fits(m, shape, length) && RowInRange(m, shape, length, i)
    ensures InRange(c, shape) && forall j :: 0 <= j < |shape| ==> c[j] == Cell(m, i, j) - 1
  {
    seq(|shape|, j requires 0 <= j < |shape| => Cell(m, i, j) - 1)
  }

  /** The zero-based positions a coordinate matrix names. */
  ghost predicate Names(m: Matrix, shape: seq<nat>, length: nat, offsets: seq<nat>)
    requires Fits(m, shape, length) && AllInRange(m, shape, length)
  {
    && |offsets| == m.rows
    && forall i :: 0 <= i < m.rows ==> offsets[i] == Rank(Row(m, shape, length, i), shape) && offsets[i] < length
  }

  method Factors(shape: seq<nat>) returns (factor: seq<nat>, total: nat)
    ensures Subscript.IsFactor(factor, shape) && |factor| == |shape| && total == Product(shape)
  {
    factor, total := [], 1;
    for i := 0 to |shape|
      invariant |factor| == i && Subscript.IsFactor(factor, shape) && total == Product(shape[..i])
    {
      ProductSnoc(shape, i);
      hide Product;
      factor := factor + [total];
      total := total * shape[i];
    }
    assert shape[..|shape|] == shape;
  }

  method RowOffset(m: Matrix, shape: seq<nat>, factor: seq<nat>, i: nat, ghost length: nat)
    returns (ok: bool, offset: nat)
    requires i < m.rows && Fits(m, shape, length)
    requires Subscript.IsFactor(factor, shape) && |factor| == |shape|
    ensures ok <==> RowInRange(m, shape, length, i)
    ensures ok ==> offset == Rank(Row(m, shape, length, i), shape) && offset < length
  {
    offset := 0;
    ghost var c: seq<nat> := [];
    assert Rank(c, shape[..0]) == 0;
    hide Rank, Product;
    for j := 0 to m.cols
      invariant |c| == j && InRange(c, shape[..j]) && offset == Rank(c, shape[..j])
      invariant forall k :: 0 <= k < j ==> 1 <= Cell(m, i, k) <= shape[k] && c[k] == Cell(m, i, k) - 1
    {
      CellBound(i, j, m.rows, m.cols);
      var cur := m.data[i + j * m.rows];
      assert cur == Cell(m, i, j);
      if cur < 1 || cur > shape[j] { return false, 0; }
      Subscript.ExtendRank(c, cur - 1, shape);
      offset := offset + factor[j] * (cur - 1);
      c := c + [cur - 1];
    }
    assert shape[..m.cols] == shape;
    ok := true;
    assert c == Row(m, shape, length, i);
    RankBound(c, shape);
  }

  /** The loop all three operators run over the coordinate rows. */
  method Locate(m: Matrix, shape: seq<nat>, length: nat) returns (ok: bool, offsets: seq<nat>)
    ensures ok <==> Fits(m, shape, length) && AllInRange(m, shape, length)
    ensures ok ==> Names(m, shape, length, offsets)
  {
    ok, offsets := false, [];
    var factor, total := Factors(shape);
    if m.cols != |shape| || |m.data| < m.rows * m.cols || length < total { return; }
    hide Rank, Product, Subscript.IsFactor, Cell;
    for i := 0 to m.rows
      invariant |offsets| == i
      invariant forall k :: 0 <= k < i ==>
                  && RowInRange(m, shape, length, k)
                  && offsets[k] == Rank(Row(m, shape, length, k), shape) && offsets[k] < length
    {
      var good, offset := RowOffset(m, shape, factor, i, length);
      if !good { return; }
      offsets := offsets + [offset];
    }
    ok := true;
  }

  /** `x[m]` */
  method PickValues<T>(data: seq<T>, shape: seq<nat>, m: Matrix) returns (r: Result<T>, ghost offsets: seq<nat>)
    ensures r.Ok? <==> Fits(m, shape, |data|) && AllInRange(m, shape, |data|)
    ensures r.Ok? ==> Names(m, shape, |data|, offsets)
    ensures r.Ok? ==> |r.values| == m.rows && forall i :: 0 <= i < m.rows ==> r.values[i] == data[offsets[i]]
  {
    hide Rank, Product, Cell, Fits;
    var ok, offs := Locate(m, shape, |data|);
    offsets := offs;
    if !ok { return Fail, offsets; }
    r := Ok(seq(|offs|, i requires 0 <= i < |offs| => data[offs[i]]));
  }

  /** `ref x[m]`: one-based positions. */
  method PickRef(length: nat, shape: seq<nat>, m: Matrix) returns (r: Result<int>, ghost offsets: seq<nat>)
    ensures r.Ok? <==> Fits(m, shape, length) && AllInRange(m, shape, length)
    ensures r.Ok? ==> Names(m, shape, length, offsets)
    ensures r.Ok? ==> |r.values| == m.rows && forall i :: 0 <= i < m.rows ==> r.values[i] == offsets[i] + 1
  {
    hide Rank, Product, Cell, Fits;
    var ok, offs := Locate(m, shape, length);
    offsets := offs;
    if !ok { return Fail, offsets; }
    r := Ok(seq(|offs|, i requires 0 <= i < |offs| => offs[i] + 1));
  }

  /** `x[m] := value`, in place; nothing is written unless every coordinate is in range. */
  method PickAssign<T>(a: array<T>, shape: seq<nat>, m: Matrix, value: seq<T>)
    returns (ok: bool, ghost offsets: seq<nat>)
    requires |value| == m.rows
    modifies a
    ensures ok <==> Fits(m, shape, a.Length) && AllInRange(m, shape, a.Length)
    ensures !ok ==> a[..] == old(a[..])
    ensures ok ==> Names(m, shape, a.Length, offsets) && Subscript.Within(Shifted(offsets), a.Length)
    ensures ok ==> a[..] == VecRef.Stored(old(a[..]), Shifted(offsets), value)
  {
    hide Rank, Product, Cell, Fits;
    var offs;
    ok, offs := Locate(m, shape, a.Length);
    offsets := offs;
    if !ok { return; }
    ghost var was, at := a[..], Shifted(offs);
    for i := 0 to m.rows
      invariant a[..] == VecRef.Stored(was, at[..i], value)
    {
      assert at[..i + 1][..i] == at[..i];
      a[offs[i]] := value[i];
    }
    assert at[..m.rows] == at;
  }

  // ----- what the operators promise together -----

  /** Distinct coordinate rows name distinct positions. */
  lemma {:induction false} DistinctRows(m: Matrix, shape: seq<nat>, length: nat, offsets: seq<nat>, i: nat, k: nat)
    requires Fits(m, shape, length) && AllInRange(m, shape, length) && Names(m, shape, length, offsets)
    requires i < m.rows && k < m.rows
    ensures offsets[i] == offsets[k] <==> Row(m, shape, length, i) == Row(m, shape, length, k)
  {
    hide Rank, Product, Cell;
    var c, d := Row(m, shape, length, i), Row(m, shape, length, k);
    if offsets[i] == offsets[k] {
      RankInjective(c, d, shape);
    }
  }

  /** All three operators agree on the positions. */
  lemma {:induction false} SamePositions(m: Matrix, shape: seq<nat>, length: nat, o: seq<nat>, p: seq<nat>)
    requires Fits(m, shape, length) && AllInRange(m, shape, length)
    requires Names(m, shape, length, o) && Names(m, shape, length, p)
    ensures o == p
  {
    hide Rank, Product, Cell;
    forall i | 0 <= i < m.rows ensures o[i] == p[i] {}
  }

  /** The one-based positions of `offsets`. */
  ghost function Shifted(offsets: seq<nat>): (at: seq<int>)
    ensures |at| == |offsets| && forall i :: 0 <= i < |at| ==> at[i] == offsets[i] + 1
  {
    seq(|offsets|, i requires 0 <= i < |offsets| => offsets[i] + 1)
  }

  /** Every position no row names is unchanged by a pick-assignment. */
  lemma {:induction false} AssignElsewhere<T>(before: seq<T>, offsets: seq<nat>, value: seq<T>, p: nat)
    requires |value| == |offsets| && p < |before| && p !in offsets && Subscript.Within(Shifted(offsets), |before|)
    ensures VecRef.Stored(before, Shifted(offsets), value)[p] == before[p]
  {
    var at := Shifted(offsets);
    forall i | 0 <= i < |at| ensures at[i] != p + 1 { assert offsets[i] in offsets; }
    VecRef.StoredElsewhere(before, at, value, p + 1);
  }

  ghost predicate EqualRowsEqualValues<T>(m: Matrix, shape: seq<nat>, length: nat, value: seq<T>)
    requires Fits(m, shape, length) && AllInRange(m, shape, length) && |value| == m.rows
  {
    forall i, k :: 0 <= i < k < m.rows && Row(m, shape, length, i) == Row(m, shape, length, k) ==> value[i] == value[k]
  }

  lemma {:induction false} RowsConsistent<T>(m: Matrix, shape: seq<nat>, length: nat, value: seq<T>, offsets: seq<nat>)
    requires Fits(m, shape, length) && AllInRange(m, shape, length) && Names(m, shape, length, offsets)
    requires |value| == m.rows
    ensures VecRef.Consistent(Shifted(offsets), value) <==> EqualRowsEqualValues(m, shape, length, value)
  {
    hide Rank, Product, Cell, Fits, Row;
    forall i, k | 0 <= i < k < m.rows
      ensures Shifted(offsets)[i] == Shifted(offsets)[k] <==> Row(m, shape, length, i) == Row(m, shape, length, k)
    {
      DistinctRows(m, shape, length, offsets, i, k);
    }
  }

  /** Picking after a pick-assignment returns the assigned values exactly when equal rows were
      given equal values; in particular whenever the rows are distinct. */
  lemma {:induction false} PickAfterAssign<T>(before: seq<T>, shape: seq<nat>, m: Matrix, value: seq<T>,
                                              offsets: seq<nat>)
    requires Fits(m, shape, |before|) && AllInRange(m, shape, |before|) && Names(m, shape, |before|, offsets)
    requires |value| == m.rows && Subscript.Within(Shifted(offsets), |before|)
    ensures (forall i :: 0 <= i < m.rows ==> VecRef.Stored(before, Shifted(offsets), value)[offsets[i]] == value[i])
            <==> EqualRowsEqualValues(m, shape, |before|, value)
  {
    RowsConsistent(m, shape, |before|, value, offsets);
    hide VecRef.Stored, VecRef.Consistent, EqualRowsEqualValues, Fits, AllInRange, Rank;
    VecRef.ReadBack(before, Shifted(offsets), value);
    var s := VecRef.Stored(before, Shifted(offsets), value);
    assert forall i :: 0 <= i < m.rows ==> s[offsets[i]] == s[Shifted(offsets)[i] - 1];
  }
}
