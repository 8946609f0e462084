/** `cbind` and `rbind`: joining vectors and matrices by column or by row. */
module Bind {
  import opened Common
  import opened MixedRadix

  /** An argument: no more than one dimension, a matrix stored column-major, or an array of
      higher dimension. */
  datatype Arg<T> = Vec(data: seq<T>) | Mat(nr: nat, nc: nat, data: seq<T>) | Deep

  // ----- measuring the arguments -----

  /** The extent that all arguments must share: rows for `cbind`, columns for `rbind`. */
  function Shared<T>(a: Arg<T>, byCol: bool): nat
    requires a.Mat?
  {
    if byCol then a.nr else a.nc
  }

  /** The extent that adds up: columns for `cbind`, rows for `rbind`. */
  function Width<T>(a: Arg<T>, byCol: bool): nat {
    match a
    case Mat(nr, nc, _) => if byCol then nc else nr
    case _ => 1
  }

  function TotalWidth<T>(args: seq<Arg<T>>, byCol: bool): nat {
    if args == [] then 0 else Width(args[0], byCol) + TotalWidth(args[1..], byCol)
  }

  /** The argument can fill its part of a result whose shared extent is `rows`. */
  ghost predicate Supplies<T>(a: Arg<T>, rows: nat, byCol: bool) {
    match a
    case Vec(d) => rows <= |d|
    case Mat(nr, nc, d) => Shared(a, byCol) == rows && nr * nc <= |d|
    case Deep => false
  }

  ghost predicate AllSupply<T>(args: seq<Arg<T>>, rows: nat, byCol: bool) {
    forall i :: 0 <= i < |args| ==> Supplies(args[i], rows, byCol)
  }

  /** The extent the arguments agree on: that of the matrices, else of the shortest vector. */
  ghost predicate Agree<T>(args: seq<Arg<T>>, rows: nat, byCol: bool) {
    && (forall i :: 0 <= i < |args| ==> !args[i].Deep?)
    && (forall i :: 0 <= i < |args| && args[i].Mat? ==> Shared(args[i], byCol) == rows)
    && ((forall i :: 0 <= i < |args| ==> args[i].Vec?) ==>
          (exists i :: 0 <= i < |args| && |args[i].data| == rows) && LongEnough(args, rows))
  }

  ghost predicate LongEnough<T>(args: seq<Arg<T>>, rows: nat) {
    forall i :: 0 <= i < |args| && args[i].Vec? ==> rows <= |args[i].data|
  }

  /** The only matrix is the last argument: the case the measuring pass does not re-check. */
  ghost predicate MatrixOnlyAtEnd<T>(args: seq<Arg<T>>) {
    args != [] && args[|args| - 1].Mat? && forall i :: 0 <= i < |args| - 1 ==> args[i].Vec?
  }

  datatype Measured = Mismatch | Extents(rows: nat, cols: nat)

  /** The arguments the measuring pass accepts. */
  ghost predicate Acceptable<T>(args: seq<Arg<T>>, rows: nat, byCol: bool) {
    |args| >= 2 && Agree(args, rows, byCol) && (LongEnough(args, rows) || MatrixOnlyAtEnd(args))
  }

  /** After `i` arguments: the shared extent of the matrices, the first of which is `first`. */
  ghost predicate RowsSeen<T>(args: seq<Arg<T>>, byCol: bool, i: nat, rows: int, first: nat) {
    && i <= |args| && rows >= -1
    && (forall k :: 0 <= k < i ==> !args[k].Deep?)
    && (forall k :: 0 <= k < i && args[k].Mat? ==> rows == Shared(args[k], byCol))
    && (if rows < 0 then forall k :: 0 <= k < i ==> args[k].Vec?
        else first < i && args[first].Mat? && forall k :: 0 <= k < first ==> args[k].Vec?)
  }

  /** After `i` arguments: the length of the shortest vector. */
  ghost predicate MinSeen<T>(args: seq<Arg<T>>, i: nat, minrows: int) {
    && i <= |args| && minrows >= -1
    && (forall k :: 0 <= k < i && args[k].Vec? ==> 0 <= minrows <= |args[k].data|)
    && (minrows >= 0 ==> exists k :: 0 <= k < i && args[k].Vec? && minrows == |args[k].data|)
  }

  lemma {:induction false} RowsNext<T>(args: seq<Arg<T>>, byCol: bool, i: nat, rows: int, first: nat)
    requires i < |args| && RowsSeen(args, byCol, i, rows, first) && !args[i].Deep?
    ensures args[i].Vec? ==> RowsSeen(args, byCol, i + 1, rows, first)
    ensures args[i].Mat? && rows == Shared(args[i], byCol) ==> RowsSeen(args, byCol, i + 1, rows, first)
    ensures args[i].Mat? && rows < 0 ==> RowsSeen(args, byCol, i + 1, Shared(args[i], byCol), i)
    ensures rows >= 0 ==> first < i
  {
  }

  lemma {:induction false} MinNext<T>(args: seq<Arg<T>>, i: nat, minrows: int)
    requires i < |args| && MinSeen(args, i, minrows)
    ensures args[i].Mat? ==> MinSeen(args, i + 1, minrows)
    ensures args[i].Vec? ==>
              MinSeen(args, i + 1, if minrows < 0 || minrows > |args[i].data| then |args[i].data| else minrows)
  {
    if minrows >= 0 {
      var k :| 0 <= k < i && args[k].Vec? && minrows == |args[k].data|;
      assert k < i + 1;
    }
    if args[i].Vec? && (minrows < 0 || minrows > |args[i].data|) {
      assert i < i + 1 && args[i].Vec?;
    }
  }

  lemma {:induction false} MeasureRejects<T>(args: seq<Arg<T>>, byCol: bool, i: nat, rows: int, first: nat,
                                             minrows: int)
    requires i < |args| && RowsSeen(args, byCol, i, rows, first)
    requires args[i].Deep? || (rows >= 0 && args[i].Mat? && Shared(args[i], byCol) != rows)
             || (rows >= 0 && MinSeen(args, i + 1, minrows) && 0 <= minrows < rows)
    ensures forall r :: !Acceptable(args, r, byCol)
  {
    forall r ensures !Acceptable(args, r, byCol) {
    }
  }

  lemma {:induction false} MeasureAccepts<T>(args: seq<Arg<T>>, byCol: bool, rows: int, first: nat, minrows: int)
    requires |args| >= 2 && RowsSeen(args, byCol, |args|, rows, first) && MinSeen(args, |args|, minrows)
    requires rows >= 0 && first + 1 < |args| && minrows >= 0 ==> rows <= minrows
    ensures var r := if rows < 0 then minrows else rows; r >= 0 && Acceptable(args, r, byCol)
  {
    if rows < 0 {
      assert args[0].Vec?;
    }
  }

  /** The measuring pass. A vector that is too short is caught unless the only matrix comes
      last. */
  method Measure<T>(args: seq<Arg<T>>, byCol: bool) returns (m: Measured)
    ensures m.Extents? ==> Acceptable(args, m.rows, byCol) && m.cols == TotalWidth(args, byCol)
    ensures m.Mismatch? ==> forall rows :: !Acceptable(args, rows, byCol)
  {
    if |args| < 2 { return Mismatch; }
    var rows, minrows, cols := -1, -1, 0;
    ghost var first := 0;
    assert RowsSeen(args, byCol, 0, rows, first) && MinSeen(args, 0, minrows);
    hide Acceptable, RowsSeen, MinSeen, Shared;
    for i := 0 to |args|
      invariant cols + TotalWidth(args[i..], byCol) == TotalWidth(args, byCol)
      invariant RowsSeen(args, byCol, i, rows, first) && MinSeen(args, i, minrows)
      invariant rows >= 0 && first + 1 < i && minrows >= 0 ==> rows <= minrows
    {
      var a := args[i];
      assert args[i..][1..] == args[i + 1..];
      if a.Deep? {
        MeasureRejects(args, byCol, i, rows, first, minrows);
        return Mismatch;
      }
      RowsNext(args, byCol, i, rows, first);
      MinNext(args, i, minrows);
      if a.Mat? {
        if rows >= 0 {
          if Shared(a, byCol) != rows || (minrows >= 0 && minrows < rows) {
            MeasureRejects(args, byCol, i, rows, first, minrows);
            return Mismatch;
          }
        } else {
          rows, first := Shared(a, byCol), i;
        }
      } else {
        if minrows < 0 || minrows > |a.data| { minrows := |a.data|; }
        if rows >= 0 && minrows < rows {
          MeasureRejects(args, byCol, i, rows, first, minrows);
          return Mismatch;
        }
      }
      cols := cols + Width(a, byCol);
    }
    MeasureAccepts(args, byCol, rows, first, minrows);
    m := Extents(if rows < 0 then minrows else rows, cols);
  }

  /** Acceptance guarantees that no vector is too short exactly when some other argument
      follows the first matrix, or none is too short to begin with. */
  lemma {:induction false} AcceptanceCoversVectors<T>(args: seq<Arg<T>>, rows: nat, byCol: bool)
    requires Acceptable(args, rows, byCol)
    ensures LongEnough(args, rows) <==>
              !(MatrixOnlyAtEnd(args) &&
                exists i :: 0 <= i < |args| - 1 && |args[i].data| < Shared(args[|args| - 1], byCol))
  {
    if MatrixOnlyAtEnd(args) {
      assert Shared(args[|args| - 1], byCol) == rows;
    }
  }

  /** Such arguments exist: a one-element vector before a matrix with two rows. */
  lemma {:induction false} ShortVectorAccepted(x: int)
    ensures var args := [Vec([x]), Mat(2, 1, [x, x])];
            Acceptable(args, 2, true) && !LongEnough(args, 2)
  {
    var args := [Vec([x]), Mat(2, 1, [x, x])];
    assert args[0].Vec? && |args[0].data| == 1;
    assert args[1].Mat? && Shared(args[1], true) == 2 && |args| == 2;
    assert Agree(args, 2, true) && MatrixOnlyAtEnd(args);
  }

  // ----- the block matrix -----

  lemma {:induction false} CellIn(i: nat, w: nat, n: nat, m: nat)
    requires i < n && w < m
    ensures 0 <= w * n && i + w * n < m * n
  {
    MulStep(n, w, m);
  }

  /** Row `r`, column `c` of a column-major matrix with `nr` rows and `nc` columns. */
  ghost function Elem<T>(d: seq<T>, nr: nat, nc: nat, r: nat, c: nat): T
    requires nr * nc <= |d| && r < nr && c < nc
  {
    CellIn(r, c, nr, nc);
    d[r + c * nr]
  }

  /** Which is the order of all arrays. */
  lemma {:induction false} ElemIsStored<T>(d: seq<T>, nr: nat, nc: nat, r: nat, c: nat)
    requires nr * nc <= |d| && r < nr && c < nc
    ensures Rank([r, c], [nr, nc]) < |d| && Elem(d, nr, nc, r, c) == d[Rank([r, c], [nr, nc])]
  {
    CellIn(r, c, nr, nc);
    ColumnMajor(r, c, nr, nc);
  }

  /** Element of an argument at shared index `i` and index `w` along the joined dimension. */
  ghost function At<T>(a: Arg<T>, rows: nat, byCol: bool, i: nat, w: nat): T
    requires Supplies(a, rows, byCol) && i < rows && w < Width(a, byCol)
  {
    match a
    case Vec(d) => d[i]
    case Mat(nr, nc, d) => if byCol then Elem(d, nr, nc, i, w) else Elem(d, nr, nc, w, i)
  }

  /** Element of the joined matrix: the argument blocks laid side by side. */
  ghost function Block<T>(args: seq<Arg<T>>, rows: nat, byCol: bool, i: nat, w: nat): T
    requires AllSupply(args, rows, byCol) && i < rows && w < TotalWidth(args, byCol)
  {
    assert Supplies(args[0], rows, byCol);
    if w < Width(args[0], byCol) then At(args[0], rows, byCol, i, w)
    else Block(args[1..], rows, byCol, i, w - Width(args[0], byCol))
  }

  ghost predicate IsTranspose<T>(a: Arg<T>, t: Arg<T>) {
    match a
    case Mat(nr, nc, d) =>
      && t.Mat? && t.nr == nc && t.nc == nr && nr * nc <= |d| && nr * nc <= |t.data|
      && forall r, c :: 0 <= r < nr && 0 <= c < nc ==> Elem(t.data, nc, nr, c, r) == Elem(d, nr, nc, r, c)
    case _ => t == a
  }

  /** Joining by row is joining the transposed arguments by column, turned on its side. */
  lemma {:induction false} RowsAreTransposedColumns<T>(args: seq<Arg<T>>, turned: seq<Arg<T>>, rows: nat)
    requires |turned| == |args| && AllSupply(args, rows, false)
    requires forall k :: 0 <= k < |args| ==> IsTranspose(args[k], turned[k])
    ensures AllSupply(turned, rows, true) && TotalWidth(turned, true) == TotalWidth(args, false)
    ensures forall i, w :: 0 <= i < rows && 0 <= w < TotalWidth(args, false) ==>
              Block(turned, rows, true, i, w) == Block(args, rows, false, i, w)
  {
    forall k | 0 <= k < |args| ensures Supplies(turned[k], rows, true) {
      assert Supplies(args[k], rows, false) && IsTranspose(args[k], turned[k]);
    }
    if args != [] {
      RowsAreTransposedColumns(args[1..], turned[1..], rows);
      assert IsTranspose(args[0], turned[0]) && Supplies(args[0], rows, false) && Supplies(turned[0], rows, true);
      forall i, w | 0 <= i < rows && 0 <= w < Width(args[0], false)
        ensures At(turned[0], rows, true, i, w) == At(args[0], rows, false, i, w)
      {
        AtTransposed(args[0], turned[0], rows, i, w);
      }
      hide IsTranspose, At, Supplies;
    }
  }

  lemma {:induction false} AtTransposed<T>(a: Arg<T>, t: Arg<T>, rows: nat, i: nat, w: nat)
    requires IsTranspose(a, t) && Supplies(a, rows, false) && Supplies(t, rows, true)
    requires i < rows && w < Width(a, false)
    ensures Width(t, true) == Width(a, false) && At(t, rows, true, i, w) == At(a, rows, false, i, w)
  {
  }

  // ----- filling the result -----

  /** Result buffer cell for shared index `i` and joined index `w`: column-major with `rows`
      rows for `cbind`, with `cols` rows for `rbind`. */
  ghost function Cell<T>(buf: seq<Option<T>>, rows: nat, cols: nat, byCol: bool, i: nat, w: nat): Option<T>
    requires |buf| == rows * cols && i < rows && w < cols
  {
    if byCol then CellIn(i, w, rows, cols); buf[i + w * rows] else CellIn(w, i, cols, rows); buf[w + i * cols]
  }

  function Offset(rows: nat, cols: nat, byCol: bool, i: nat, w: nat): nat {
    if byCol then i + w * rows else w + i * cols
  }

  lemma {:induction false} OffsetIn(rows: nat, cols: nat, byCol: bool, i: nat, w: nat)
    requires i < rows && w < cols
    ensures Offset(rows, cols, byCol, i, w) < rows * cols
  {
    CellIn(i, w, rows, cols);
    CellIn(w, i, cols, rows);
  }

  lemma {:induction false} OffsetInjective(rows: nat, cols: nat, byCol: bool, i: nat, w: nat, i': nat, w': nat)
    requires i < rows && w < cols && i' < rows && w' < cols
    requires Offset(rows, cols, byCol, i, w) == Offset(rows, cols, byCol, i', w')
    ensures i == i' && w == w'
  {
    if byCol {
      if w < w' { MulStep(rows, w, w'); } else if w' < w { MulStep(rows, w', w); }
    } else {
      if i < i' { MulStep(cols, i, i'); } else if i' < i { MulStep(cols, i', i); }
    }
  }

  /** Stores one element into a cell that has not been written before. */
  method Place<T>(buf: array<Option<T>>, off: int, x: T)
    requires 0 <= off < buf.Length && buf[off].None?
    modifies buf
    ensures buf[..] == old(buf[..])[off := Some(x)]
  {
    buf[off] := Some(x);
  }

  lemma {:induction false} PlaceCell<T>(s: seq<Option<T>>, rows: nat, cols: nat, byCol: bool, i: nat, w: nat, x: T)
    requires |s| == rows * cols && i < rows && w < cols
    ensures Offset(rows, cols, byCol, i, w) < |s|
    ensures s[Offset(rows, cols, byCol, i, w)] == Cell(s, rows, cols, byCol, i, w)
    ensures var t := s[Offset(rows, cols, byCol, i, w) := Some(x)];
            forall i', w' :: 0 <= i' < rows && 0 <= w' < cols ==>
              Cell(t, rows, cols, byCol, i', w') ==
              if i' == i && w' == w then Some(x) else Cell(s, rows, cols, byCol, i', w')
  {
    OffsetIn(rows, cols, byCol, i, w);
    var t := s[Offset(rows, cols, byCol, i, w) := Some(x)];
    forall i', w' | 0 <= i' < rows && 0 <= w' < cols
      ensures Cell(t, rows, cols, byCol, i', w') ==
              if i' == i && w' == w then Some(x) else Cell(s, rows, cols, byCol, i', w')
    {
      OffsetIn(rows, cols, byCol, i', w');
      if i' != i || w' != w {
        if Offset(rows, cols, byCol, i, w) == Offset(rows, cols, byCol, i', w') {
          OffsetInjective(rows, cols, byCol, i, w, i', w');
        }
      }
    }
  }

  // ----- cbind -----

  /** Cells `[offset, off)` of `buf` hold the first elements of `d`, later ones are free, and
      earlier ones are as they were. */
  ghost predicate Copied<T>(was: seq<Option<T>>, buf: seq<Option<T>>, d: seq<T>, offset: nat, off: nat) {
    && |was| == |buf| && offset <= off <= |buf| && off - offset <= |d|
    && (forall p :: 0 <= p < offset ==> buf[p] == was[p])
    && (forall p :: offset <= p < off ==> buf[p] == Some(d[p - offset]))
    && (forall p :: off <= p < |buf| ==> buf[p].None?)
  }

  /** The innermost loop: `n` consecutive elements into consecutive cells. */
  method CopyRun<T>(buf: array<Option<T>>, d: seq<T>, offset: nat, vecoff: nat, n: nat, ghost was: seq<Option<T>>)
    requires offset + vecoff + n <= buf.Length && vecoff + n <= |d|
    requires Copied(was, buf[..], d, offset, offset + vecoff)
    modifies buf
    ensures Copied(was, buf[..], d, offset, offset + vecoff + n)
  {
    for j := 0 to n
      invariant Copied(was, buf[..], d, offset, offset + vecoff + j)
    {
      assert buf[..][offset + vecoff + j].None?;
      Place(buf, offset + vecoff + j, d[vecoff + j]);
    }
  }

  /** Copies a matrix of `w` columns: `rows` times `w` elements. */
  method CopyMatrix<T>(buf: array<Option<T>>, offset: nat, d: seq<T>, w: nat, rows: nat, ghost total: nat,
                       ghost was: seq<Option<T>>)
    returns (off: nat)
    requires total == rows * w <= |d| && offset + total <= buf.Length && Copied(was, buf[..], d, offset, offset)
    modifies buf
    ensures off == offset + total && Copied(was, buf[..], d, offset, off)
  {
    hide Copied;
    var vecoff := 0;
    for i := 0 to rows
      invariant vecoff + (rows - i) * w == total
      invariant Copied(was, buf[..], d, offset, offset + vecoff)
    {
      OneLess(rows - i, w);
      CopyRun(buf, d, offset, vecoff, w, was);
      vecoff := vecoff + w;
    }
    off := offset + vecoff;
  }

  lemma {:induction false} OneLess(n: nat, w: nat)
    requires n > 0
    ensures n * w == (n - 1) * w + w && (n - 1) * w >= 0
  {
  }

  /** Copies one argument to the next free cells. */
  method CopyColumns<T>(buf: array<Option<T>>, offset: nat, a: Arg<T>, rows: nat) returns (off: nat)
    requires Supplies(a, rows, true) && offset + rows * Width(a, true) <= buf.Length
    requires Copied(buf[..], buf[..], a.data, offset, offset)
    modifies buf
    ensures off == offset + rows * Width(a, true)
    ensures Copied(old(buf[..]), buf[..], a.data, offset, off)
  {
    hide Copied;
    ghost var was := buf[..];
    if a.Mat? {
      off := CopyMatrix(buf, offset, a.data, a.nc, rows, rows * a.nc, was);
    } else {
      CopyRun(buf, a.data, offset, 0, rows, was);
      off := offset + rows;
    }
  }

  lemma {:induction false} TotalWidthSnoc<T>(args: seq<Arg<T>>, byCol: bool, x: nat)
    requires x < |args|
    ensures TotalWidth(args[..x + 1], byCol) == TotalWidth(args[..x], byCol) + Width(args[x], byCol)
    ensures TotalWidth(args[..x + 1], byCol) <= TotalWidth(args, byCol)
  {
    if x == 0 {
      assert args[..1] == [args[0]];
    } else {
      TotalWidthSnoc(args[1..], byCol, x - 1);
      assert args[..x + 1][1..] == args[1..][..x] && args[..x][1..] == args[1..][..x - 1];
    }
  }

  /** The block that argument `x` contributes. */
  lemma {:induction false} BlockAt<T>(args: seq<Arg<T>>, rows: nat, byCol: bool, x: nat, i: nat, w: nat)
    requires AllSupply(args, rows, byCol) && x < |args| && i < rows
    requires TotalWidth(args[..x], byCol) <= w < TotalWidth(args[..x], byCol) + Width(args[x], byCol)
    ensures w < TotalWidth(args, byCol)
    ensures Block(args, rows, byCol, i, w) == At(args[x], rows, byCol, i, w - TotalWidth(args[..x], byCol))
  {
    TotalWidthSnoc(args, byCol, x);
    if x > 0 {
      assert args[..x][1..] == args[1..][..x - 1];
      BlockAt(args[1..], rows, byCol, x - 1, i, w - Width(args[0], byCol));
    }
  }

  /** Every cell whose joined index is below `w` holds its element of the block matrix. */
  ghost predicate Filled<T>(buf: seq<Option<T>>, args: seq<Arg<T>>, rows: nat, cols: nat, byCol: bool, w: nat) {
    && AllSupply(args, rows, byCol) && |buf| == rows * cols && w <= cols == TotalWidth(args, byCol)
    && forall i, v :: 0 <= i < rows && 0 <= v < w ==>
         Cell(buf, rows, cols, byCol, i, v) == Some(Block(args, rows, byCol, i, v))
  }

  lemma {:induction false} FlatAt<T>(a: Arg<T>, rows: nat, i: nat, w: nat, w0: nat)
    requires Supplies(a, rows, true) && i < rows && w0 <= w < w0 + Width(a, true)
    ensures var p := i + w * rows - w0 * rows;
            0 <= p < rows * Width(a, true) && p < |a.data| && At(a, rows, true, i, w - w0) == a.data[p]
  {
    assert (w - w0) * rows == w * rows - w0 * rows;
    CellIn(i, w - w0, rows, Width(a, true));
  }

  lemma {:induction false} ColumnsFilled<T>(was: seq<Option<T>>, now: seq<Option<T>>, args: seq<Arg<T>>, rows: nat,
                                            cols: nat, x: nat)
    requires x < |args| && Supplies(args[x], rows, true)
    requires Filled(was, args, rows, cols, true, TotalWidth(args[..x], true))
    requires var o := TotalWidth(args[..x], true) * rows;
             Copied(was, now, args[x].data, o, o + rows * Width(args[x], true))
    ensures Filled(now, args, rows, cols, true, TotalWidth(args[..x + 1], true))
  {
    var w0 := TotalWidth(args[..x], true);
    TotalWidthSnoc(args, true, x);
    hide Block, TotalWidth, At;
    forall i, v | 0 <= i < rows && 0 <= v < TotalWidth(args[..x + 1], true)
      ensures Cell(now, rows, cols, true, i, v) == Some(Block(args, rows, true, i, v))
    {
      CellIn(i, v, rows, cols);
      if v < w0 {
        CellIn(i, v, rows, w0);
        assert Cell(was, rows, cols, true, i, v) == was[i + v * rows];
      } else {
        BlockAt(args, rows, true, x, i, v);
        FlatAt(args[x], rows, i, v, w0);
      }
    }
  }

  lemma {:induction false} NothingFilled<T>(buf: seq<Option<T>>, args: seq<Arg<T>>, rows: nat, cols: nat, byCol: bool)
    requires AllSupply(args, rows, byCol) && |buf| == rows * cols && cols == TotalWidth(args, byCol)
    ensures TotalWidth(args[..0], byCol) == 0 && Filled(buf, args, rows, cols, byCol, 0)
  {
  }

  lemma {:induction false} SuppliesAt<T>(args: seq<Arg<T>>, rows: nat, byCol: bool, x: nat)
    requires AllSupply(args, rows, byCol) && x < |args|
    ensures Supplies(args[x], rows, byCol) && !args[x].Deep?
  {
  }

  lemma {:induction false} NothingCopied<T>(buf: seq<Option<T>>, d: seq<T>, off: nat)
    requires off <= |buf| && forall p :: off <= p < |buf| ==> buf[p].None?
    ensures Copied(buf, buf, d, off, off)
  {
  }

  lemma {:induction false} RestFree<T>(was: seq<Option<T>>, buf: seq<Option<T>>, d: seq<T>, offset: nat, off: nat)
    requires Copied(was, buf, d, offset, off)
    ensures forall p :: off <= p < |buf| ==> buf[p].None?
  {
  }

  /** The first `x` arguments fill the cells below `off`; the others are free. */
  ghost predicate ColumnsUpto<T>(buf: seq<Option<T>>, args: seq<Arg<T>>, rows: nat, cols: nat, x: nat, off: nat) {
    && x <= |args| && off == TotalWidth(args[..x], true) * rows && |buf| == rows * cols
    && Filled(buf, args, rows, cols, true, TotalWidth(args[..x], true))
    && forall p :: off <= p < |buf| ==> buf[p].None?
  }

  lemma {:induction false} ColumnsMore<T>(was: seq<Option<T>>, now: seq<Option<T>>, args: seq<Arg<T>>, rows: nat,
                                          cols: nat, x: nat, off: nat, next: nat)
    requires x < |args| && cols == TotalWidth(args, true) && Supplies(args[x], rows, true) && !args[x].Deep?
    requires ColumnsUpto(was, args, rows, cols, x, off) && next == off + rows * Width(args[x], true)
    requires Copied(was, now, args[x].data, off, next)
    ensures ColumnsUpto(now, args, rows, cols, x + 1, next)
  {
    hide Filled, TotalWidth, Supplies, Copied, Width;
    ColumnsFit(args, rows, cols, x);
    ColumnsFilled(was, now, args, rows, cols, x);
    RestFree(was, now, args[x].data, off, next);
    FilledSize(now, args, rows, cols, TotalWidth(args[..x + 1], true));
  }

  lemma {:induction false} FilledSize<T>(buf: seq<Option<T>>, args: seq<Arg<T>>, rows: nat, cols: nat, w: nat)
    requires Filled(buf, args, rows, cols, true, w)
    ensures |buf| == rows * cols
  {
  }

  method JoinColumns<T>(buf: array<Option<T>>, off: nat, args: seq<Arg<T>>, rows: nat, cols: nat, x: nat)
    returns (next: nat)
    requires x < |args| && cols == TotalWidth(args, true) && AllSupply(args, rows, true)
    requires ColumnsUpto(buf[..], args, rows, cols, x, off)
    modifies buf
    ensures ColumnsUpto(buf[..], args, rows, cols, x + 1, next)
  {
    ghost var was := buf[..];
    SuppliesAt(args, rows, true, x);
    ColumnsFit(args, rows, cols, x);
    NothingCopied(was, args[x].data, off);
    hide Filled, TotalWidth, AllSupply, Supplies, Copied, Width;
    next := CopyColumns(buf, off, args[x], rows);
    ColumnsMore(was, buf[..], args, rows, cols, x, off, next);
  }

  /** `cbind`: the result is the block matrix of the arguments, each cell written once. */
  method Cbind<T>(args: seq<Arg<T>>, rows: nat, cols: nat) returns (buf: array<Option<T>>)
    requires AllSupply(args, rows, true) && cols == TotalWidth(args, true)
    ensures fresh(buf) && Filled(buf[..], args, rows, cols, true, cols)
  {
    buf := new Option<T>[rows * cols](_ => None);
    var off := 0;
    NothingFilled(buf[..], args, rows, cols, true);
    hide Filled, TotalWidth, AllSupply;
    for x := 0 to |args|
      invariant ColumnsUpto(buf[..], args, rows, cols, x, off)
    {
      off := JoinColumns(buf, off, args, rows, cols, x);
    }
    assert args[..|args|] == args;
  }

  lemma {:induction false} ColumnsFit<T>(args: seq<Arg<T>>, rows: nat, cols: nat, x: nat)
    requires x < |args| && cols == TotalWidth(args, true)
    ensures var w0, w := TotalWidth(args[..x], true), Width(args[x], true);
            w0 * rows + rows * w == TotalWidth(args[..x + 1], true) * rows <= rows * cols
  {
    TotalWidthSnoc(args, true, x);
    Area(rows, TotalWidth(args[..x], true), Width(args[x], true), cols);
    hide TotalWidth, Width;
  }

  lemma {:induction false} Area(rows: nat, w0: nat, w: nat, cols: nat)
    requires w0 + w <= cols
    ensures w0 * rows + rows * w == (w0 + w) * rows <= rows * cols
  {
    Distribute(rows, w0, w);
    Distribute(rows, w0 + w, cols - w0 - w);
  }

  // ----- rbind -----

  ghost predicate RowsDone<T>(was: seq<Option<T>>, now: seq<Option<T>>, a: Arg<T>, rows: nat, cols: nat,
                              w0: nat, i: nat, j: nat)
    requires Supplies(a, rows, false)
  {
    && |was| == |now| == rows * cols && w0 + Width(a, false) <= cols
    && forall k, v :: 0 <= k < rows && 0 <= v < cols ==>
         Cell(now, rows, cols, false, k, v) ==
         if w0 <= v < w0 + Width(a, false) && (k < i || (k == i && v < w0 + j))
         then Some(At(a, rows, false, k, v - w0)) else Cell(was, rows, cols, false, k, v)
  }

  lemma {:induction false} RowsStep<T>(was: seq<Option<T>>, now: seq<Option<T>>, a: Arg<T>, rows: nat, cols: nat,
                    w0: nat, i: nat, j: nat)
    requires Supplies(a, rows, false) && RowsDone(was, now, a, rows, cols, w0, i, j)
    requires i < rows && j < Width(a, false)
    ensures var off := Offset(rows, cols, false, i, w0 + j);
            off < |now| && now[off] == Cell(was, rows, cols, false, i, w0 + j) &&
            RowsDone(was, now[off := Some(At(a, rows, false, i, j))], a, rows, cols, w0, i, j + 1)
  {
    PlaceCell(now, rows, cols, false, i, w0 + j, At(a, rows, false, i, j));
    hide At, Cell, Offset;
  }

  /** Cells at or beyond joined index `w` are still free. */
  ghost predicate Free<T>(buf: seq<Option<T>>, rows: nat, cols: nat, w: nat) {
    |buf| == rows * cols &&
    forall i, v :: 0 <= i < rows && w <= v < cols ==> Cell(buf, rows, cols, false, i, v).None?
  }

  /** The innermost loop: the part of one argument that falls in result column `i`. */
  method CopyDown<T>(buf: array<Option<T>>, off: nat, a: Arg<T>, vecoff: nat, rows: nat, cols: nat,
                     ghost w0: nat, ghost i: nat, ghost was: seq<Option<T>>)
    requires Supplies(a, rows, false) && i < rows && buf.Length == rows * cols
    requires off == Offset(rows, cols, false, i, w0) && vecoff == i * Width(a, false)
    requires RowsDone(was, buf[..], a, rows, cols, w0, i, 0)
    requires forall v :: w0 <= v < w0 + Width(a, false) ==> Cell(was, rows, cols, false, i, v).None?
    modifies buf
    ensures RowsDone(was, buf[..], a, rows, cols, w0, i + 1, 0)
  {
    for j := 0 to Width(a, false)
      invariant RowsDone(was, buf[..], a, rows, cols, w0, i, j)
    {
      RowsStep(was, buf[..], a, rows, cols, w0, i, j);
      FlatAtRow(a, rows, i, j);
      hide At, Cell, RowsDone;
      Place(buf, off + j, a.data[vecoff + j]);
    }
    RowsTurn(was, buf[..], a, rows, cols, w0, i);
  }

  lemma {:induction false} FlatAtRow<T>(a: Arg<T>, rows: nat, i: nat, j: nat)
    requires Supplies(a, rows, false) && i < rows && j < Width(a, false)
    ensures 0 <= i * Width(a, false) && i * Width(a, false) + j < |a.data|
    ensures At(a, rows, false, i, j) == a.data[i * Width(a, false) + j]
  {
    if a.Mat? { CellIn(j, i, a.nr, a.nc); }
  }

  /** Copies one argument down the columns, `cols` apart. */
  method CopyRows<T>(buf: array<Option<T>>, offset: nat, a: Arg<T>, rows: nat, cols: nat)
    requires Supplies(a, rows, false) && offset + Width(a, false) <= cols
    requires Free(buf[..], rows, cols, offset)
    modifies buf
    ensures RowsDone(old(buf[..]), buf[..], a, rows, cols, offset, rows, 0)
  {
    ghost var was := buf[..];
    var off, vecoff := offset, 0;
    for i := 0 to rows
      invariant off == Offset(rows, cols, false, i, offset) && vecoff == i * Width(a, false)
      invariant RowsDone(was, buf[..], a, rows, cols, offset, i, 0)
    {
      hide RowsDone, Cell;
      CopyDown(buf, off, a, vecoff, rows, cols, offset, i, was);
      off, vecoff := off + cols, vecoff + Width(a, false);
    }
  }

  lemma {:induction false} RowsTurn<T>(was: seq<Option<T>>, now: seq<Option<T>>, a: Arg<T>, rows: nat, cols: nat,
                                       w0: nat, i: nat)
    requires Supplies(a, rows, false) && RowsDone(was, now, a, rows, cols, w0, i, Width(a, false))
    ensures RowsDone(was, now, a, rows, cols, w0, i + 1, 0)
  {
    hide At, Cell;
  }

  lemma {:induction false} RowsFilled<T>(was: seq<Option<T>>, now: seq<Option<T>>, args: seq<Arg<T>>, rows: nat,
                                         cols: nat, x: nat)
    requires x < |args| && Supplies(args[x], rows, false)
    requires Filled(was, args, rows, cols, false, TotalWidth(args[..x], false))
    requires Free(was, rows, cols, TotalWidth(args[..x], false))
    requires RowsDone(was, now, args[x], rows, cols, TotalWidth(args[..x], false), rows, 0)
    ensures Filled(now, args, rows, cols, false, TotalWidth(args[..x + 1], false))
    ensures Free(now, rows, cols, TotalWidth(args[..x + 1], false))
  {
    var w0 := TotalWidth(args[..x], false);
    TotalWidthSnoc(args, false, x);
    hide Block, TotalWidth, At, Cell, Width;
    forall i, v | 0 <= i < rows && w0 <= v < TotalWidth(args[..x + 1], false)
      ensures Block(args, rows, false, i, v) == At(args[x], rows, false, i, v - w0)
    {
      BlockAt(args, rows, false, x, i, v);
    }
  }

  lemma {:induction false} AllFree<T>(buf: seq<Option<T>>, args: seq<Arg<T>>, rows: nat, cols: nat)
    requires AllSupply(args, rows, false) && cols == TotalWidth(args, false)
    requires |buf| == rows * cols && forall p :: 0 <= p < |buf| ==> buf[p].None?
    ensures Filled(buf, args, rows, cols, false, 0) && Free(buf, rows, cols, 0)
  {
    forall i, v | 0 <= i < rows && 0 <= v < cols ensures Cell(buf, rows, cols, false, i, v).None? {
      CellIn(v, i, cols, rows);
    }
  }

  /** `rbind`: the result is the block matrix of the arguments, each cell written once. */
  method Rbind<T>(args: seq<Arg<T>>, rows: nat, cols: nat) returns (buf: array<Option<T>>)
    requires AllSupply(args, rows, false) && cols == TotalWidth(args, false)
    ensures fresh(buf) && Filled(buf[..], args, rows, cols, false, cols)
  {
    buf := new Option<T>[rows * cols](_ => None);
    var offset := 0;
    AllFree(buf[..], args, rows, cols);
    hide Filled, Free;
    for x := 0 to |args|
      invariant offset == TotalWidth(args[..x], false)
      invariant Filled(buf[..], args, rows, cols, false, offset) && Free(buf[..], rows, cols, offset)
    {
      ghost var was := buf[..];
      TotalWidthSnoc(args, false, x);
      hide Filled, Free, TotalWidth, Width, RowsDone;
      assert Supplies(args[x], rows, false);
      CopyRows(buf, offset, args[x], rows, cols);
      RowsFilled(was, buf[..], args, rows, cols, x);
      offset := offset + Width(args[x], false);
    }
    assert args[..|args|] == args;
  }

  /** The two results, cell by cell: `rbind` of the arguments is the transpose of `cbind` of
      the transposed arguments. */
  lemma {:induction false} RbindTransposesCbind<T>(args: seq<Arg<T>>, turned: seq<Arg<T>>, rows: nat, cols: nat,
                                r: seq<Option<T>>, c: seq<Option<T>>, i: nat, w: nat)
    requires |turned| == |args| && forall k :: 0 <= k < |args| ==> IsTranspose(args[k], turned[k])
    requires Filled(r, args, rows, cols, false, cols) && Filled(c, turned, rows, cols, true, cols)
    requires i < rows && w < cols
    ensures Offset(rows, cols, false, i, w) < |r| && Offset(rows, cols, true, i, w) < |c|
    ensures r[Offset(rows, cols, false, i, w)] == c[Offset(rows, cols, true, i, w)]
    ensures r[Offset(rows, cols, false, i, w)].Some?
  {
    RowsAreTransposedColumns(args, turned, rows);
    hide Block, TotalWidth;
    OffsetIn(rows, cols, false, i, w);
    OffsetIn(rows, cols, true, i, w);
    assert Cell(r, rows, cols, false, i, w) == Cell(c, rows, cols, true, i, w);
  }
}
