/** N-dimensional subscripting `x[i,j,...]` and sub-references `ref x[i,j,...]`. */
module Subscript {
  import opened Common
  import opened MixedRadix

  /** One subscript: left out, of a non-numeric type, a list of one-based positions, or a
      boolean mask. */
  datatype Arg = Missing | NonNumeric | Ints(vals: seq<int>) | Mask(bits: seq<bool>)

  /** What the operators return: values (or base positions) and their `shape` attribute,
      empty when there is none. */
  datatype Result<T> = Fail | Ok(values: seq<T>, shape: seq<nat>)

  // ----- what a subscript denotes -----

  function Iota(n: nat): (s: seq<int>)
    ensures |s| == n && forall i :: 0 <= i < n ==> s[i] == i + 1
  {
    seq(n, i => i + 1)
  }

  /** One-based positions of the true bits, in order. */
  ghost function TruePositions(bits: seq<bool>): seq<int> {
    if bits == [] then []
    else
      var n := |bits| - 1;
      TruePositions(bits[..n]) + (if bits[n] then [n + 1] else [])
  }

  ghost function Resolved(a: Arg, extent: nat): seq<int> {
    match a
    case Missing => Iota(extent)
    case NonNumeric => []
    case Ints(v) => v
    case Mask(b) => TruePositions(b)
  }

  ghost function Lists(args: seq<Arg>, shape: seq<nat>): (ls: seq<seq<int>>)
    requires |args| == |shape|
    ensures |ls| == |args|
    ensures forall i :: 0 <= i < |args| ==> ls[i] == Resolved(args[i], shape[i])
  {
    seq(|args|, i requires 0 <= i < |args| => Resolved(args[i], shape[i]))
  }

  ghost predicate Within(list: seq<int>, extent: nat) {
    forall j :: 0 <= j < |list| ==> 1 <= list[j] <= extent
  }

  ghost predicate AllWithin(ls: seq<seq<int>>, shape: seq<nat>) {
    |ls| == |shape| && forall i :: 0 <= i < |ls| ==> Within(ls[i], shape[i])
  }

  ghost predicate WellIndexed(args: seq<Arg>, shape: seq<nat>) {
    && |args| == |shape|
    && (forall i :: 0 <= i < |args| ==> args[i] != NonNumeric)
    && AllWithin(Lists(args, shape), shape)
  }

  ghost function Lens(ls: seq<seq<int>>): (n: seq<nat>)
    ensures |n| == |ls| && forall i :: 0 <= i < |ls| ==> n[i] == |ls[i]|
  {
    seq(|ls|, i requires 0 <= i < |ls| => |ls[i]|)
  }

  /** The array coordinates that counter values `d` select. */
  ghost function Coords(ls: seq<seq<int>>, d: seq<nat>, shape: seq<nat>): (c: seq<nat>)
    requires AllWithin(ls, shape) && InRange(d, Lens(ls))
    ensures InRange(c, shape)
    ensures forall i :: 0 <= i < |ls| ==> c[i] == ls[i][d[i]] - 1
  {
    seq(|ls|, i requires 0 <= i < |ls| =>
      assert Within(ls[i], shape[i]); assert d[i] < Lens(ls)[i]; ls[i][d[i]] - 1)
  }

  /** The positions of the base array that the index lists select, in column-major order of
      the index combinations: every combination lands at its own rank. */
  ghost predicate Selects(ls: seq<seq<int>>, shape: seq<nat>, offsets: seq<nat>)
    requires AllWithin(ls, shape)
  {
    && |offsets| == Product(Lens(ls))
    && forall d :: InRange(d, Lens(ls)) ==>
         Rank(d, Lens(ls)) < |offsets| && offsets[Rank(d, Lens(ls))] == Rank(Coords(ls, d, shape), shape)
  }

  ghost predicate Copies<T>(data: seq<T>, offsets: seq<nat>, values: seq<T>) {
    && |values| == |offsets|
    && forall v :: 0 <= v < |offsets| ==> offsets[v] < |data| && values[v] == data[offsets[v]]
  }

  // ----- the first pass: strides, range checks and the single-element offset -----

  function Length(a: Arg, extent: nat): nat {
    match a
    case Missing => extent
    case NonNumeric => 0
    case Ints(v) => |v|
    case Mask(b) => |b|
  }

  /** The scalar reading of a subscript; an empty one reads as zero. */
  function IntVal(a: Arg): int {
    match a
    case Ints(v) => if v == [] then 0 else v[0]
    case Mask(b) => if b != [] && b[0] then 1 else 0
    case _ => 0
  }

  ghost function MaxLen(args: seq<Arg>, shape: seq<nat>): nat
    requires |args| == |shape|
  {
    if args == [] then 0
    else
      var n := |args| - 1;
      var m := MaxLen(args[..n], shape[..n]);
      var l := Length(args[n], shape[n]);
      if l > m then l else m
  }

  /** The subscripts on which the single-element shortcut and the general loop disagree: an
      index list that selects nothing, met while the longest list seen is a single element. */
  ghost predicate Degenerate(args: seq<Arg>, shape: seq<nat>)
    requires |args| == |shape|
  {
    exists i :: 0 <= i < |args| && Resolved(args[i], shape[i]) == [] &&
                ((MaxLen(args[..i + 1], shape[..i + 1]) == 1 && !args[i].Missing?) || MaxLen(args, shape) == 1)
  }

  lemma {:induction false} TruePositionsLen(bits: seq<bool>)
    ensures |TruePositions(bits)| <= |bits|
    ensures |bits| == 1 ==> TruePositions(bits) == if bits[0] then [1] else []
    ensures Within(TruePositions(bits), |bits|)
  {
    if bits != [] {
      TruePositionsLen(bits[..|bits| - 1]);
      if |bits| == 1 {
        assert TruePositions(bits[..0]) == [];
      }
    }
  }

  /** A subscript no longer than one element is read exactly by its scalar value. */
  lemma {:induction false} ScalarReading(a: Arg, extent: nat)
    requires a.Ints? || a.Mask?
    requires Length(a, extent) <= 1
    ensures Resolved(a, extent) == [IntVal(a)] || (Resolved(a, extent) == [] && IntVal(a) == 0)
  {
    if a.Mask? {
      TruePositionsLen(a.bits);
    }
  }

  lemma {:induction false} MaxLenSnoc(args: seq<Arg>, shape: seq<nat>, i: nat)
    requires |args| == |shape| && i < |args|
    ensures var m := MaxLen(args[..i], shape[..i]);
            var l := Length(args[i], shape[i]);
            MaxLen(args[..i + 1], shape[..i + 1]) == if l > m then l else m
  {
    assert args[..i + 1][..i] == args[..i] && shape[..i + 1][..i] == shape[..i];
  }

  ghost predicate IsFactor(factor: seq<nat>, shape: seq<nat>) {
    |factor| <= |shape| && forall i :: 0 <= i < |factor| ==> factor[i] == Product(shape[..i])
  }

  /** Extends the coordinates of the single-element shortcut by one dimension. */
  lemma {:induction false} ExtendRank(c: seq<nat>, x: nat, shape: seq<nat>)
    requires |c| < |shape| && InRange(c, shape[..|c|]) && x < shape[|c|]
    ensures InRange(c + [x], shape[..|c| + 1])
    ensures Rank(c + [x], shape[..|c| + 1]) == Rank(c, shape[..|c|]) + Product(shape[..|c|]) * x
  {
    var d, s, n := c + [x], shape[..|c| + 1], |c|;
    RankSnoc(d, s, n);
    assert d[..n + 1] == d && s[..n + 1] == s && d[..n] == c && s[..n] == shape[..n];
  }

  /** What the first pass knows after `i` subscripts about their lengths... */
  ghost predicate LensScanned(args: seq<Arg>, shape: seq<nat>, i: nat, maxLen: nat)
    requires |args| == |shape|
  {
    && i <= |args|
    && maxLen == MaxLen(args[..i], shape[..i])
    && (forall j :: 0 <= j < i ==> args[j] != NonNumeric)
    && (forall j :: 0 <= j < i && MaxLen(args[..j + 1], shape[..j + 1]) == 1 && !args[j].Missing? ==>
          Resolved(args[j], shape[j]) != [])
  }

  /** ... and, while none is longer than one element, about the coordinates `c` that the
      running offset stands for. */
  ghost predicate CoordsScanned(args: seq<Arg>, shape: seq<nat>, i: nat, maxLen: nat, offset: int, c: seq<nat>)
    requires |args| == |shape|
  {
    && i <= |args| && |c| == i && InRange(c, shape[..i])
    && (maxLen <= 1 ==> offset == Rank(c, shape[..i])) && (maxLen == 0 ==> offset == 0)
    && (maxLen <= 1 ==> forall j :: 0 <= j < i ==>
          if Resolved(args[j], shape[j]) == [] then c[j] == 0 else Resolved(args[j], shape[j]) == [c[j] + 1])
  }

  /** What one subscript adds to the running maximum... */
  ghost predicate Lengthens(a: Arg, extent: nat, m: nat, m': nat) {
    && a != NonNumeric && m' == (if Length(a, extent) > m then Length(a, extent) else m)
    && (m' == 1 && !a.Missing? ==> Resolved(a, extent) != [])
  }

  /** ... and to the offset, when the extent is not zero. */
  ghost predicate Scans(a: Arg, extent: nat, factor: nat, m: nat, offset: int, m': nat, offset': int, x: nat) {
    && Lengthens(a, extent, m, m') && x < extent
    && (m' == 1 ==> Resolved(a, extent) == [x + 1] && offset' == offset + factor * x)
    && (m' == 0 ==> Resolved(a, extent) == [] && offset' == offset && x == 0)
  }

  lemma {:induction false} ScanLens(args: seq<Arg>, shape: seq<nat>, i: nat, m: nat, m': nat)
    requires |args| == |shape| && i < |args|
    requires LensScanned(args, shape, i, m) && Lengthens(args[i], shape[i], m, m')
    ensures LensScanned(args, shape, i + 1, m')
  {
    MaxLenSnoc(args, shape, i);
    hide MaxLen, Resolved, Product, Length;
  }

  lemma {:induction false} ScanCoords(args: seq<Arg>, shape: seq<nat>, i: nat, m: nat, offset: int, c: seq<nat>,
                                      m': nat, offset': int, x: nat)
    requires |args| == |shape| && i < |args|
    requires CoordsScanned(args, shape, i, m, offset, c)
    requires Scans(args[i], shape[i], Product(shape[..i]), m, offset, m', offset', x)
    ensures CoordsScanned(args, shape, i + 1, m', offset', c + [x])
  {
    hide Rank, Resolved, Product, Length;
    ExtendRank(c, x, shape);
    var c' := c + [x];
    assert c'[i] == x && forall j :: 0 <= j < i ==> c'[j] == c[j];
    assert m' <= 1 ==> m <= 1;
    assert m' == 0 ==> Product(shape[..i]) * x == 0;
    hide InRange;
  }

  /** The first pass refuses the subscript: it is not numeric, or it is read as a scalar while
      the longest seen has one element, and is out of range. */
  ghost predicate Rejected(args: seq<Arg>, shape: seq<nat>, i: nat)
    requires |args| == |shape| && i < |args|
  {
    args[i] == NonNumeric
    || (!args[i].Missing? && MaxLen(args[..i + 1], shape[..i + 1]) == 1 && !(1 <= IntVal(args[i]) <= shape[i]))
  }

  /** What the first pass makes of one subscript. */
  ghost predicate ScansAny(a: Arg, extent: nat, factor: nat, m: nat, offset: int, m': nat, offset': int, x: nat) {
    && Lengthens(a, extent, m, m') && (extent > 0 ==> Scans(a, extent, factor, m, offset, m', offset', x))
    && (m' <= 1 && (factor == 0 || extent == 0) ==> offset' == offset - (if m' == 1 then factor else 0))
    && (m' <= 1 && extent == 0 ==> Resolved(a, extent) == [])
  }

  method ScanArg(a: Arg, extent: nat, factor: nat, m: nat, offset: int)
    returns (ok: bool, m': nat, offset': int, ghost x: nat)
    ensures ok ==> ScansAny(a, extent, factor, m, offset, m', offset', x)
    ensures !ok <==> a == NonNumeric || (!a.Missing? && m' == 1 && !(1 <= IntVal(a) <= extent))
    ensures a != NonNumeric ==> m' == if Length(a, extent) > m then Length(a, extent) else m
  {
    ok, m', offset', x := true, m, offset, 0;
    if a.NonNumeric? {
      ok := false;
    } else if a.Missing? {
      if extent > m' { m' := extent; }
      if m' == 1 { offset' := offset' + factor * (extent - 1); }
    } else {
      if Length(a, extent) > m' { m' := Length(a, extent); }
      if m' <= 1 { ScalarReading(a, extent); }
      if m' == 1 {
        var ind := IntVal(a);
        if ind < 1 || ind > extent { return false, m', offset', 0; }
        offset' := offset' + factor * (ind - 1);
        x := ind - 1;
      }
    }
  }

  /** The first extent that is zero. */
  ghost function FirstZero(shape: seq<nat>): (z: nat)
    requires !Positive(shape)
    ensures z < |shape| && shape[z] == 0 && Positive(shape[..z])
  {
    if shape[0] == 0 then 0
    else
      var i :| 0 <= i < |shape| && shape[i] == 0;
      assert shape[1..][i - 1] == 0;
      var z := FirstZero(shape[1..]) + 1;
      assert forall j :: 0 < j < z ==> shape[j] == shape[1..][..z - 1][j - 1];
      z
  }

  /** The offset that the first pass gives a shape with a zero extent: none while only empty
      lists came before that extent, otherwise a whole run of cells before the first. */
  ghost function Stray(args: seq<Arg>, shape: seq<nat>): (offset: int)
    requires |args| == |shape| && !Positive(shape)
  {
    var z := FirstZero(shape);
    if MaxLen(args[..z], shape[..z]) == 0 then 0
    else Rank(Scalars(args[..z], shape[..z]), shape[..z]) - Product(shape[..z])
  }

  /** The coordinates or, past the first zero extent, the offset after `i` subscripts. */
  ghost predicate OffsetScanned(args: seq<Arg>, shape: seq<nat>, i: nat, maxLen: nat, offset: int, c: seq<nat>)
    requires |args| == |shape|
  {
    if Positive(shape) || i <= FirstZero(shape) then CoordsScanned(args, shape, i, maxLen, offset, c)
    else
      && i <= |args| && Product(shape[..i]) == 0 && (maxLen <= 1 ==> offset == Stray(args, shape))
      && (maxLen <= 1 ==> (offset < 0 <==> MaxLen(args[..FirstZero(shape)], shape[..FirstZero(shape)]) > 0))
  }

  /** The first pass after `i` subscripts, none of them rejected. */
  ghost predicate Scanned(args: seq<Arg>, shape: seq<nat>, i: nat, factor: seq<nat>, total: nat, maxLen: nat,
                          offset: int, c: seq<nat>)
    requires |args| == |shape|
  {
    && i <= |args| && |factor| == i && IsFactor(factor, shape) && total == Product(shape[..i])
    && LensScanned(args, shape, i, maxLen) && OffsetScanned(args, shape, i, maxLen, offset, c)
    && forall j :: 0 <= j < i ==> !Rejected(args, shape, j)
  }

  lemma {:induction false} ScannedMore(args: seq<Arg>, shape: seq<nat>, i: nat, factor: seq<nat>, total: nat, m: nat,
                                       offset: int, c: seq<nat>, m': nat, offset': int, x: nat)
    requires |args| == |shape| && i < |args| && Scanned(args, shape, i, factor, total, m, offset, c)
    requires ScansAny(args[i], shape[i], total, m, offset, m', offset', x) && !Rejected(args, shape, i)
    ensures Scanned(args, shape, i + 1, factor + [total], total * shape[i], m', offset', c + [x])
  {
    hide Rejected, LensScanned, OffsetScanned, Scans, Product;
    assert Lengthens(args[i], shape[i], m, m');
    ScanLens(args, shape, i, m, m');
    ScanOffset(args, shape, i, m, offset, c, m', offset', x);
    ProductSnoc(shape, i);
  }

  lemma {:induction false} ScanOffset(args: seq<Arg>, shape: seq<nat>, i: nat, m: nat, offset: int, c: seq<nat>,
                                      m': nat, offset': int, x: nat)
    requires |args| == |shape| && i < |args|
    requires LensScanned(args, shape, i, m) && OffsetScanned(args, shape, i, m, offset, c)
    requires ScansAny(args[i], shape[i], Product(shape[..i]), m, offset, m', offset', x)
    ensures OffsetScanned(args, shape, i + 1, m', offset', c + [x])
  {
    hide Rank, Resolved, Product, MaxLen;
    if Positive(shape) || i < FirstZero(shape) {
      if !Positive(shape) { assert shape[i] == shape[..FirstZero(shape)][i]; }
      hide CoordsScanned, Scans;
      ScanCoords(args, shape, i, m, offset, c, m', offset', x);
    } else {
      ProductSnoc(shape, i);
      if i == FirstZero(shape) && m <= 1 {
        ScalarsScanned(args, shape, i, m, offset, c);
        RankBound(c, shape[..i]);
      }
    }
  }

  /** The coordinates the shortcut reads: an empty list as the first. */
  ghost function Scalars(args: seq<Arg>, shape: seq<nat>): (c: seq<nat>)
    requires |args| == |shape|
    ensures |c| == |args|
  {
    seq(|args|, i requires 0 <= i < |args| =>
      var l := Resolved(args[i], shape[i]); if l == [] || l[0] < 1 then 0 else l[0] - 1)
  }

  lemma {:induction false} ScalarsScanned(args: seq<Arg>, shape: seq<nat>, i: nat, maxLen: nat, offset: int,
                                          c: seq<nat>)
    requires |args| == |shape| && maxLen <= 1 && CoordsScanned(args, shape, i, maxLen, offset, c)
    ensures c == Scalars(args[..i], shape[..i]) && offset == Rank(c, shape[..i])
  {
    hide Rank, Resolved;
  }

  method Scan(shape: seq<nat>, args: seq<Arg>)
    returns (ok: bool, factor: seq<nat>, total: nat, maxLen: nat, offset: int, ghost c: seq<nat>)
    requires |args| == |shape|
    ensures ok <==> forall i :: 0 <= i < |args| ==> !Rejected(args, shape, i)
    ensures ok ==> IsFactor(factor, shape) && |factor| == |shape| && total == Product(shape)
    ensures ok ==> LensScanned(args, shape, |args|, maxLen)
    ensures ok ==> OffsetScanned(args, shape, |args|, maxLen, offset, c)
  {
    ok, factor, total, maxLen, offset, c := false, [], 1, 0, 0, [];
    ScanStart(args, shape);
    hide Rejected, LensScanned, OffsetScanned, ScansAny, Lengthens, Product, Length, IntVal;
    for i := 0 to |args|
      invariant Scanned(args, shape, i, factor, total, maxLen, offset, c)
    {
      var good, m, o, x := ScanArg(args[i], shape[i], total, maxLen, offset);
      RejectedIs(args, shape, i, maxLen, m);
      if !good { return; }
      ScannedMore(args, shape, i, factor, total, maxLen, offset, c, m, o, x);
      factor := factor + [total];
      total, maxLen, offset, c := total * shape[i], m, o, c + [x];
    }
    assert shape[..|args|] == shape;
    ok := true;
  }

  lemma {:induction false} ScanStart(args: seq<Arg>, shape: seq<nat>)
    requires |args| == |shape|
    ensures Scanned(args, shape, 0, [], 1, 0, 0, [])
  {
  }

  lemma {:induction false} RejectedIs(args: seq<Arg>, shape: seq<nat>, i: nat, m: nat, m': nat)
    requires |args| == |shape| && i < |args| && LensScanned(args, shape, i, m)
    requires args[i] != NonNumeric ==> m' == if Length(args[i], shape[i]) > m then Length(args[i], shape[i]) else m
    ensures Rejected(args, shape, i) <==>
            args[i] == NonNumeric || (!args[i].Missing? && m' == 1 && !(1 <= IntVal(args[i]) <= shape[i]))
  {
    MaxLenSnoc(args, shape, i);
    hide MaxLen, Length, IntVal, Resolved;
  }

  /** It then is out of range, or degenerate. */
  lemma {:induction false} ScanRejects(args: seq<Arg>, shape: seq<nat>, i: nat)
    requires |args| == |shape| && i < |args| && Rejected(args, shape, i)
    ensures !WellIndexed(args, shape) || Degenerate(args, shape)
  {
    if args[i] != NonNumeric { RejectsScalar(args, shape, i); }
  }

  lemma {:induction false} RejectsScalar(args: seq<Arg>, shape: seq<nat>, i: nat)
    requires |args| == |shape| && i < |args| && (args[i].Ints? || args[i].Mask?)
    requires MaxLen(args[..i + 1], shape[..i + 1]) == 1
    requires !(1 <= IntVal(args[i]) <= shape[i])
    ensures !WellIndexed(args, shape) || Degenerate(args, shape)
  {
    MaxLenSnoc(args, shape, i);
    ScalarReading(args[i], shape[i]);
    var l := Lists(args, shape)[i];
    if l != [] {
      assert !(1 <= l[0] <= shape[i]);
      assert !Within(l, shape[i]);
    }
  }

  // ----- the second pass: index lists, their lengths and the result size -----

  /** What a subscript denotes: the whole dimension in order, the list itself, or exactly the
      positions of a mask's true bits, ascending. */
  ghost predicate Denotes(a: Arg, extent: nat, l: seq<int>) {
    match a
    case Missing => |l| == extent && forall i :: 0 <= i < extent ==> l[i] == i + 1
    case NonNumeric => l == []
    case Ints(v) => l == v
    case Mask(b) =>
      && (forall i, j :: 0 <= i < j < |l| ==> l[i] < l[j])
      && forall p :: p in l <==> 1 <= p <= |b| && b[p - 1]
  }

  lemma {:induction false} TruePositionsExact(bits: seq<bool>)
    ensures Denotes(Mask(bits), 0, TruePositions(bits))
  {
    if bits != [] {
      var n := |bits| - 1;
      TruePositionsExact(bits[..n]);
      OneMoreBit(bits, TruePositions(bits[..n]));
    }
  }

  lemma {:induction false} OneMoreBit(bits: seq<bool>, l: seq<int>)
    requires bits != [] && Denotes(Mask(bits[..|bits| - 1]), 0, l)
    ensures var n := |bits| - 1; Denotes(Mask(bits), 0, l + if bits[n] then [n + 1] else [])
  {
    var n := |bits| - 1;
    var m := l + if bits[n] then [n + 1] else [];
    forall i, j | 0 <= i < j < |m| ensures m[i] < m[j] { assert l[i] in l; }
    forall p ensures p in m <==> 1 <= p <= |bits| && bits[p - 1] {
      assert p in l <==> 1 <= p <= n && bits[..n][p - 1];
    }
  }

  /** That alone determines the list. */
  lemma {:induction false} DenotesUnique(a: Arg, extent: nat, l: seq<int>, m: seq<int>)
    requires Denotes(a, extent, l) && Denotes(a, extent, m)
    ensures l == m
  {
    if a.Mask? { AscendingUnique(l, m); }
  }

  lemma {:induction false} AscendingUnique(l: seq<int>, m: seq<int>)
    requires forall i, j :: 0 <= i < j < |l| ==> l[i] < l[j]
    requires forall i, j :: 0 <= i < j < |m| ==> m[i] < m[j]
    requires forall p :: p in l <==> p in m
    ensures l == m
    decreases |l|
  {
    assert m == [] || m[0] in m;
    if l != [] {
      assert l[0] in l && l[0] in m && m[0] in m && m[0] in l;
      var i, j :| 0 <= i < |m| && m[i] == l[0] && 0 <= j < |l| && l[j] == m[0];
      assert l[0] == m[0];
      forall p ensures p in l[1..] <==> p in m[1..] {
        assert p in l[1..] ==> p in m && p != m[0];
        assert p in m[1..] ==> p in l && p != l[0];
      }
      AscendingUnique(l[1..], m[1..]);
    }
  }

  lemma {:induction false} ResolvedDenotes(a: Arg, extent: nat)
    ensures Denotes(a, extent, Resolved(a, extent))
  {
    if a.Mask? { TruePositionsExact(a.bits); }
  }

  /** `GenerateIndices`: a mask contributes the positions of its true bits. */
  method GenerateIndices(a: Arg, extent: nat) returns (indices: seq<int>)
    ensures indices == Resolved(a, extent) && Denotes(a, extent, indices)
  {
    ResolvedDenotes(a, extent);
    match a {
      case Missing => indices := Iota(extent);
      case NonNumeric => indices := [];
      case Ints(v) => indices := v;
      case Mask(b) =>
        indices := [];
        for i := 0 to |b|
          invariant indices == TruePositions(b[..i])
        {
          assert b[..i + 1][..i] == b[..i];
          if b[i] { indices := indices + [i + 1]; }
        }
        assert b[..|b|] == b;
    }
  }

  method CheckRange(list: seq<int>, extent: nat) returns (ok: bool)
    ensures ok <==> Within(list, extent)
  {
    for j := 0 to |list|
      invariant forall k :: 0 <= k < j ==> 1 <= list[k] <= extent
    {
      if !(1 <= list[j] <= extent) { return false; }
    }
    return true;
  }

  /** One subscript's index list, and whether it is in range; a whole dimension always is. */
  method ResolveOne(a: Arg, extent: nat) returns (l: seq<int>, inside: bool)
    ensures l == Resolved(a, extent) && (inside <==> Within(l, extent))
  {
    l := GenerateIndices(a, extent);
    inside := true;
    if a.Missing? {
      MissingWithin(extent);
    } else {
      inside := CheckRange(l, extent);
    }
  }

  /** The second pass after `i` subscripts: their lists, all in range, and what they add up to. */
  ghost predicate ResolvedUpto(args: seq<Arg>, shape: seq<nat>, i: nat, index: seq<seq<int>>, lens: seq<nat>,
                               vecsize: nat, isElement: bool)
    requires |args| == |shape|
  {
    && i <= |args| && |index| == |lens| == i && vecsize == Product(lens)
    && (forall j :: 0 <= j < i ==> index[j] == Resolved(args[j], shape[j]) && lens[j] == |index[j]|)
    && (forall j :: 0 <= j < i ==> Within(index[j], shape[j]))
    && (isElement <==> forall j :: 0 <= j < i ==> |index[j]| <= 1)
  }

  lemma {:induction false} ResolvedMore(args: seq<Arg>, shape: seq<nat>, i: nat, index: seq<seq<int>>, lens: seq<nat>,
                                        vecsize: nat, isElement: bool, l: seq<int>)
    requires |args| == |shape| && i < |args| && ResolvedUpto(args, shape, i, index, lens, vecsize, isElement)
    requires l == Resolved(args[i], shape[i]) && Within(l, shape[i])
    ensures ResolvedUpto(args, shape, i + 1, index + [l], lens + [|l|], vecsize * |l|, isElement && |l| <= 1)
  {
    hide Product, Resolved, Within;
    ProductAppend(lens, |l|);
    var r := index + [l];
    assert r[i] == l && forall j :: 0 <= j < i ==> r[j] == index[j];
  }

  lemma {:induction false} ResolvedAll(args: seq<Arg>, shape: seq<nat>, index: seq<seq<int>>, lens: seq<nat>,
                                       vecsize: nat, isElement: bool)
    requires |args| == |shape| && ResolvedUpto(args, shape, |args|, index, lens, vecsize, isElement)
    requires forall i :: 0 <= i < |args| ==> args[i] != NonNumeric
    ensures WellIndexed(args, shape) && index == Lists(args, shape) && lens == Lens(index) && vecsize == Product(lens)
    ensures isElement <==> forall i :: 0 <= i < |index| ==> |index[i]| <= 1
  {
    hide Product, Resolved, Within;
    assert index == Lists(args, shape);
  }

  method Resolve(shape: seq<nat>, args: seq<Arg>)
    returns (ok: bool, index: seq<seq<int>>, len: array<nat>, vecsize: nat, isElement: bool)
    requires |args| == |shape|
    requires forall i :: 0 <= i < |args| ==> args[i] != NonNumeric
    ensures fresh(len) && len.Length == |shape|
    ensures ok <==> WellIndexed(args, shape)
    ensures ok ==> index == Lists(args, shape) && len[..] == Lens(index) && vecsize == Product(len[..])
    ensures ok ==> (isElement <==> forall i :: 0 <= i < |index| ==> |index[i]| <= 1)
  {
    len := new nat[|shape|];
    ok, index, vecsize, isElement := false, [], 1, true;
    assert ResolvedUpto(args, shape, 0, [], len[..0], 1, true);
    hide Product, Resolved, Within, ResolvedUpto;
    for i := 0 to |args|
      invariant ResolvedUpto(args, shape, i, index, len[..i], vecsize, isElement)
    {
      ghost var before := len[..i];
      var l, inside := ResolveOne(args[i], shape[i]);
      len[i] := |l|;
      if !inside {
        assert !Within(Lists(args, shape)[i], shape[i]);
        return;
      }
      ResolvedMore(args, shape, i, index, before, vecsize, isElement, l);
      assert len[..i + 1] == before + [|l|];
      index := index + [l];
      if isElement && len[i] > 1 { isElement := false; }
      vecsize := vecsize * len[i];
    }
    ResolvedAll(args, shape, index, len[..|args|], vecsize, isElement);
    assert len[..] == len[..|args|];
    ok := true;
  }

  lemma {:induction false} MissingWithin(extent: nat)
    ensures Within(Resolved(Missing, extent), extent)
  {
  }

  // ----- the odometer -----

  /** The first `i` counters have wrapped. */
  ghost predicate Carried(was: seq<nat>, len: seq<nat>, i: nat)
    requires |was| == |len| && i <= |len|
  {
    Advance(was, len) == Repeat<nat>(0, i) + Advance(was[i..], len[i..])
  }

  lemma {:induction false} CarryOn(was: seq<nat>, len: seq<nat>, i: nat)
    requires |was| == |len| && i < |len| && Carried(was, len, i) && was[i] + 1 >= len[i]
    ensures Carried(was, len, i + 1)
  {
    var d, s := was[i..], len[i..];
    assert d[1..] == was[i + 1..] && s[1..] == len[i + 1..];
    assert Repeat<nat>(0, i) + ([0] + Advance(d[1..], s[1..])) == Repeat<nat>(0, i + 1) + Advance(d[1..], s[1..]);
  }

  lemma {:induction false} CarryStop(was: seq<nat>, len: seq<nat>, i: nat)
    requires |was| == |len| && i < |len| && Carried(was, len, i) && was[i] + 1 < len[i]
    ensures Advance(was, len) == Repeat<nat>(0, i) + was[i..][0 := was[i] + 1]
  {
    assert was[i..][1..] == was[i + 1..];
    assert was[i..][0 := was[i] + 1] == [was[i] + 1] + was[i + 1..];
  }

  /** Advances the counters in place, carrying from one dimension to the next. */
  method AdvanceCounters(cur: array<nat>, len: seq<nat>)
    requires cur.Length == |len|
    modifies cur
    ensures cur[..] == Advance(old(cur[..]), len)
  {
    hide Advance;
    ghost var was := cur[..];
    assert Carried(was, len, 0) by { assert was[0..] == was && len[0..] == len; }
    var i := 0;
    while i < |len|
      invariant 0 <= i <= |len|
      invariant forall j :: 0 <= j < i ==> cur[j] == 0
      invariant forall j :: i <= j < |len| ==> cur[j] == was[j]
      invariant Carried(was, len, i)
    {
      cur[i] := cur[i] + 1;
      if cur[i] < len[i] {
        CarryStop(was, len, i);
        return;
      }
      cur[i] := 0;
      CarryOn(was, len, i);
      i := i + 1;
    }
  }

  method OffsetAt(factor: seq<nat>, index: seq<seq<int>>, cur: array<nat>, ghost shape: seq<nat>)
    returns (offset: nat)
    requires AllWithin(index, shape) && InRange(cur[..], Lens(index))
    requires IsFactor(factor, shape) && |factor| == |shape|
    ensures offset == Rank(Coords(index, cur[..], shape), shape)
  {
    ghost var c := Coords(index, cur[..], shape);
    offset := 0;
    for i := 0 to |factor|
      invariant offset == Rank(c[..i], shape[..i])
    {
      RankSnoc(c, shape, i);
      assert Lens(index)[i] == |index[i]| && cur[..][i] == cur[i];
      offset := offset + factor[i] * (index[i][cur[i]] - 1);
    }
    assert c[..|factor|] == c && shape[..|factor|] == shape;
  }

  lemma {:induction false} ProductZero(s: seq<nat>)
    requires !Positive(s)
    ensures Product(s) == 0
  {
    if s[0] != 0 {
      var i :| 0 <= i < |s| && s[i] == 0;
      assert s[1..][i - 1] == 0;
      ProductZero(s[1..]);
    }
  }

  /** The combinations of rank below `v` have been visited, each at its rank. */
  ghost predicate Visited(index: seq<seq<int>>, shape: seq<nat>, v: nat, out: seq<nat>)
    requires AllWithin(index, shape)
  {
    && v <= |out| && (forall k :: 0 <= k < v ==> out[k] < Product(shape))
    && forall d :: InRange(d, Lens(index)) && Rank(d, Lens(index)) < v ==>
         out[Rank(d, Lens(index))] == Rank(Coords(index, d, shape), shape)
  }

  lemma {:induction false} VisitedMore(index: seq<seq<int>>, shape: seq<nat>, v: nat, out: seq<nat>, here: seq<nat>,
                                       offset: nat)
    requires AllWithin(index, shape) && v < |out| && Visited(index, shape, v, out)
    requires InRange(here, Lens(index)) && Rank(here, Lens(index)) == v
    requires offset == Rank(Coords(index, here, shape), shape)
    ensures Visited(index, shape, v + 1, out[v := offset])
  {
    hide Rank, Product;
    RankBound(Coords(index, here, shape), shape);
    forall d | InRange(d, Lens(index)) && Rank(d, Lens(index)) == v ensures d == here {
      RankInjective(d, here, Lens(index));
    }
  }

  lemma {:induction false} VisitedAll(index: seq<seq<int>>, shape: seq<nat>, out: seq<nat>)
    requires AllWithin(index, shape) && |out| == Product(Lens(index)) && Visited(index, shape, |out|, out)
    ensures Selects(index, shape, out) && forall v :: 0 <= v < |out| ==> out[v] < Product(shape)
  {
    hide Rank, Product;
    forall d | InRange(d, Lens(index)) ensures Rank(d, Lens(index)) < |out| {
      RankBound(d, Lens(index));
    }
  }

  /** Where the counters go from the combination of rank `v`. */
  lemma {:induction false} NextCounters(here: seq<nat>, len: seq<nat>, v: nat)
    requires InRange(here, len) && Rank(here, len) == v
    ensures v < Product(len)
    ensures v + 1 < Product(len) ==> InRange(Advance(here, len), len) && Rank(Advance(here, len), len) == v + 1
    ensures v + 1 == Product(len) ==> Advance(here, len) == Repeat<nat>(0, |len|)
  {
    hide Rank, Product, Advance;
    RankBound(here, len);
    if v + 1 < Product(len) { AdvanceCounts(here, len); } else { AdvanceWraps(here, len); }
  }

  /** The general loop, shared by the copying and the referencing operator: step `v` visits
      the combination of rank `v`, and the counters end where they began. */
  method Offsets(factor: seq<nat>, index: seq<seq<int>>, len: seq<nat>, vecsize: nat, cur: array<nat>,
                 ghost shape: seq<nat>)
    returns (ret: seq<nat>)
    requires AllWithin(index, shape) && len == Lens(index) && vecsize == Product(len)
    requires IsFactor(factor, shape) && |factor| == |shape|
    requires cur[..] == Repeat<nat>(0, |len|)
    modifies cur
    ensures Selects(index, shape, ret)
    ensures forall v :: 0 <= v < |ret| ==> ret[v] < Product(shape)
    ensures cur[..] == Repeat<nat>(0, |len|)
  {
    hide Product, Rank, Visited, Advance, AllWithin, IsFactor, Selects, Coords;
    var out := new nat[vecsize];
    Origin(index, shape, len, out[..]);
    for v := 0 to vecsize
      invariant v < vecsize ==> InRange(cur[..], len) && Rank(cur[..], len) == v
      invariant v == 0 || v == vecsize ==> cur[..] == Repeat<nat>(0, |len|)
      invariant Visited(index, shape, v, out[..])
    {
      ghost var here, was := cur[..], out[..];
      var offset := OffsetAt(factor, index, cur, shape);
      VisitedMore(index, shape, v, was, here, offset);
      NextCounters(here, len, v);
      out[v] := offset;
      assert out[..] == was[v := offset];
      AdvanceCounters(cur, len);
    }
    ret := out[..];
    VisitedAll(index, shape, ret);
  }

  lemma {:induction false} Origin(index: seq<seq<int>>, shape: seq<nat>, len: seq<nat>, out: seq<nat>)
    requires AllWithin(index, shape) && len == Lens(index)
    ensures Product(len) > 0 ==> InRange(Repeat<nat>(0, |len|), len)
    ensures Rank(Repeat<nat>(0, |len|), len) == 0 && Visited(index, shape, 0, out)
  {
    hide Product;
    if !Positive(len) { ProductZero(len); }
    RankOrigin(len);
  }

  // ----- the result's shape -----

  /** Extents larger than one, in order. */
  ghost function Compact(len: seq<nat>): seq<nat> {
    if len == [] then []
    else
      var n := |len| - 1;
      Compact(len[..n]) + (if len[n] > 1 then [len[n]] else [])
  }

  /** It keeps a single extent exactly when it is above one, and keeps the order: what it leaves of
      two runs of extents is what it leaves of the first and then of the second. */
  lemma {:induction false} CompactSplits(a: seq<nat>, b: seq<nat>, x: nat)
    ensures Compact(a + b) == Compact(a) + Compact(b)
    ensures Compact([x]) == if x > 1 then [x] else []
    decreases |b|
  {
    assert [x][..0] == [];
    if b == [] {
      assert a + b == a;
    } else {
      var n := |b| - 1;
      CompactSplits(a, b[..n], x);
      assert (a + b)[..|a| + n] == a + b[..n] && (a + b)[|a| + n] == b[n];
    }
  }

  /** Drops the unit extents in place; returns how many remain at the front. */
  method CompactShape(len: array<nat>) returns (z: nat)
    modifies len
    ensures z <= len.Length && len[..z] == Compact(old(len[..]))
  {
    ghost var was := len[..];
    z := 0;
    for x := 0 to len.Length
      invariant z <= x
      invariant len[..z] == Compact(was[..x])
      invariant forall j :: x <= j < len.Length ==> len[j] == was[j]
    {
      assert was[..x + 1][..x] == was[..x];
      if len[x] > 1 {
        len[z] := len[x];
        z := z + 1;
      }
    }
    assert was[..len.Length] == was;
  }

  /** Dropping unit extents keeps the number of cells exactly when no extent is zero. */
  lemma {:induction false} CompactKeepsSize(len: seq<nat>)
    ensures Product(Compact(len)) == Product(len) <==> Positive(len)
  {
    CompactPositive(len);
    ProductPositive(Compact(len));
    if Positive(len) {
      CompactSize(len);
    } else {
      ProductZero(len);
    }
  }

  lemma {:induction false} CompactPositive(len: seq<nat>)
    ensures Positive(Compact(len))
  {
    if len != [] {
      CompactPositive(len[..|len| - 1]);
    }
  }

  lemma {:induction false} CompactSize(len: seq<nat>)
    requires Positive(len)
    ensures Product(Compact(len)) == Product(len)
  {
    if len != [] {
      var n := |len| - 1;
      hide Product;
      CompactSize(len[..n]);
      assert len == len[..n] + [len[n]];
      ProductAppend(len[..n], len[n]);
      if len[n] > 1 {
        ProductAppend(Compact(len[..n]), len[n]);
      } else {
        assert len[n] == 1 && Compact(len) == Compact(len[..n]);
      }
    }
  }

  // ----- the two operators -----

  datatype Located = Refused | Element(offset: int) | Many(offsets: seq<nat>, shape: seq<nat>)

  /** The positions an operator must produce. */
  ghost predicate Correct(args: seq<Arg>, shape: seq<nat>, offsets: seq<nat>)
    requires WellIndexed(args, shape)
  {
    Selects(Lists(args, shape), shape, offsets)
  }

  lemma {:induction false} DegenerateScan(args: seq<Arg>, shape: seq<nat>, maxLen: nat)
    requires |args| == |shape| && LensScanned(args, shape, |args|, maxLen)
    ensures maxLen == MaxLen(args, shape) && (maxLen != 1 ==> !Degenerate(args, shape))
    ensures forall i :: 0 <= i < |args| ==> args[i] != NonNumeric
    ensures maxLen == 1 ==>
              (Degenerate(args, shape) <==> exists i :: 0 <= i < |args| && Resolved(args[i], shape[i]) == [])
  {
    assert args[..|args|] == args && shape[..|args|] == shape;
  }

  lemma {:induction false} ProductOnes(s: seq<nat>)
    requires forall i :: 0 <= i < |s| ==> s[i] == 1
    ensures Product(s) == 1
  {
    if s != [] { ProductOnes(s[1..]); }
  }

  lemma {:induction false} ShortcutWellIndexed(args: seq<Arg>, shape: seq<nat>, offset: int, c: seq<nat>)
    requires |args| == |shape| && LensScanned(args, shape, |args|, 1)
    requires CoordsScanned(args, shape, |args|, 1, offset, c)
    ensures WellIndexed(args, shape) && InRange(c, shape)
    ensures forall i :: 0 <= i < |args| ==> var l := Lists(args, shape)[i]; l == [] || l == [c[i] + 1]
  {
    hide MaxLen, Resolved, Rank;
    assert shape[..|args|] == shape;
    var ls := Lists(args, shape);
    forall i | 0 <= i < |ls| ensures Within(ls[i], shape[i]) {
      assert ls[i] == [] || ls[i] == [c[i] + 1];
    }
  }

  lemma {:induction false} SingletonSelects(ls: seq<seq<int>>, shape: seq<nat>, c: seq<nat>)
    requires AllWithin(ls, shape) && InRange(c, shape)
    requires forall i :: 0 <= i < |ls| ==> ls[i] == [c[i] + 1]
    ensures Selects(ls, shape, [Rank(c, shape)])
  {
    ProductOnes(Lens(ls));
    RankOrigin(Lens(ls));
    hide Rank, Product;
    forall d | InRange(d, Lens(ls)) ensures Coords(ls, d, shape) == c && d == Repeat<nat>(0, |ls|) {
      forall i | 0 <= i < |ls| ensures d[i] == 0 { assert d[i] < Lens(ls)[i] == 1; }
    }
  }

  lemma {:induction false} ListsWithin(args: seq<Arg>, shape: seq<nat>)
    requires |args| == |shape|
    ensures WellIndexed(args, shape) ==> AllWithin(Lists(args, shape), shape)
  {
  }

  /** The single-element shortcut is right exactly when no index list is empty. */
  lemma {:induction false} ShortcutCorrect(args: seq<Arg>, shape: seq<nat>, offset: int, c: seq<nat>)
    requires |args| == |shape| && LensScanned(args, shape, |args|, 1)
    requires CoordsScanned(args, shape, |args|, 1, offset, c)
    ensures WellIndexed(args, shape)
    ensures 0 <= offset < Product(shape) && (Correct(args, shape, [offset]) <==> !Degenerate(args, shape))
    ensures Degenerate(args, shape) ==> Product(Lens(Lists(args, shape))) == 0
    ensures forall i :: 0 <= i < |args| ==> Lens(Lists(args, shape))[i] <= 1
  {
    DegenerateScan(args, shape, 1);
    ShortcutWellIndexed(args, shape, offset, c);
    assert shape[..|args|] == shape;
    RankBound(c, shape);
    hide LensScanned, CoordsScanned, Degenerate, Resolved, Rank, Product, WellIndexed, AllWithin;
    var ls := Lists(args, shape);
    if Degenerate(args, shape) {
      var i :| 0 <= i < |args| && Resolved(args[i], shape[i]) == [];
      assert Lens(ls)[i] == 0;
      ProductZero(Lens(ls));
    } else {
      assert WellIndexed(args, shape) ==> AllWithin(ls, shape) by { ListsWithin(args, shape); }
      SingletonSelects(ls, shape, c);
      hide Selects;
    }
  }

  /** Subscripts that the operators answer with an error. */
  ghost predicate Refusable(length: nat, shape: seq<nat>, args: seq<Arg>) {
    || |args| != |shape| || Product(shape) > length
    || (exists i :: 0 <= i < |args| && Rejected(args, shape, i))
    || (MaxLen(args, shape) != 1 && !WellIndexed(args, shape))
  }

  ghost predicate SomeLong(len: seq<nat>) {
    exists i :: 0 <= i < |len| && len[i] > 1
  }

  /** What the operators find, for all subscripts: an error, the shortcut's element, or the
      selected positions with the extents above one as shape, or with the shape of the base
      when there are none. */
  ghost predicate Locates(length: nat, shape: seq<nat>, args: seq<Arg>, r: Located) {
    if Refusable(length, shape, args) then r == Refused
    else if MaxLen(args, shape) == 1 then
      r == Element(if Positive(shape) then Rank(Scalars(args, shape), shape) else Stray(args, shape))
    else
      var len := Lens(Lists(args, shape));
      r.Many? && Correct(args, shape, r.offsets) && r.shape == if SomeLong(len) then Compact(len) else shape
  }

  /** The subscripts determine what is found. */
  lemma {:induction false} LocatesUnique(length: nat, shape: seq<nat>, args: seq<Arg>, l: Located, m: Located)
    requires Locates(length, shape, args, l) && Locates(length, shape, args, m)
    ensures l == m
  {
    hide Rank, Compact, MaxLen, WellIndexed, Rejected, Product, SomeLong;
    if l.Many? && m.Many? {
      assert WellIndexed(args, shape);
      CorrectUnique(args, shape, l.offsets, m.offsets);
    }
  }

  /** What is found are the positions that the subscripts select. */
  ghost predicate Delivers(shape: seq<nat>, args: seq<Arg>, l: Located)
    requires WellIndexed(args, shape)
  {
    match l
    case Refused => false
    case Element(offset) => offset >= 0 && Correct(args, shape, [offset])
    case Many(offsets, _) => Correct(args, shape, offsets)
  }

  /** The elements at what was found, and their shape. */
  ghost predicate Answers<T>(data: seq<T>, l: Located, r: Result<T>) {
    match l
    case Refused => r == Fail
    case Element(offset) => r == if 0 <= offset < |data| then Ok([data[offset]], []) else Fail
    case Many(offsets, s) => r.Ok? && Copies(data, offsets, r.values) && r.shape == s
  }

  /** A reference to what was found: its one-based positions. A single element keeps the shape
      of the base, which the reference copies with the other attributes. */
  ghost predicate Refers(length: nat, shape: seq<nat>, l: Located, r: Result<int>) {
    match l
    case Refused => r == Fail
    case Element(offset) => r == Ok([offset + 1], shape)
    case Many(offsets, s) => r.Ok? && Copies(Iota(length), offsets, r.values) && r.shape == s
  }

  /** The shortcut's element is no element of the array: an extent is zero, and the array has no
      elements or a subscript before that extent is not an empty list. */
  ghost predicate Astray(length: nat, shape: seq<nat>, args: seq<Arg>)
    requires |args| == |shape|
  {
    && MaxLen(args, shape) == 1 && !Positive(shape)
    && (length == 0 || var z := FirstZero(shape); MaxLen(args[..z], shape[..z]) > 0)
  }

  /** What was found lies in the array. */
  predicate Inside(length: nat, l: Located) {
    l.Element? ==> 0 <= l.offset < length
  }

  /** Everything the copying and the referencing operator share. */
  method Locate(length: nat, shape: seq<nat>, args: seq<Arg>) returns (r: Located)
    ensures Locates(length, shape, args, r)
    ensures WellIndexed(args, shape) && Product(shape) <= length ==>
              (Delivers(shape, args, r) <==> !Degenerate(args, shape))
    ensures r != Refused ==> |args| == |shape| && (Inside(length, r) <==> !Astray(length, shape, args))
    ensures r.Many? ==> forall v :: 0 <= v < |r.offsets| ==> r.offsets[v] < length
  {
    hide Rejected, MaxLen, LensScanned, OffsetScanned, Degenerate, Rank, Scalars, Stray, Compact, Correct, AllWithin;
    if |args| != |shape| { return Refused; }
    var ok, factor, total, maxLen, offset, c := Scan(shape, args);
    if !ok {
      ghost var i :| 0 <= i < |args| && Rejected(args, shape, i);
      ScanRejects(args, shape, i);
      return Refused;
    }
    if total > length { return Refused; }
    DegenerateScan(args, shape, maxLen);
    if maxLen == 1 {
      LocateElement(length, shape, args, offset, c);
      return Element(offset);
    }
    r := LocateMany(length, shape, args, factor);
  }

  /** The shortcut's element. With a zero extent nothing is selected, and it is a stray one. */
  lemma {:induction false} LocateElement(length: nat, shape: seq<nat>, args: seq<Arg>, offset: int, c: seq<nat>)
    requires |args| == |shape| && LensScanned(args, shape, |args|, 1)
    requires OffsetScanned(args, shape, |args|, 1, offset, c) && Product(shape) <= length
    ensures offset == if Positive(shape) then Rank(Scalars(args, shape), shape) else Stray(args, shape)
    ensures 0 <= offset < length <==> !Astray(length, shape, args)
    ensures WellIndexed(args, shape) ==> (Delivers(shape, args, Element(offset)) <==> !Degenerate(args, shape))
  {
    DegenerateScan(args, shape, 1);
    assert args[..|args|] == args && shape[..|args|] == shape;
    if Positive(shape) {
      ScalarsScanned(args, shape, |args|, 1, offset, c);
      ShortcutCorrect(args, shape, offset, c);
    } else if WellIndexed(args, shape) {
      hide LensScanned, OffsetScanned, Stray, Rank, Product;
      ZeroSelectsNothing(args, shape);
    }
  }

  lemma {:induction false} FirstWithin(l: seq<int>, extent: nat)
    requires Within(l, extent)
    ensures l == [] || 1 <= l[0] <= extent
  {
  }

  lemma {:induction false} ZeroSelectsNothing(args: seq<Arg>, shape: seq<nat>)
    requires WellIndexed(args, shape) && !Positive(shape)
    ensures Product(Lens(Lists(args, shape))) == 0
    ensures exists i :: 0 <= i < |args| && Resolved(args[i], shape[i]) == []
  {
    var z, ls := FirstZero(shape), Lists(args, shape);
    FirstWithin(ls[z], shape[z]);
    assert Lens(ls)[z] == 0;
    ProductZero(Lens(ls));
  }

  /** The second pass and the general loop. */
  method LocateMany(length: nat, shape: seq<nat>, args: seq<Arg>, factor: seq<nat>) returns (r: Located)
    requires |args| == |shape| && Product(shape) <= length && forall i :: 0 <= i < |args| ==> args[i] != NonNumeric
    requires IsFactor(factor, shape) && |factor| == |shape|
    ensures r == Refused <==> !WellIndexed(args, shape)
    ensures r != Refused ==> r.Many? && Correct(args, shape, r.offsets)
    ensures r.Many? ==> var len := Lens(Lists(args, shape)); r.shape == if SomeLong(len) then Compact(len) else shape
    ensures r.Many? ==> forall v :: 0 <= v < |r.offsets| ==> r.offsets[v] < length
  {
    var fine, index, len, vecsize, isElement := Resolve(shape, args);
    if !fine { return Refused; }
    hide Rank, Compact;
    ghost var lens := len[..];
    assert isElement <==> !SomeLong(lens);
    var cur := new nat[|shape|](_ => 0);
    assert cur[..] == Repeat<nat>(0, |shape|);
    var offsets := Offsets(factor, index, len[..], vecsize, cur, shape);
    if isElement { return Many(offsets, shape); }
    var z := CompactShape(len);
    return Many(offsets, len[..z]);
  }

  /** What the shape attribute promises holds exactly here: the shortcut's element has none; a
      result with an extent above one has as many elements as its shape says when no list is
      empty; any other keeps the shape of the base, which is right only for a single cell. */
  ghost predicate ShapeRight(shape: seq<nat>, args: seq<Arg>)
    requires |args| == |shape|
  {
    var len := Lens(Lists(args, shape));
    MaxLen(args, shape) == 1
    || if SomeLong(len) then Positive(len) else Product(shape) == if Positive(len) then 1 else 0
  }

  /** The same for a reference: a single element's is right only when the base is one cell. */
  ghost predicate ViewShapeRight(shape: seq<nat>, args: seq<Arg>)
    requires |args| == |shape|
  {
    if MaxLen(args, shape) == 1 then Product(shape) == 1 else ShapeRight(shape, args)
  }

  lemma {:induction false} ShapeExact(length: nat, shape: seq<nat>, args: seq<Arg>, l: Located)
    requires Locates(length, shape, args, l) && l.Many?
    ensures Product(l.shape) == |l.offsets| <==> ShapeRight(shape, args)
  {
    hide Rank, Rejected, MaxLen, Compact;
    var len := Lens(Lists(args, shape));
    assert |l.offsets| == Product(len);
    CompactKeepsSize(len);
    if !Positive(len) {
      ProductZero(len);
    } else if !SomeLong(len) {
      forall i | 0 <= i < |len| ensures len[i] == 1 { assert 0 < len[i]; }
      ProductOnes(len);
    }
    hide Product, SomeLong;
  }

  /** `x[args]`: copies what is found. On well-formed subscripts these are the selected elements,
      exactly when the subscripts are not degenerate. */
  method Index<T>(data: seq<T>, shape: seq<nat>, args: seq<Arg>) returns (r: Result<T>, ghost l: Located)
    ensures Locates(|data|, shape, args, l) && Answers(data, l, r)
    ensures WellIndexed(args, shape) && Product(shape) <= |data| ==>
              (Delivers(shape, args, l) <==> !Degenerate(args, shape))
    ensures r.Ok? ==> (Product(r.shape) == |r.values| <==> ShapeRight(shape, args))
    ensures r.Ok? <==> l != Refused && !Astray(|data|, shape, args)
  {
    hide Degenerate, Product, Compact, Rank, Locates, Delivers, ShapeRight, Astray;
    var found := Locate(|data|, shape, args);
    l := found;
    LocatedShape(|data|, shape, args, l);
    match found {
      case Refused => r := Fail;
      case Element(offset) => r := if 0 <= offset < |data| then Ok([data[offset]], []) else Fail;
      case Many(offsets, s) => r := Ok(seq(|offsets|, v requires 0 <= v < |offsets| => data[offsets[v]]), s);
    }
  }

  /** `ref x[args]`: one-based positions in the base array of what is found. */
  method SubRef(length: nat, shape: seq<nat>, args: seq<Arg>) returns (r: Result<int>, ghost l: Located)
    ensures Locates(length, shape, args, l) && Refers(length, shape, l, r)
    ensures r.Ok? ==> |args| == |shape| && (Within(r.values, length) <==> !Astray(length, shape, args))
    ensures WellIndexed(args, shape) && Product(shape) <= length ==>
              (Delivers(shape, args, l) <==> !Degenerate(args, shape))
    ensures r.Ok? ==> (Product(r.shape) == |r.values| <==> ViewShapeRight(shape, args))
  {
    hide Degenerate, Product, Compact, Rank, Locates, Delivers, ShapeRight, Astray, Within;
    var found := Locate(length, shape, args);
    l := found;
    LocatedShape(length, shape, args, l);
    match found {
      case Refused => r := Fail;
      case Element(offset) => r := Ok([offset + 1], shape);
      case Many(offsets, s) => r := Ok(seq(|offsets|, v requires 0 <= v < |offsets| => offsets[v] + 1), s);
    }
    if r.Ok? { RefersWithin(length, shape, found, r); }
  }

  lemma {:induction false} RefersWithin(length: nat, shape: seq<nat>, l: Located, r: Result<int>)
    requires Refers(length, shape, l, r) && r.Ok?
    ensures Within(r.values, length) <==> Inside(length, l)
  {
    if l.Element? { assert r.values[0] == l.offset + 1; }
  }

  lemma {:induction false} LocatedShape(length: nat, shape: seq<nat>, args: seq<Arg>, l: Located)
    requires Locates(length, shape, args, l)
    ensures l != Refused ==> |args| == |shape|
    ensures l.Element? ==> ShapeRight(shape, args) && Product([]) == 1
    ensures l != Refused ==> (l.Element? <==> MaxLen(args, shape) == 1)
    ensures l.Many? ==> (Product(l.shape) == |l.offsets| <==> ShapeRight(shape, args))
  {
    if l.Many? { ShapeExact(length, shape, args, l); }
  }

  /** The subscripts determine the positions and their order. */
  lemma {:induction false} CorrectUnique(args: seq<Arg>, shape: seq<nat>, o: seq<nat>, p: seq<nat>)
    requires WellIndexed(args, shape) && Correct(args, shape, o) && Correct(args, shape, p)
    ensures o == p
  {
    var len := Lens(Lists(args, shape));
    forall v | 0 <= v < |o| ensures o[v] == p[v] {
      if !Positive(len) { ProductZero(len); }
      RankOfUnrank(v, len);
    }
  }

  /** A reference view agrees with a copy, on all subscripts: both operators fail together, and
      otherwise reading the base through the positions that `ref x[args]` produced gives what
      `x[args]` copied. Their shapes are equal exactly when the shortcut is not taken. */
  lemma {:induction false} ViewAgreesWithCopy<T>(data: seq<T>, shape: seq<nat>, args: seq<Arg>,
                                                 l: Located, copy: Result<T>, m: Located, view: Result<int>)
    requires Locates(|data|, shape, args, l) && Answers(data, l, copy)
    requires Locates(|data|, shape, args, m) && Refers(|data|, shape, m, view)
    ensures copy.Ok? <==> view.Ok? && Inside(|data|, m)
    ensures copy.Ok? ==> |copy.values| == |view.values|
    ensures copy.Ok? ==> forall v :: 0 <= v < |copy.values| ==>
              1 <= view.values[v] <= |data| && copy.values[v] == data[view.values[v] - 1]
    ensures copy.Ok? ==> |args| == |shape| && (copy.shape == view.shape <==> MaxLen(args, shape) != 1)
  {
    LocatesUnique(|data|, shape, args, l, m);
    assert shape == [] && |args| == 0 ==> MaxLen(args, shape) == 0;
    assert l != Refused ==> |args| == |shape| && (l.Element? <==> MaxLen(args, shape) == 1);
    hide Locates, MaxLen;
  }

  lemma {:induction false} TwoMaxLen(a: Arg, b: Arg)
    ensures var m := if Length(a, 2) > 0 then Length(a, 2) else 0;
            && MaxLen([a, b][..1], [2, 2][..1]) == m && MaxLen([a, b][..2], [2, 2][..2]) == MaxLen([a, b], [2, 2])
            && MaxLen([a, b], [2, 2]) == if Length(b, 2) > m then Length(b, 2) else m
  {
    var args, shape := [a, b], [2, 2];
    MaxLenSnoc(args, shape, 0);
    MaxLenSnoc(args, shape, 1);
    assert args[..2] == args && shape[..2] == shape && MaxLen(args[..0], shape[..0]) == 0;
  }

  /** A degenerate case: on a two by two matrix an empty first list and the second index 1
      select nothing, yet the shortcut answers with the first element. */
  lemma {:induction false} DegenerateExample()
    ensures var args, shape := [Ints([]), Ints([1])], [2, 2];
            && WellIndexed(args, shape) && Degenerate(args, shape) && Locates(4, shape, args, Element(0))
            && Correct(args, shape, []) && !Correct(args, shape, [0])
  {
    var args, shape := [Ints([]), Ints([1])], [2, 2];
    TwoMaxLen(args[0], args[1]);
    TwoLists(args[0], args[1]);
    TwoByTwo();
    assert [0, 1][0] == 0;
    ProductZero([0, 1]);
    NothingSelected([[], [1]], shape);
    assert Resolved(args[0], shape[0]) == [] && Resolved(args[1], shape[1]) == [1];
    hide MaxLen, Product, Rank, Resolved, WellIndexed;
    assert Scalars(args, shape) == [0, 0];
    forall i | 0 <= i < 2 ensures !Rejected(args, shape, i) {}
  }

  lemma {:induction false} TwoByTwo()
    ensures Product([2, 2]) == 4 && Rank([0, 0], [2, 2]) == 0
  {
    assert [2, 2][1..] == [2] && [2][1..] == [] && [0, 0][1..] == [0] && [0][1..] == [];
    assert Product([2]) == 2 * Product([]);
  }

  /** On a two by two matrix, two subscripts of which the first has not one element and the
      second has two. */
  lemma {:induction false} TwoLocated(a: Arg, b: Arg, offsets: seq<nat>, s: seq<nat>)
    requires (a.Ints? || a.Mask?) && (b.Ints? || b.Mask?) && Length(a, 2) != 1 && Length(b, 2) == 2
    requires WellIndexed([a, b], [2, 2]) && Correct([a, b], [2, 2], offsets)
    requires var len := Lens(Lists([a, b], [2, 2])); s == if SomeLong(len) then Compact(len) else [2, 2]
    ensures MaxLen([a, b], [2, 2]) != 1 && Locates(4, [2, 2], [a, b], Many(offsets, s))
  {
    TwoMaxLen(a, b);
    TwoByTwo();
    hide MaxLen, Product, WellIndexed, Correct, Compact, SomeLong, Length;
    var args, shape := [a, b], [2, 2];
    forall i | 0 <= i < 2 ensures !Rejected(args, shape, i) {
      if i == 0 { assert args[0] == a; } else { assert args[1] == b; }
    }
    hide Rejected;
  }

  lemma {:induction false} FirstBit()
    ensures TruePositions([true, false]) == [1]
  {
    assert [true, false][..1] == [true] && [true][..0] == [];
    assert TruePositions([true]) == [1];
  }

  lemma {:induction false} TwoLists(a: Arg, b: Arg)
    requires a != NonNumeric && b != NonNumeric && Within(Resolved(a, 2), 2) && Within(Resolved(b, 2), 2)
    ensures Lists([a, b], [2, 2]) == [Resolved(a, 2), Resolved(b, 2)] && WellIndexed([a, b], [2, 2])
    ensures Lens(Lists([a, b], [2, 2])) == [|Resolved(a, 2)|, |Resolved(b, 2)|]
  {
    hide Resolved;
    var ls := Lists([a, b], [2, 2]);
    assert |ls| == 2 && ls[0] == Resolved(a, 2) && ls[1] == Resolved(b, 2);
  }

  /** A shape that is not right: two masks with one true bit each select one element, which
      keeps the shape of the two by two base. */
  lemma {:induction false} ShapeKeptExample()
    ensures var args, shape := [Mask([true, false]), Mask([true, false])], [2, 2];
            !ShapeRight(shape, args) && Locates(4, shape, args, Many([0], shape))
  {
    var m := Mask([true, false]);
    FirstBit();
    TwoLists(m, m);
    hide TruePositions;
    SingletonSelects([[1], [1]], [2, 2], [0, 0]);
    TwoByTwo();
    assert !SomeLong([1, 1]);
    hide Selects, Product, Rank, Compact, SomeLong;
    TwoLocated(m, m, [0], [2, 2]);
    hide Locates, MaxLen, Resolved;
  }

  /** A shape that is not right: an empty list beside two indices selects nothing, and the zero
      extent is dropped from the shape. */
  lemma {:induction false} ZeroExtentExample()
    ensures var args, shape := [Ints([]), Ints([1, 2])], [2, 2];
            !ShapeRight(shape, args) && Locates(4, shape, args, Many([], [2]))
  {
    var a, b := Ints([]), Ints([1, 2]);
    TwoLists(a, b);
    assert [0, 2][0] == 0 && [0, 2][1] == 2;
    ProductZero([0, 2]);
    assert [0, 2][..1] == [0] && [0][..0] == [];
    assert Compact([0]) == Compact([]) + [] == [];
    assert Compact([0, 2]) == [] + [2];
    NothingSelected([[], [1, 2]], [2, 2]);
    hide Selects, Product, Rank, Compact;
    TwoLocated(a, b, [], [2]);
    hide Locates, MaxLen, Resolved;
  }

  lemma {:induction false} NothingSelected(ls: seq<seq<int>>, shape: seq<nat>)
    requires AllWithin(ls, shape) && ls != [] && ls[0] == []
    ensures Selects(ls, shape, [])
  {
    assert Lens(ls)[0] == 0;
    ProductZero(Lens(ls));
  }

  /** A reference to a single element of a two by two matrix keeps the shape of the matrix; the
      copy has none. */
  lemma {:induction false} SingleReferenceExample()
    ensures var args, shape := [Ints([1]), Ints([1])], [2, 2];
            && Locates(4, shape, args, Element(0)) && Refers(4, shape, Element(0), Ok([1], shape))
            && Answers([7, 8, 9, 10], Element(0), Ok([7], []))
            && !ViewShapeRight(shape, args) && ShapeRight(shape, args)
  {
    var args, shape := [Ints([1]), Ints([1])], [2, 2];
    TwoMaxLen(args[0], args[1]);
    TwoLists(args[0], args[1]);
    TwoByTwo();
    assert Resolved(args[0], shape[0]) == [1] && Resolved(args[1], shape[1]) == [1];
    hide MaxLen, Product, Rank, Resolved, WellIndexed;
    assert Scalars(args, shape) == [0, 0];
    forall i | 0 <= i < 2 ensures !Rejected(args, shape, i) {}
  }

  /** With a zero extent: a reference to a row of a one by none matrix names position 0, where
      the copy fails. */
  lemma {:induction false} StrayExample()
    ensures var args, shape := [Ints([1]), Missing], [1, 0];
            && Locates(0, shape, args, Element(-1)) && Astray(0, shape, args)
            && Refers(0, shape, Element(-1), Ok([0], shape)) && Answers<int>([], Element(-1), Fail)
  {
    var args, shape := [Ints([1]), Missing], [1, 0];
    assert args[..1] == [Ints([1])] && shape[..1] == [1] && args[..2] == args && shape[..2] == shape;
    assert [Ints([1])][..0] == [] && [1][..0] == [] && shape[1..] == [0] && [0][1..] == [] && [1][1..] == [];
    assert MaxLen([Ints([1])], [1]) == 1 && MaxLen(args, shape) == 1;
    assert !Positive(shape) by { assert shape[1] == 0; }
    assert FirstZero(shape) == 1;
    assert Scalars([Ints([1])], [1]) == [0];
    assert Rank([0], [1]) == 0 by { assert [0][1..] == []; }
    assert Product([1]) == 1 && Product(shape) == 0;
    hide MaxLen, Product, Rank, Positive, FirstZero, Scalars;
    assert Stray(args, shape) == -1;
    forall i | 0 <= i < 2 ensures !Rejected(args, shape, i) {}
  }
}
