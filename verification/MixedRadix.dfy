/** Column-major addressing: strides, mixed-radix ranks and the odometer that
    n-dimensional subscripting, sub-references and picking share. */
module MixedRadix {
  import opened Common

  /** Number of cells of an array with the given extents. */
  function Product(s: seq<nat>): nat {
    if s == [] then 1 else s[0] * Product(s[1..])
  }

  ghost predicate Positive(s: seq<nat>) {
    forall i :: 0 <= i < |s| ==> 0 < s[i]
  }

  /** `d` is one zero-based coordinate per dimension, each inside its extent. */
  ghost predicate InRange(d: seq<nat>, s: seq<nat>) {
    |d| == |s| && forall i :: 0 <= i < |s| ==> d[i] < s[i]
  }

  /** Column-major rank of a coordinate vector: the first dimension varies fastest. */
  ghost function Rank(d: seq<nat>, s: seq<nat>): nat
    requires |d| == |s|
  {
    if s == [] then 0 else d[0] + s[0] * Rank(d[1..], s[1..])
  }

  lemma {:induction false} MulStep(a: nat, x: nat, y: nat)
    requires x < y
    ensures a * x + a <= a * y
  {
    if x + 1 < y {
      MulStep(a, x, y - 1);
    }
  }

  lemma {:induction false} Distribute(a: nat, x: nat, y: nat)
    ensures a * (x + y) == a * x + a * y
  {
  }

  lemma {:induction false} Associate(a: nat, x: nat, y: nat)
    ensures a * (x * y) == (a * x) * y
  {
  }

  lemma {:induction false} ProductPositive(s: seq<nat>)
    requires Positive(s)
    ensures 0 < Product(s)
  {
    if s != [] {
      ProductPositive(s[1..]);
      MulStep(s[0], 0, Product(s[1..]));
    }
  }

  /** Ranks of in-range coordinates stay inside the array. */
  lemma {:induction false} RankBound(d: seq<nat>, s: seq<nat>)
    requires InRange(d, s)
    ensures Rank(d, s) < Product(s)
  {
    if s != [] {
      RankBound(d[1..], s[1..]);
      MulStep(s[0], Rank(d[1..], s[1..]), Product(s[1..]));
    }
  }

  /** Distinct in-range coordinates have distinct ranks. */
  lemma {:induction false} RankInjective(d: seq<nat>, e: seq<nat>, s: seq<nat>)
    requires InRange(d, s) && InRange(e, s) && Rank(d, s) == Rank(e, s)
    ensures d == e
  {
    if s != [] {
      var x, y := Rank(d[1..], s[1..]), Rank(e[1..], s[1..]);
      if x < y {
        MulStep(s[0], x, y);
      } else if y < x {
        MulStep(s[0], y, x);
      }
      RankInjective(d[1..], e[1..], s[1..]);
      assert d == [d[0]] + d[1..] && e == [e[0]] + e[1..];
    }
  }

  /** One turn of the odometer: bump the first counter, carrying into the next when it
      reaches its limit. */
  function Advance(d: seq<nat>, s: seq<nat>): (r: seq<nat>)
    requires |d| == |s|
    ensures |r| == |s|
  {
    if s == [] then []
    else if d[0] + 1 < s[0] then [d[0] + 1] + d[1..]
    else [0] + Advance(d[1..], s[1..])
  }

  /** The odometer counts: one turn raises the rank by one... */
  lemma {:induction false} AdvanceCounts(d: seq<nat>, s: seq<nat>)
    requires InRange(d, s) && Rank(d, s) + 1 < Product(s)
    ensures InRange(Advance(d, s), s) && Rank(Advance(d, s), s) == Rank(d, s) + 1
  {
    if s != [] {
      var t, r, p := s[1..], Rank(d[1..], s[1..]), Product(s[1..]);
      if d[0] + 1 < s[0] {
        assert Advance(d, s)[1..] == d[1..];
      } else {
        RankBound(d[1..], t);
        Distribute(s[0], r, 1);
        AdvanceCounts(d[1..], t);
        assert Advance(d, s)[1..] == Advance(d[1..], t);
      }
    }
  }

  /** ... and from the last coordinate it returns every counter to zero. */
  lemma {:induction false} AdvanceWraps(d: seq<nat>, s: seq<nat>)
    requires InRange(d, s) && Rank(d, s) + 1 == Product(s)
    ensures Advance(d, s) == Repeat<nat>(0, |s|)
  {
    if s != [] {
      var r, p := Rank(d[1..], s[1..]), Product(s[1..]);
      RankBound(d[1..], s[1..]);
      MulStep(s[0], r, p);
      if r + 1 < p {
        MulStep(s[0], r + 1, p);
        Distribute(s[0], r, 1);
      }
      AdvanceWraps(d[1..], s[1..]);
    }
  }

  lemma {:induction false} RankOrigin(s: seq<nat>)
    ensures Rank(Repeat<nat>(0, |s|), s) == 0
  {
    if s != [] {
      RankOrigin(s[1..]);
      assert Repeat<nat>(0, |s|)[1..] == Repeat<nat>(0, |s[1..]|);
    }
  }

  /** The coordinates with rank `v`. */
  ghost function Unrank(v: nat, s: seq<nat>): (d: seq<nat>)
    ensures |d| == |s|
  {
    if v == 0 then Repeat<nat>(0, |s|) else Advance(Unrank(v - 1, s), s)
  }

  /** Every position of the array is the rank of some coordinates. */
  lemma {:induction false} RankOfUnrank(v: nat, s: seq<nat>)
    requires Positive(s) && v < Product(s)
    ensures InRange(Unrank(v, s), s) && Rank(Unrank(v, s), s) == v
  {
    if v == 0 {
      RankOrigin(s);
    } else {
      RankOfUnrank(v - 1, s);
      AdvanceCounts(Unrank(v - 1, s), s);
    }
  }

  lemma {:induction false} ProductSnoc(s: seq<nat>, i: nat)
    requires i < |s|
    ensures Product(s[..i + 1]) == Product(s[..i]) * s[i]
  {
    if i == 0 {
      assert s[..1] == [s[0]];
      assert Product(s[..1]) == s[0] * Product([]);
    } else {
      ProductSnoc(s[1..], i - 1);
      assert s[..i + 1][1..] == s[1..][..i] && s[..i][1..] == s[1..][..i - 1];
      Associate(s[0], Product(s[1..][..i - 1]), s[i]);
    }
  }

  lemma {:induction false} ProductAppend(s: seq<nat>, x: nat)
    ensures Product(s + [x]) == Product(s) * x
  {
    ProductSnoc(s + [x], |s|);
    assert (s + [x])[..|s|] == s && (s + [x])[..|s| + 1] == s + [x];
  }

  /** Adding one more dimension to a rank: its stride is the product of the earlier extents. */
  lemma {:induction false} RankSnoc(d: seq<nat>, s: seq<nat>, i: nat)
    requires |d| == |s| && i < |s|
    ensures Rank(d[..i + 1], s[..i + 1]) == Rank(d[..i], s[..i]) + Product(s[..i]) * d[i]
  {
    if i == 0 {
      assert d[..1] == [d[0]] && s[..1] == [s[0]];
      assert Rank(d[..1], s[..1]) == d[0] + s[0] * Rank([], []);
    } else {
      RankSnoc(d[1..], s[1..], i - 1);
      assert s[..i + 1][1..] == s[1..][..i] && s[..i][1..] == s[1..][..i - 1];
      assert d[..i + 1][1..] == d[1..][..i] && d[..i][1..] == d[1..][..i - 1];
      var e, p := Rank(d[1..][..i - 1], s[1..][..i - 1]), Product(s[1..][..i - 1]);
      Distribute(s[0], e, p * d[i]);
      Associate(s[0], p, d[i]);
    }
  }

  /** The first coordinate runs fastest: a step in the second is as long as the first extent. */
  lemma {:induction false} ColumnMajor(x: nat, y: nat, n: nat, m: nat)
    ensures Rank([x, y], [n, m]) == x + y * n && Product([n, m]) == n * m
  {
    assert [x, y][1..] == [y] && [y][1..] == [] && [n, m][1..] == [m] && [m][1..] == [];
    assert Rank([y], [m]) == y && Product([m]) == m;
  }
}
