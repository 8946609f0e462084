/** Choosing a prime number of hash buckets. */
module Primes {

  ghost predicate Divides(d: nat, n: nat)
    requires d > 0
  {
    n % d == 0
  }

  ghost predicate Prime(n: int) {
    n >= 2 && forall d :: 2 <= d < n ==> !Divides(d, n)
  }

  lemma {:induction false} MulMonotone(a: nat, b: nat, c: nat, d: nat)
    requires a <= c && b <= d
    ensures a * b <= c * d
  {
    assert c * d == a * b + (c - a) * d + a * (d - b);
  }

  lemma {:induction false} Cofactor(d: nat, n: nat) returns (e: nat)
    requires d > 0 && Divides(d, n)
    ensures n == d * e
  {
    e := n / d;
  }

  lemma {:induction false} ProductDivisible(d: nat, e: nat)
    requires d > 0
    ensures Divides(d, d * e)
  {
    var q, r := (d * e) / d, (d * e) % d;
    assert d * e == d * q + r;
    if q < e {
      MulMonotone(d, q + 1, d, e);
    } else if q > e {
      MulMonotone(d, e + 1, d, q);
    }
  }

  /** Trial division up to the square root is enough. */
  lemma {:induction false} SquareRootSuffices(n: nat, j: nat)
    requires n >= 2 && j >= 2 && j * j > n && forall d :: 2 <= d < j ==> !Divides(d, n)
    ensures Prime(n)
  {
    forall d | 2 <= d < n ensures !Divides(d, n) {
      if Divides(d, n) {
        var e := Cofactor(d, n);
        if e >= j { MulMonotone(j, j, d, e); }
        ProductDivisible(e, d);
      }
    }
  }

  /** The trial division; it does not test whether its argument exceeds one, and calls every
      even number composite. */
  method IsPrime(n: int) returns (r: bool)
    ensures n >= 3 ==> (r <==> Prime(n))
    ensures n < 3 ==> (r <==> n % 2 == 1)
  {
    if n % 2 == 0 {
      if n >= 3 { assert Divides(2, n); }
      return false;
    }
    var j := 3;
    while j * j <= n
      invariant j >= 3
      invariant n >= 3 ==> forall d :: 2 <= d < j ==> !Divides(d, n)
      decreases n - j * j
    {
      if n % j == 0 {
        assert Divides(j, n);
        MulMonotone(3, j, j, j);
        return false;
      }
      j := j + 1;
    }
    if n >= 3 { SquareRootSuffices(n, j); }
    return true;
  }

  /** Trial division answers correctly exactly from three upwards and on even numbers below
      one. */
  lemma {:induction false} TrialDivisionCorrect(n: int, r: bool)
    requires (n >= 3 ==> (r <==> Prime(n))) && (n < 3 ==> (r <==> n % 2 == 1))
    ensures (r <==> Prime(n)) <==> n >= 3 || (n <= 0 && n % 2 == 0)
  {
    assert Prime(2);
  }

  // ----- there is always a next prime -----

  ghost function Factorial(n: nat): nat {
    if n == 0 then 1 else n * Factorial(n - 1)
  }

  lemma {:induction false} DividesFactorial(d: nat, n: nat)
    requires 1 <= d <= n
    ensures Divides(d, Factorial(n))
  {
    if d == n {
      ProductDivisible(d, Factorial(n - 1));
    } else {
      DividesFactorial(d, n - 1);
      var e := Cofactor(d, Factorial(n - 1));
      assert Factorial(n) == d * (n * e) by { assert n * (d * e) == d * (n * e); }
      ProductDivisible(d, n * e);
    }
  }

  lemma {:induction false} LeastDivisor(n: nat, d: nat) returns (p: nat)
    requires 2 <= d <= n && Divides(d, n)
    ensures Prime(p) && Divides(p, n)
  {
    if e :| 2 <= e < d && Divides(e, d) {
      var a := Cofactor(e, d);
      var b := Cofactor(d, n);
      assert n == e * (a * b) by { assert (e * a) * b == e * (a * b); }
      ProductDivisible(e, a * b);
      p := LeastDivisor(n, e);
    } else {
      p := d;
    }
  }

  /** There are primes beyond every bound. */
  lemma {:induction false} PrimeBeyond(n: nat) returns (p: nat)
    ensures p > n && Prime(p)
  {
    var m := Factorial(n) + 1;
    FactorialPositive(n);
    assert Divides(m, m);
    p := LeastDivisor(m, m);
    if p <= n {
      DividesFactorial(p, n);
      var a := Cofactor(p, m);
      var b := Cofactor(p, Factorial(n));
      Consecutive(p, a, b);
    }
  }

  lemma {:induction false} Consecutive(p: nat, a: nat, b: nat)
    requires p >= 2
    ensures p * a != p * b + 1
  {
    if a <= b {
      MulMonotone(p, a, p, b);
    } else {
      MulMonotone(p, b + 1, p, a);
    }
  }

  lemma {:induction false} FactorialPositive(n: nat)
    ensures Factorial(n) >= 1
  {
    if n > 0 {
      FactorialPositive(n - 1);
      MulMonotone(1, 1, n, Factorial(n - 1));
    }
  }

  ghost predicate LeastPrimeFrom(n: int, p: int) {
    n <= p && Prime(p) && forall m :: n <= m < p ==> !Prime(m)
  }

  /** The search ends for every start, and yields the least prime not below it exactly when the
      start is at least three. */
  method NextPrime(n: int) returns (r: int)
    ensures LeastPrimeFrom(n, r) <==> n >= 3
    ensures r >= n && (n < 3 ==> r == if n == 2 then 3 else if n % 2 == 1 then n else n + 1)
  {
    ghost var bound: int;
    if n >= 3 {
      bound := PrimeBeyond(n);
    } else {
      bound := 3;
      assert Prime(3) by { assert !Divides(2, 3); }
    }
    r := n;
    var found := IsPrime(r);
    while !found
      invariant n <= r <= bound && Prime(bound) && bound >= 3
      invariant found <==> if r >= 3 then Prime(r) else r % 2 == 1
      invariant forall m :: n <= m < r && m >= 3 ==> !Prime(m)
      invariant n < 3 ==> r <= (if n == 2 then 3 else if n % 2 == 1 then n else n + 1)
      decreases bound - r
    {
      r := r + 1;
      found := IsPrime(r);
    }
    assert Prime(2);
  }
}
