/**
 Primality testing and the choice of a table capacity, from the top of src/hashtable.c.

 `size_t` is 64 bits wide, so the search for a prime wraps around at 2^64. The value of
 `floor(sqrt(x))` is taken to be the exact integer square root.
 */
module Primes {

  const SIZE_T_LIMIT: nat := 0x1_0000_0000_0000_0000

  ghost predicate Prime(x: nat) {
    2 <= x && forall d :: 2 <= d < x ==> x % d != 0
  }

  /** What the primality test accepts: the primes, and 1. */
  ghost predicate Accepted(x: nat) {
    x == 1 || Prime(x)
  }

  function FloorSqrt(x: nat): (r: nat)
    ensures r * r <= x < (r + 1) * (r + 1)
  {
    if x == 0 then 0
    else
      var p := FloorSqrt(x - 1);
      if (p + 1) * (p + 1) <= x then p + 1 else p
  }

  // ---------------------------------------------------------------- arithmetic

  lemma MulAtLeast(a: nat, b: nat, c: nat, d: nat)
    requires a <= b && c <= d
    ensures a * c <= b * d
  {
    assert a * c <= b * c;
    assert b * c <= b * d;
  }

  lemma DivModUnique(q: int, d: nat, r: nat)
    requires r < d
    ensures (q * d + r) % d == r
    ensures (q * d + r) / d == q
  {
    var x := q * d + r;
    var e := q - x / d;
    assert x == (x / d) * d + x % d;
    assert e * d == x % d - r;
    if e >= 1 {
      MulAtLeast(1, e, d, d);
    }
    assert e == 0;
  }

  lemma FactorOf(x: nat, d: nat)
    requires 1 <= d && x % d == 0
    ensures x == d * (x / d)
  {
  }

  lemma ProductIsMultiple(a: nat, b: nat)
    requires 1 <= a
    ensures (a * b) % a == 0
  {
    DivModUnique(b, a, 0);
    assert b * a == a * b;
  }

  lemma SuccessorOfMultiple(x: nat, d: nat)
    requires 2 <= d && x % d == 0
    ensures (x + 1) % d == 1
  {
    FactorOf(x, d);
    DivModUnique(x / d, d, 1);
  }

  // ------------------------------------------- trial division up to the root

  /** A composite number has a divisor no larger than its square root. */
  lemma SmallDivisor(x: nat, d: nat) returns (s: nat)
    requires 2 <= d < x && x % d == 0
    ensures 2 <= s <= FloorSqrt(x) && s < x && x % s == 0
  {
    var e := x / d;
    var r := FloorSqrt(x);
    FactorOf(x, d);
    assert e >= 2 by {
      if e <= 1 {
        MulAtLeast(d, d, e, 1);
      }
    }
    if d <= r {
      s := d;
    } else {
      if e > r {
        MulAtLeast(r + 1, d, r + 1, e);
        assert false;
      }
      s := e;
      ProductIsMultiple(e, d);
      assert e * d == d * e;
      MulAtLeast(2, d, e, e);
    }
  }

  lemma TrialDivisionSuffices(x: nat)
    requires 2 <= x
    ensures Prime(x) <==> forall d :: 2 <= d <= FloorSqrt(x) ==> x % d != 0
  {
    if Prime(x) {
      forall d | 2 <= d <= FloorSqrt(x)
        ensures x % d != 0
      {
        MulAtLeast(2, d, d, FloorSqrt(x));
        MulAtLeast(d, FloorSqrt(x), FloorSqrt(x), FloorSqrt(x));
        assert d < x;
      }
    } else {
      var d :| 2 <= d < x && x % d == 0;
      var s := SmallDivisor(x, d);
    }
  }

  /** is_prime: accepts exactly the primes and 1, trying divisors only up to the root. */
  method IsPrime(x: nat) returns (accepted: bool)
    requires x < SIZE_T_LIMIT
    ensures accepted <==> Accepted(x)
  {
    if x == 0 {
      return false;
    }
    if x == 1 {
      return true;
    }
    TrialDivisionSuffices(x);
    var i := 2;
    while i <= FloorSqrt(x)
      invariant 2 <= i
      invariant forall d :: 2 <= d < i ==> x % d != 0
    {
      if x % i == 0 {
        return false;
      }
      i := i + 1;
    }
    return true;
  }

  // ------------------------------------------------ there is always a larger prime

  ghost function Factorial(n: nat): (f: nat)
    ensures f >= 1
  {
    if n == 0 then 1 else
      MulAtLeast(1, n, 1, Factorial(n - 1));
      n * Factorial(n - 1)
  }

  lemma {:induction false} FactorialMultiple(n: nat, d: nat)
    requires 1 <= d <= n
    ensures Factorial(n) % d == 0
  {
    if d == n {
      ProductIsMultiple(n, Factorial(n - 1));
    } else {
      FactorialMultiple(n - 1, d);
      var q := Factorial(n - 1) / d;
      FactorOf(Factorial(n - 1), d);
      calc {
        Factorial(n);
        n * (d * q);
        d * (n * q);
      }
      ProductIsMultiple(d, n * q);
    }
  }

  lemma LeastDivisorIsPrime(m: nat, p: nat)
    requires 2 <= p <= m && m % p == 0
    requires forall d :: 2 <= d < p ==> m % d != 0
    ensures Prime(p)
  {
    forall d | 2 <= d < p
      ensures p % d != 0
    {
      if p % d == 0 {
        FactorOf(p, d);
        FactorOf(m, p);
        var a, b := p / d, m / p;
        calc {
          m;
          (d * a) * b;
          d * (a * b);
        }
        ProductIsMultiple(d, a * b);
      }
    }
  }

  lemma PrimeDivisor(m: nat) returns (p: nat)
    requires 2 <= m
    ensures p <= m && Prime(p) && m % p == 0
  {
    p := 2;
    while m % p != 0
      invariant 2 <= p <= m
      invariant forall d :: 2 <= d < p ==> m % d != 0
      decreases m - p
    {
      p := p + 1;
    }
    LeastDivisorIsPrime(m, p);
  }

  /** Primes are unbounded: some prime lies at or above every number. */
  lemma PrimesUnbounded(start: nat) returns (p: nat)
    ensures start <= p && Prime(p)
  {
    var f := Factorial(start);
    p := PrimeDivisor(f + 1);
    if p < start {
      FactorialMultiple(start, p);
      SuccessorOfMultiple(f, p);
      assert false;
    }
  }

  // ---------------------------------------------------------------- next_prime

  ghost predicate IsLeastAccepted(start: nat, r: nat) {
    start <= r && Accepted(r) && forall x :: start <= x < r ==> !Accepted(x)
  }

  lemma LeastAcceptedExists(start: nat)
    ensures exists r :: IsLeastAccepted(start, r)
  {
    var p := PrimesUnbounded(start);
    var r := start;
    while !Accepted(r)
      invariant start <= r <= p
      invariant forall x :: start <= x < r ==> !Accepted(x)
      decreases p - r
    {
      r := r + 1;
    }
    assert IsLeastAccepted(start, r);
  }

  ghost function LeastAccepted(start: nat): (r: nat)
    ensures IsLeastAccepted(start, r)
  {
    LeastAcceptedExists(start);
    var r :| IsLeastAccepted(start, r);
    r
  }

  /** The counter wraps from 2^64 - 1 to 0, then reaches 1, which is_prime accepts. */
  ghost function ProbesLeft(x: nat): nat {
    if x == 1 then 0 else if x == 0 then 1 else if x < SIZE_T_LIMIT then SIZE_T_LIMIT - x + 1 else 0
  }

  /**
   next_prime: the least accepted number at or above `start`, unless none fits in a
   `size_t`, in which case the counter wraps and the result is 1.
   */
  method NextPrime(start: nat) returns (r: nat)
    requires start < SIZE_T_LIMIT
    ensures 1 <= r < SIZE_T_LIMIT && Accepted(r)
    ensures r == if LeastAccepted(start) < SIZE_T_LIMIT then LeastAccepted(start) else 1
  {
    r := start;
    var accepted := IsPrime(r);
    ghost var wrapped := false;
    while !accepted
      invariant r < SIZE_T_LIMIT && (accepted <==> Accepted(r))
      invariant !wrapped ==> start <= r && forall x :: start <= x < r ==> !Accepted(x)
      invariant wrapped ==> r <= 1 && LeastAccepted(start) >= SIZE_T_LIMIT
      decreases ProbesLeft(r)
    {
      if r == SIZE_T_LIMIT - 1 {
        wrapped := true;
        assert LeastAccepted(start) >= SIZE_T_LIMIT;
      }
      r := (r + 1) % SIZE_T_LIMIT;
      accepted := IsPrime(r);
    }
  }
}
