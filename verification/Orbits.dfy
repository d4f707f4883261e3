/**
 Orbits of a constant step modulo a capacity: the slots that a probe sequence
 `loc = (loc + step) % cap` visits. The length of an orbit is the number of probes after
 which it first returns to where it began, which is the wrap-around test of
 src/hashtable.c.
 */
module Orbits {
  import opened Primes

  function Orbit(start: nat, step: nat, cap: nat, i: nat): (loc: nat)
    requires cap > 0
    ensures loc < cap
  {
    if i == 0 then start % cap else (Orbit(start, step, cap, i - 1) + step) % cap
  }

  // ---------------------------------------------------------------- injectivity

  lemma ShiftInjective(x: nat, y: nat, step: nat, cap: nat)
    requires x < cap && y < cap
    requires (x + step) % cap == (y + step) % cap
    ensures x == y
  {
    var a, b := x + step, y + step;
    var e := a / cap - b / cap;
    assert a == cap * (a / cap) + a % cap;
    assert b == cap * (b / cap) + b % cap;
    assert a - b == cap * e;
    if e >= 1 {
      MulAtLeast(cap, cap, 1, e);
    } else if e <= -1 {
      MulAtLeast(cap, cap, 1, -e);
    }
  }

  /** A coincidence between two probes can be pulled back to the first probe. */
  lemma {:induction false} PullBack(start: nat, step: nat, cap: nat, i: nat, j: nat)
    requires cap > 0 && i <= j
    requires Orbit(start, step, cap, i) == Orbit(start, step, cap, j)
    ensures Orbit(start, step, cap, j - i) == Orbit(start, step, cap, 0)
  {
    if i > 0 {
      ShiftInjective(Orbit(start, step, cap, i - 1), Orbit(start, step, cap, j - 1), step, cap);
      PullBack(start, step, cap, i - 1, j - 1);
    }
  }

  lemma {:induction false} Recurs(start: nat, step: nat, cap: nat, i: nat, p: nat)
    requires cap > 0 && Orbit(start, step, cap, p) == Orbit(start, step, cap, 0)
    ensures Orbit(start, step, cap, i + p) == Orbit(start, step, cap, i)
  {
    if i > 0 {
      Recurs(start, step, cap, i - 1, p);
    }
  }

  lemma {:induction false} RecursManyTimes(start: nat, step: nat, cap: nat, i: nat, p: nat, times: nat)
    requires cap > 0 && Orbit(start, step, cap, p) == Orbit(start, step, cap, 0)
    ensures Orbit(start, step, cap, times * p + i) == Orbit(start, step, cap, i)
    decreases times
  {
    if times > 0 {
      RecursManyTimes(start, step, cap, i, p, times - 1);
      OneTimeMore(i, p, times);
      Recurs(start, step, cap, (times - 1) * p + i, p);
    }
  }

  lemma OneTimeMore(i: nat, p: nat, times: nat)
    requires times > 0
    ensures (times - 1) * p >= 0 && times * p + i == ((times - 1) * p + i) + p
  {
    assert times * p == (times - 1) * p + p;
  }

  // ---------------------------------------------------------------- closed form

  /** How often the probe has gone past the end of the table after `i` probes. */
  ghost function Laps(start: nat, step: nat, cap: nat, i: nat): int
    requires cap > 0
  {
    if i == 0 then start / cap
    else Laps(start, step, cap, i - 1) + (Orbit(start, step, cap, i - 1) + step) / cap
  }

  lemma OneMoreLap(sum: int, q: int, prev: nat, step: nat, cap: nat)
    requires cap > 0 && sum == q * cap + prev
    ensures sum + step == (q + (prev + step) / cap) * cap + (prev + step) % cap
  {
    var w := (prev + step) / cap;
    assert prev + step == w * cap + (prev + step) % cap;
    assert (q + w) * cap == q * cap + w * cap;
  }

  lemma {:induction false} ClosedForm(start: nat, step: nat, cap: nat, i: nat)
    requires cap > 0
    ensures start + i * step == Laps(start, step, cap, i) * cap + Orbit(start, step, cap, i)
  {
    if i == 0 {
      OneMoreLap(0, 0, 0, start, cap);
    } else {
      ClosedForm(start, step, cap, i - 1);
      var sum := start + (i - 1) * step;
      assert start + i * step == sum + step;
      OneMoreLap(sum, Laps(start, step, cap, i - 1), Orbit(start, step, cap, i - 1), step, cap);
    }
  }

  /** After `cap` probes every orbit is back where it began, whatever the step. */
  lemma BackAfterCap(start: nat, step: nat, cap: nat)
    requires cap > 0
    ensures Orbit(start, step, cap, cap) == Orbit(start, step, cap, 0)
  {
    ClosedForm(start, step, cap, cap);
    SameRemainder(start, step, cap, Laps(start, step, cap, cap), Orbit(start, step, cap, cap));
  }

  lemma SameRemainder(start: nat, step: nat, cap: nat, q: int, r: nat)
    requires r < cap && start + cap * step == q * cap + r
    ensures start % cap == r
  {
    assert (q - step) * cap == q * cap - step * cap;
    DivModUnique(q - step, cap, r);
  }

  // ---------------------------------------------------------------- the length

  ghost predicate IsOrbitLength(start: nat, step: nat, cap: nat, n: nat)
    requires cap > 0
  {
    && 1 <= n <= cap
    && Orbit(start, step, cap, n) == Orbit(start, step, cap, 0)
    && forall i :: 1 <= i < n ==> Orbit(start, step, cap, i) != Orbit(start, step, cap, 0)
  }

  lemma OrbitLengthExists(start: nat, step: nat, cap: nat)
    requires cap > 0
    ensures exists n :: IsOrbitLength(start, step, cap, n)
  {
    BackAfterCap(start, step, cap);
    var n := 1;
    while Orbit(start, step, cap, n) != Orbit(start, step, cap, 0)
      invariant 1 <= n <= cap
      invariant forall i :: 1 <= i < n ==> Orbit(start, step, cap, i) != Orbit(start, step, cap, 0)
      decreases cap - n
    {
      n := n + 1;
    }
    assert IsOrbitLength(start, step, cap, n);
  }

  ghost function OrbitLength(start: nat, step: nat, cap: nat): (n: nat)
    requires cap > 0
    ensures IsOrbitLength(start, step, cap, n)
  {
    OrbitLengthExists(start, step, cap);
    var n :| IsOrbitLength(start, step, cap, n);
    n
  }

  /** Within one round no slot is visited twice. */
  lemma DistinctWithinRound(start: nat, step: nat, cap: nat, i: nat, j: nat)
    requires cap > 0 && i < j < OrbitLength(start, step, cap)
    ensures Orbit(start, step, cap, i) != Orbit(start, step, cap, j)
  {
    if Orbit(start, step, cap, i) == Orbit(start, step, cap, j) {
      PullBack(start, step, cap, i, j);
    }
  }

  lemma LengthDividesCap(start: nat, step: nat, cap: nat)
    requires cap > 0
    ensures cap % OrbitLength(start, step, cap) == 0
  {
    var n := OrbitLength(start, step, cap);
    var r := cap % n;
    BackAfterCap(start, step, cap);
    assert cap == (cap / n) * n + r;
    RecursManyTimes(start, step, cap, r, n, cap / n);
  }

  lemma StepIsZeroIffLengthOne(start: nat, step: nat, cap: nat)
    requires cap > 0
    ensures OrbitLength(start, step, cap) == 1 <==> step % cap == 0
  {
    var x := Orbit(start, step, cap, 0);
    assert Orbit(start, step, cap, 1) == (x + step) % cap;
    if step % cap == 0 {
      FactorOf(step, cap);
      DivModUnique(step / cap, cap, x);
    } else if (x + step) % cap == x {
      var q := (x + step) / cap;
      assert x + step == q * cap + x;
      DivModUnique(q, cap, 0);
    }
  }

  /**
   For the capacities that next_prime returns, the probe sequence runs through the whole
   table exactly when the capacity is 1 or does not divide the step.
   */
  lemma FullCycle(start: nat, step: nat, cap: nat)
    requires Accepted(cap)
    ensures OrbitLength(start, step, cap) == cap <==> (cap == 1 || step % cap != 0)
  {
    LengthDividesCap(start, step, cap);
    StepIsZeroIffLengthOne(start, step, cap);
  }

  // ---------------------------------------------------------------- counting

  ghost function Below(cap: nat): (s: set<nat>)
    ensures forall x: nat :: x in s <==> x < cap
    ensures |s| == cap
  {
    if cap == 0 then {} else Below(cap - 1) + {cap - 1}
  }

  lemma SubsetOfSameSize<T>(a: set<T>, b: set<T>)
    requires a <= b && |a| == |b|
    ensures a == b
  {
    assert |b - a| == |b| - |a|;
    assert b - a == {};
  }
}
