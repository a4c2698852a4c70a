/** Exact ceiling division, standing in for the source's `math.Ceil` of a quotient of seconds, and
    products unfolded one step at a time, so that proofs about stint times stay linear. */
module CeilDivision {

  // n times a; see TimesIs.
  function Times(n: int, a: int): int
    decreases if n < 0 then -n else n
  {
    if n == 0 then 0 else if n > 0 then Times(n - 1, a) + a else Times(n + 1, a) - a
  }

  lemma {:induction false} TimesIs(n: int, a: int)
    ensures Times(n, a) == n * a
    decreases if n < 0 then -n else n
  {
    if n > 0 {
      TimesIs(n - 1, a);
      MulStep(n - 1, a);
    } else if n < 0 {
      TimesIs(n + 1, a);
      MulStep(n, a);
    }
  }

  lemma {:induction false} TimesAdd(m: int, n: int, a: int)
    ensures Times(m + n, a) == Times(m, a) + Times(n, a)
    decreases if n < 0 then -n else n
  {
    if n > 0 {
      TimesAdd(m, n - 1, a);
      TimesStep(m + n - 1, a);
    } else if n < 0 {
      TimesAdd(m, n + 1, a);
      TimesStep(m + n, a);
    }
  }

  lemma TimesStep(n: int, a: int)
    ensures Times(n + 1, a) == Times(n, a) + a
  {
    if n < 0 { assert Times(n, a) == Times(n + 1, a) - a; }
  }

  lemma {:induction false} TimesMonotone(m: int, n: int, a: int)
    requires m <= n && a >= 0
    ensures Times(m, a) <= Times(n, a)
    decreases n - m
  {
    if m < n {
      TimesMonotone(m, n - 1, a);
      TimesStep(n - 1, a);
    }
  }

  // Products with the larger of two nonnegative factors are at least as large.
  lemma {:induction false} TimesMonotoneInFactor(n: nat, a: int, b: int)
    requires a <= b
    ensures Times(n, a) <= Times(n, b)
  {
    if n > 0 { TimesMonotoneInFactor(n - 1, a, b); }
  }

  lemma {:induction false} TimesSum(n: nat, a: int, b: int)
    ensures Times(n, a + b) == Times(n, a) + Times(n, b)
  {
    if n > 0 { TimesSum(n - 1, a, b); }
  }

  // n blocks of l units of a.
  lemma {:induction false} TimesTimes(n: nat, l: int, a: int)
    ensures Times(n, Times(l, a)) == Times(Times(n, l), a)
  {
    if n > 0 {
      TimesTimes(n - 1, l, a);
      TimesAdd(Times(n - 1, l), l, a);
    }
  }

  // The least integer r with Times(r, a) >= x; r may be zero or negative.
  function CeilDiv(x: int, a: int): int
    requires a > 0
    decreases if x > 0 then x + a else -x
  {
    if x > 0 then CeilDiv(x - a, a) + 1
    else if x <= -a then CeilDiv(x + a, a) - 1
    else 0
  }

  lemma {:induction false} CeilDivBounds(x: int, a: int)
    requires a > 0
    ensures Times(CeilDiv(x, a) - 1, a) < x <= Times(CeilDiv(x, a), a)
    decreases if x > 0 then x + a else -x
  {
    if x > 0 {
      CeilDivBounds(x - a, a);
      TimesStep(CeilDiv(x - a, a) - 1, a);
      TimesStep(CeilDiv(x - a, a), a);
    } else if x <= -a {
      CeilDivBounds(x + a, a);
      TimesStep(CeilDiv(x + a, a) - 2, a);
      TimesStep(CeilDiv(x + a, a) - 1, a);
    } else {
      TimesStep(-1, a);
    }
  }

  /** CeilDiv is the ceiling of the exact quotient. */
  lemma CeilDivIsCeiling(x: int, a: int)
    requires a > 0
    ensures (CeilDiv(x, a) - 1) * a < x <= CeilDiv(x, a) * a
  {
    CeilDivBounds(x, a);
    TimesIs(CeilDiv(x, a) - 1, a);
    TimesIs(CeilDiv(x, a), a);
  }

  lemma CeilDivUnique(x: int, a: int, q: int)
    requires a > 0 && Times(q - 1, a) < x <= Times(q, a)
    ensures CeilDiv(x, a) == q
  {
    var r := CeilDiv(x, a);
    CeilDivBounds(x, a);
    if r < q {
      TimesMonotone(r, q - 1, a);
    } else if q < r {
      TimesMonotone(q, r - 1, a);
    }
  }

  lemma CeilDivOfTimes(q: int, a: int)
    requires a > 0
    ensures CeilDiv(Times(q, a), a) == q
  {
    TimesStep(q - 1, a);
    CeilDivUnique(Times(q, a), a, q);
  }

  lemma CeilDivMonotone(x: int, y: int, a: int)
    requires a > 0 && x <= y
    ensures CeilDiv(x, a) <= CeilDiv(y, a)
  {
    var r, s := CeilDiv(x, a), CeilDiv(y, a);
    CeilDivBounds(x, a);
    CeilDivBounds(y, a);
    if s < r {
      TimesMonotone(s, r - 1, a);
    }
  }

  // What fits into n steps takes at most n steps.
  lemma CeilDivWithin(x: int, n: int, a: int)
    requires a > 0 && x <= Times(n, a)
    ensures CeilDiv(x, a) <= n
  {
    CeilDivMonotone(x, Times(n, a), a);
    CeilDivOfTimes(n, a);
  }

  lemma CeilDivPositive(x: int, a: int)
    requires a > 0
    ensures CeilDiv(x, a) >= 1 <==> x > 0
    ensures CeilDiv(x, a) < 0 <==> x <= -a
  {
    CeilDivWithin(if x <= 0 then x else 0, 0, a);
    TimesStep(-1, a);
    if x <= -a { CeilDivWithin(x, -1, a); }
    CeilDivBounds(x, a);
    var r := CeilDiv(x, a);
    if r <= 0 { TimesMonotone(r, 0, a); }
    if r <= -1 { TimesMonotone(r, -1, a); }
  }

  // One step more or less.
  lemma CeilDivStep(x: int, a: int)
    requires a > 0
    ensures CeilDiv(x + a, a) == CeilDiv(x, a) + 1
  {
  }

  // ----- ordinary products -----

  lemma MulMonotone(m: int, n: int, a: int)
    requires m <= n && a >= 0
    ensures m * a <= n * a
  {
  }

  lemma MulStep(n: int, a: int)
    ensures (n + 1) * a == n * a + a
  {
  }
}
