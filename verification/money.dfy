/** Amounts of money as whole cents, and the rounding the system applies
    wherever it writes `round(x, 2)` on an amount in euros. */
module Money {

  /** An amount in euro cents: `1234.56` euros is `123456`. */
  type Cents = int

  /** `x` cents rounded to the nearest whole cent, halves upward: the value
      `round(x / 100, 2)` stands for, computed on exact rationals. */
  function RoundHalfUp(x: real): (n: int)
    ensures n as real - 0.5 <= x < n as real + 0.5
  {
    (x + 0.5).Floor
  }

  lemma {:induction false} RoundHalfUpOfWhole(n: int)
    ensures RoundHalfUp(n as real) == n
  {
  }

  lemma {:induction false} RoundHalfUpMonotone(x: real, y: real)
    requires x <= y
    ensures RoundHalfUp(x) <= RoundHalfUp(y)
  {
  }

  /** `round(euros, 2)` in cents. */
  function ToCents(euros: real): (c: Cents)
    ensures c as real - 0.5 <= euros * 100.0 < c as real + 0.5
  {
    RoundHalfUp(euros * 100.0)
  }

  /** `round(amount * factor, 2)`: an amount scaled by a factor (a revaluation
      index, or the 80% / 50% shares of a minimum base), in cents. */
  function Scale(amount: Cents, factor: real): (c: Cents)
    ensures c as real - 0.5 <= amount as real * factor < c as real + 0.5
  {
    RoundHalfUp(amount as real * factor)
  }

  /** A share of at most 100% of a non-negative amount is non-negative and
      does not exceed the amount. */
  lemma {:induction false} ScaleShare(amount: Cents, factor: real)
    requires 0 <= amount
    requires 0.0 <= factor <= 1.0
    ensures 0 <= Scale(amount, factor) <= amount
  {
    var x := amount as real;
    var y := x * factor;
    ProductWithin(x, factor);
    assert 0.0 <= y <= x;
    RoundHalfUpMonotone(0.0, y);
    RoundHalfUpMonotone(y, x);
    RoundHalfUpOfWhole(0);
    RoundHalfUpOfWhole(amount);
  }

  /** Scaling by a smaller factor never gives more. */
  lemma {:induction false} ScaleMonotone(amount: Cents, f: real, g: real)
    requires 0 <= amount
    requires f <= g
    ensures Scale(amount, f) <= Scale(amount, g)
  {
    ProductMonotone(amount as real, f, g);
    RoundHalfUpMonotone(amount as real * f, amount as real * g);
  }

  lemma {:induction false} ProductWithin(x: real, f: real)
    requires 0.0 <= x && 0.0 <= f <= 1.0
    ensures 0.0 <= x * f <= x
  {
    assert x * (1.0 - f) >= 0.0;
  }

  lemma {:induction false} ProductMonotone(x: real, f: real, g: real)
    requires 0.0 <= x && f <= g
    ensures x * f <= x * g
  {
    assert x * (g - f) >= 0.0;
  }

  /** `round(total / divisor, 2)` in cents. */
  function Divide(total: Cents, divisor: real): (c: Cents)
    requires divisor != 0.0
    ensures c as real - 0.5 <= total as real / divisor < c as real + 0.5
  {
    RoundHalfUp(total as real / divisor)
  }

  function Sum(s: seq<Cents>): int
  {
    if s == [] then 0 else s[0] + Sum(s[1..])
  }

  lemma {:induction false} SumAppend(a: seq<Cents>, b: seq<Cents>)
    ensures Sum(a + b) == Sum(a) + Sum(b)
  {
    if a == [] {
      assert a + b == b;
    } else {
      assert (a + b)[1..] == a[1..] + b;
      SumAppend(a[1..], b);
    }
  }

  /** Every element lies in [lo, hi], so the sum lies in [|s| * lo, |s| * hi]. */
  lemma {:induction false} SumBounds(s: seq<Cents>, lo: int, hi: int)
    requires forall k :: 0 <= k < |s| ==> lo <= s[k] <= hi
    ensures |s| * lo <= Sum(s) <= |s| * hi
  {
    if s != [] {
      SumBounds(s[1..], lo, hi);
      assert |s| * lo == lo + (|s| - 1) * lo;
      assert |s| * hi == hi + (|s| - 1) * hi;
    }
  }

  /** `a / n` rounded down, by repeated subtraction of `n`. */
  function FloorDiv(a: int, n: int): int
    requires n > 0
    decreases if a < 0 then n - a else a
  {
    if a < 0 then FloorDiv(a + n, n) - 1
    else if a < n then 0
    else FloorDiv(a - n, n) + 1
  }

  /** `FloorDiv` is the largest whole number `q` with `n * q <= a`. */
  lemma {:induction false} FloorDivBounds(a: int, n: int)
    requires n > 0
    ensures n * FloorDiv(a, n) <= a < n * FloorDiv(a, n) + n
    decreases if a < 0 then n - a else a
  {
    if a < 0 {
      var q := FloorDiv(a + n, n);
      assert FloorDiv(a, n) == q - 1;
      FloorDivBounds(a + n, n);
      Distribute(n, q - 1);
    } else if a >= n {
      var q := FloorDiv(a - n, n);
      assert FloorDiv(a, n) == q + 1;
      FloorDivBounds(a - n, n);
      Distribute(n, q);
    } else {
      assert FloorDiv(a, n) == 0;
    }
  }

  lemma {:induction false} Distribute(n: int, q: int)
    ensures n * (q + 1) == n * q + n
  {
  }

  /** `round(sum(s) / len(s), 2)`: the mean of some amounts, in cents, with
      halves rounded upward; `MeanRounds` ties it to the exact quotient. */
  function Mean(s: seq<Cents>): Cents
    requires |s| > 0
  {
    FloorDiv(2 * Sum(s) + |s|, 2 * |s|)
  }

  /** The mean is the exact quotient of the sum by the count, rounded to the
      nearest cent with halves upward. */
  lemma {:induction false} MeanRounds(s: seq<Cents>)
    requires |s| > 0
    ensures Mean(s) == RoundHalfUp(Sum(s) as real / |s| as real)
  {
    FloorDivBounds(2 * Sum(s) + |s|, 2 * |s|);
    Double(|s|, Mean(s));
    HalfBounds(Sum(s), |s|, Mean(s));
  }

  lemma {:induction false} HalfBounds(total: int, n: int, m: int)
    requires n > 0
    requires 2 * (n * m) <= 2 * total + n < 2 * (n * m) + 2 * n
    ensures m as real - 0.5 <= total as real / n as real < m as real + 0.5
  {
    Spread(n, m);
    CastProduct(n, 2 * m - 1);
    CastProduct(n, 2 * m + 1);
    QuotientBetween(2.0 * total as real, n as real, (2 * m - 1) as real, (2 * m + 1) as real);
  }

  lemma {:induction false} Spread(n: int, m: int)
    ensures n * (2 * m - 1) == 2 * (n * m) - n
    ensures n * (2 * m + 1) == 2 * (n * m) + n
  {
  }

  lemma {:induction false} CastProduct(a: int, b: int)
    ensures (a * b) as real == a as real * b as real
  {
  }

  lemma {:induction false} QuotientBetween(x: real, r: real, low: real, high: real)
    requires r > 0.0 && low * r <= x < high * r
    ensures low / 2.0 <= x / 2.0 / r < high / 2.0
  {
  }

  lemma {:induction false} MulMonotone(n: int, x: int, y: int)
    requires n >= 0 && x <= y
    ensures n * x <= n * y
  {
    assert n * y - n * x == n * (y - x);
  }

  /** A whole number within half of `total / n` lies within the bounds that
      `total` lies within `n` times. */
  lemma {:induction false} QuotientWithin(total: int, n: int, q: int, lo: int, hi: int)
    requires n > 0 && n * lo <= total <= n * hi
    requires 2 * (n * q) <= 2 * total + n < 2 * (n * q) + 2 * n
    ensures lo <= q <= hi
  {
    Distribute(n, q);
    Cancel(n, lo, q + 1);
    Distribute(n, hi);
    Cancel(n, q, hi + 1);
  }

  lemma {:induction false} Cancel(n: int, x: int, y: int)
    requires n > 0 && n * x < n * y
    ensures x < y
  {
    if x >= y {
      MulMonotone(n, y, x);
    }
  }

  lemma {:induction false} Double(n: int, q: int)
    ensures (2 * n) * q == 2 * (n * q)
  {
  }

  /** The rounded mean lies between the smallest and the largest amount. */
  lemma {:induction false} MeanWithin(s: seq<Cents>, lo: int, hi: int)
    requires |s| > 0
    requires forall k :: 0 <= k < |s| ==> lo <= s[k] <= hi
    ensures lo <= Mean(s) <= hi
  {
    SumBounds(s, lo, hi);
    FloorDivBounds(2 * Sum(s) + |s|, 2 * |s|);
    Double(|s|, Mean(s));
    QuotientWithin(Sum(s), |s|, Mean(s), lo, hi);
  }
}
