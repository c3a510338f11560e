/** Sums, extrema and exact means of sequences of readings, shared by the
    climate-normals statistics and the daily statistics. Python's `sum`,
    `max`, `min` and `statistics.mean` over a list of numbers; the
    floating-point rounding that follows them is not modelled, so a mean is
    the exact quotient. */
module Stats {

  /** `sum(s)`, accumulated left to right as Python does. */
  function Sum(s: seq<real>): real
  {
    if s == [] then 0.0 else Sum(s[..|s| - 1]) + s[|s| - 1]
  }

  lemma {:induction false} SumAppend(a: seq<real>, b: seq<real>)
    ensures Sum(a + b) == Sum(a) + Sum(b)
    decreases |b|
  {
    if b == [] {
      assert a + b == a;
    } else {
      assert (a + b)[..|a + b| - 1] == a + b[..|b| - 1];
      SumAppend(a, b[..|b| - 1]);
    }
  }

  /** `max(s)`; Python raises ValueError on an empty list, hence the requires. */
  function Max(s: seq<real>): (m: real)
    requires |s| > 0
    ensures m in s
    ensures forall x :: x in s ==> x <= m
  {
    if |s| == 1 then s[0]
    else
      var m' := Max(s[..|s| - 1]);
      assert forall x :: x in s ==> x in s[..|s| - 1] || x == s[|s| - 1];
      if s[|s| - 1] > m' then s[|s| - 1] else m'
  }

  /** `min(s)`; Python raises ValueError on an empty list, hence the requires. */
  function Min(s: seq<real>): (m: real)
    requires |s| > 0
    ensures m in s
    ensures forall x :: x in s ==> m <= x
  {
    if |s| == 1 then s[0]
    else
      var m' := Min(s[..|s| - 1]);
      assert forall x :: x in s ==> x in s[..|s| - 1] || x == s[|s| - 1];
      if s[|s| - 1] < m' then s[|s| - 1] else m'
  }

  /** Every element lies between the bounds, so the sum lies between
      |s| times each bound. */
  lemma {:induction false} SumBounds(s: seq<real>, lo: real, hi: real)
    requires forall x :: x in s ==> lo <= x <= hi
    ensures |s| as real * lo <= Sum(s) <= |s| as real * hi
    decreases |s|
  {
    if s != [] {
      var init := s[..|s| - 1];
      assert forall x :: x in init ==> x in s;
      SumBounds(init, lo, hi);
      assert s[|s| - 1] in s;
      Distribute(|init| as real, lo);
      Distribute(|init| as real, hi);
    }
  }

  lemma Distribute(n: real, x: real)
    ensures (n + 1.0) * x == n * x + x
  {
  }

  /** A quotient by a positive number keeps the bounds its numerator has
      after multiplication. */
  lemma DivideBounds(sum: real, n: real, lo: real, hi: real)
    requires n > 0.0 && n * lo <= sum <= n * hi
    ensures lo <= sum / n <= hi
  {
    assert sum / n - lo == (sum - n * lo) / n;
    assert hi - sum / n == (n * hi - sum) / n;
  }

  /** The exact mean of a non-empty list (`statistics.mean` or
      `sum(s) / len(s)` before rounding). It lies between the minimum and the
      maximum of the list. */
  function Mean(s: seq<real>): (m: real)
    requires |s| > 0
    ensures Min(s) <= m <= Max(s)
  {
    SumBounds(s, Min(s), Max(s));
    DivideBounds(Sum(s), |s| as real, Min(s), Max(s));
    Sum(s) / |s| as real
  }
}
