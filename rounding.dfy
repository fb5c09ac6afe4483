/**
 * `Math.round` and the progress percentages the exporters report with it, computed
 * exactly over the rationals (the IEEE-754 rounding of the quotient is not modelled).
 */
module Rounding {

  /** `Math.round(x)`: the nearest integer, a half rounded up. */
  function Round(x: real): (n: int)
    ensures n as real - 0.5 <= x < n as real + 0.5
  {
    (x + 0.5).Floor
  }

  /** Rounding never reverses the order of two numbers. */
  lemma RoundMonotone(x: real, y: real)
    requires x <= y
    ensures Round(x) <= Round(y)
  {
  }

  /** Dividing by a positive number keeps the order. */
  lemma DivMonotone(a: real, b: real, c: real)
    requires a <= b && c > 0.0
    ensures a / c <= b / c
  {
    assert b / c - a / c == (b - a) / c;
  }

  /** `Math.round((k / n) * 100)`: the percentage shown after k of n steps. */
  function Percent(k: nat, n: nat): (p: int)
    requires 0 < n && k <= n
    ensures 0 <= p <= 100
    ensures k == 0 ==> p == 0
    ensures k == n ==> p == 100
  {
    DivMonotone(k as real, n as real, n as real);
    assert k == n ==> k as real / n as real == 1.0;
    Round((k as real / n as real) * 100.0)
  }

  /** The percentage never goes down while steps complete. */
  lemma PercentMonotone(j: nat, k: nat, n: nat)
    requires 0 < n && j <= k <= n
    ensures Percent(j, n) <= Percent(k, n)
  {
    DivMonotone(j as real, k as real, n as real);
    RoundMonotone((j as real / n as real) * 100.0, (k as real / n as real) * 100.0);
  }

  /** The same percentage in integer arithmetic: `floor((200·k + n) / (2·n))`. */
  lemma PercentAsQuotient(k: nat, n: nat)
    requires 0 < n && k <= n
    ensures Percent(k, n) == (200 * k + n) / (2 * n)
  {
    var p := Percent(k, n);
    var x := (k as real / n as real) * 100.0;
    assert p as real - 0.5 <= x < p as real + 0.5;
    assert x * (2 * n) as real == (200 * k) as real;
    ClearDenominator(x, p, 2 * n, 200 * k);
    QuotientUnique(200 * k + n, 2 * n, p);
  }

  /** From `p - 1/2 <= x < p + 1/2` and `x·d = z`: `d·p - d/2 <= z < d·p + d/2`, in integers. */
  lemma ClearDenominator(x: real, p: int, d: int, z: int)
    requires d > 0 && d % 2 == 0
    requires p as real - 0.5 <= x < p as real + 0.5
    requires x * d as real == z as real
    ensures d * p - d / 2 <= z < d * p + d / 2
  {
    var c := d as real;
    ScaleBounds(p as real - 0.5, x, p as real + 0.5, c);
    assert (p as real - 0.5) * c == (d * p - d / 2) as real;
    assert (p as real + 0.5) * c == (d * p + d / 2) as real;
  }

  lemma ScaleBounds(lo: real, x: real, hi: real, c: real)
    requires lo <= x < hi && c > 0.0
    ensures lo * c <= x * c < hi * c
  {
    assert x * c - lo * c == (x - lo) * c;
    assert hi * c - x * c == (hi - x) * c;
  }

  lemma QuotientUnique(a: int, d: int, p: int)
    requires d > 0 && d * p <= a < d * p + d
    ensures a / d == p
  {
    var q := a / d;
    assert d * q <= a < d * q + d;
    MulCancel(d, q, p + 1);
    MulCancel(d, p, q + 1);
  }

  lemma MulCancel(d: int, x: int, y: int)
    requires d > 0 && d * x < d * y
    ensures x < y
  {
  }

  /** The percentages an n-step job reports: `Math.round(((i + 1) / n) * 100)` after step i. */
  function ProgressTrace(n: nat): seq<int>
  {
    seq(n, i requires 0 <= i < n => Percent(i + 1, n))
  }

  /** The progress values rise with every step, stay within 0..100 and end at 100. */
  lemma ProgressTraceRises(n: nat)
    ensures |ProgressTrace(n)| == n
    ensures forall i :: 0 <= i < n ==> 0 <= ProgressTrace(n)[i] <= 100
    ensures forall i, j :: 0 <= i <= j < n ==> ProgressTrace(n)[i] <= ProgressTrace(n)[j]
    ensures n > 0 ==> ProgressTrace(n)[n - 1] == 100
  {
    forall i, j | 0 <= i <= j < n ensures ProgressTrace(n)[i] <= ProgressTrace(n)[j] {
      PercentMonotone(i + 1, j + 1, n);
    }
  }

  /**
   * `shown` is what an n-or-more-step job reports for the steps after the first `from`:
   * after step from + k, the percentage of from + k + 1 steps done of `total`.
   */
  predicate Reported(shown: seq<int>, from: nat, total: nat)
  {
    from + |shown| <= total && forall k :: 0 <= k < |shown| ==> shown[k] == Percent(from + k + 1, total)
  }

  /** One more step reported. */
  lemma ReportedSnoc(shown: seq<int>, from: nat, total: nat)
    requires Reported(shown, from, total) && from + |shown| < total
    ensures Reported(shown + [Percent(from + |shown| + 1, total)], from, total)
  {
  }

  /** A record of the reports from the first step on is a prefix of the trace. */
  lemma {:induction false} ProgressPrefix(shown: seq<int>, total: nat)
    requires Reported(shown, 0, total)
    ensures shown == ProgressTrace(total)[..|shown|]
  {
  }

  /** Reports of further steps, appended to the reports so far, continue the record. */
  lemma {:induction false} ProgressExtend(steps: seq<int>, more: seq<int>, total: nat)
    requires Reported(steps, 0, total) && Reported(more, |steps|, total)
    ensures Reported(steps + more, 0, total)
  {
    forall k | 0 <= k < |steps| + |more| ensures (steps + more)[k] == Percent(k + 1, total) {
      if k >= |steps| {
        assert (steps + more)[k] == more[k - |steps|];
      }
    }
  }
}
