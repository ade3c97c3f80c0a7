/** The derived metrics of stages A, B, C and F, computed on the table:
    the dominant component, the consensus threshold and its flag, the
    contention rate and the per-row throughput cap theta. */
module Metrics {
  import opened Records
  import opened Chains

  // ---------------------------------------------------------------- stage A

  /** `idxmax`: the first position that holds the largest value. */
  function FirstArgmax(xs: seq<int>): (k: nat)
    requires |xs| > 0
    ensures k < |xs|
    ensures forall j :: 0 <= j < |xs| ==> xs[j] <= xs[k]
    ensures forall j :: 0 <= j < k ==> xs[j] < xs[k]
  {
    if |xs| == 1 then 0
    else
      var k := FirstArgmax(xs[..|xs| - 1]);
      if xs[|xs| - 1] > xs[k] then |xs| - 1 else k
  }

  /** The largest entry of the `Total Latency` column. */
  function MaxTotal(t: Table): int
    requires Resolvable(t) && |t| > 0
  {
    TotalsColumn(t)[FirstArgmax(TotalsColumn(t))]
  }

  /** The dominant component: the first row, in table order, whose total
      latency is the largest. */
  function Dominant(t: Table): (k: nat)
    requires Resolvable(t) && |t| > 0
    ensures k < |t|
    ensures RowTotal(t, k) == MaxTotal(t)
    ensures forall j :: 0 <= j < |t| ==> RowTotal(t, j) <= MaxTotal(t)
    ensures forall j :: 0 <= j < k ==> RowTotal(t, j) < MaxTotal(t)
  {
    var col := TotalsColumn(t);
    assert forall j :: 0 <= j < |t| ==> col[j] == RowTotal(t, j);
    FirstArgmax(col)
  }

  // ---------------------------------------------------------------- stage B

  /** Threshold of the consensus scheme: 90% of the largest total latency. */
  function Threshold(maxTotal: int): (threshold: real)
    ensures maxTotal > 0 ==> 0.0 < threshold < maxTotal as real
    ensures maxTotal == 0 ==> threshold == 0.0
  {
    maxTotal as real * 0.9
  }

  /** The flag of stage B: every row's OWN latency is at or below the
      threshold. Like `all` over a generator, the scan stops at the first row
      that is above it. */
  method AllWithin(t: Table, threshold: real) returns (ok: bool)
    ensures ok <==> forall i :: 0 <= i < |t| ==> t[i].latency as real <= threshold
  {
    ok := true;
    var i := 0;
    while i < |t| && ok
      invariant 0 <= i <= |t|
      invariant ok <==> forall j :: 0 <= j < i ==> t[j].latency as real <= threshold
    {
      ok := t[i].latency as real <= threshold;
      i := i + 1;
    }
  }

  // ---------------------------------------------------------------- stage C

  /** Sum over the rows of latency * load, where load = CPU / 100. */
  function WeightedLatencySum(t: Table): real
  {
    if t == [] then 0.0
    else t[0].latency as real * (t[0].cpu as real / 100.0) + WeightedLatencySum(t[1..])
  }

  /** Sum over the rows of latency. */
  function LatencySum(t: Table): real
  {
    if t == [] then 0.0 else t[0].latency as real + LatencySum(t[1..])
  }

  /** mean(latency * load) / mean(latency). Both means divide by the number
      of rows, which the ratio cancels. */
  function ContentionRate(t: Table): (rate: real)
    requires |t| > 0 && LatencySum(t) != 0.0
    ensures rate == WeightedLatencySum(t) / LatencySum(t)
  {
    var n := |t| as real;
    (WeightedLatencySum(t) / n) / (LatencySum(t) / n)
  }

  /** With positive latencies and CPU in [0, 100], the load-weighted latency
      sum is between 0 and the plain latency sum, which is positive. */
  lemma {:induction false} WeightedSumBounds(t: Table)
    requires ValidRecords(t)
    ensures 0.0 <= WeightedLatencySum(t) <= LatencySum(t)
    ensures |t| > 0 ==> LatencySum(t) > 0.0
  {
    if t != [] {
      assert ValidRecords(t[1..]) by {
        forall i | 0 <= i < |t| - 1 ensures ValidRecord(t[1..][i]) {
          assert t[1..][i] == t[i + 1];
        }
      }
      WeightedSumBounds(t[1..]);
      assert ValidRecord(t[0]);
      var l, c := t[0].latency as real, t[0].cpu as real / 100.0;
      var w', l' := WeightedLatencySum(t[1..]), LatencySum(t[1..]);
      var lc := l * c;
      assert 0.0 <= lc <= l by {
        assert l > 0.0 && 0.0 <= c <= 1.0;
        assert l * c <= l * 1.0;
      }
      assert WeightedLatencySum(t) == lc + w';
      assert LatencySum(t) == l + l';
    }
  }

  /** On valid records the contention rate lies in [0, 1]. */
  lemma ContentionRateInUnitInterval(t: Table)
    requires ValidRecords(t) && |t| > 0
    ensures LatencySum(t) > 0.0
    ensures 0.0 <= ContentionRate(t) <= 1.0
  {
    WeightedSumBounds(t);
    RatioInUnitInterval(WeightedLatencySum(t), LatencySum(t));
  }

  lemma RatioInUnitInterval(w: real, l: real)
    requires 0.0 <= w <= l && l > 0.0
    ensures 0.0 <= w / l <= 1.0
  {
  }

  // ---------------------------------------------------------------- stage E

  /** min(1150, raw): the throughput bound never exceeds the 1150 Mbps ceiling. */
  function CapBound(raw: real): (bound: real)
    ensures bound <= 1150.0 && bound <= raw
    ensures bound == 1150.0 || bound == raw
  {
    if raw < 1150.0 then raw else 1150.0
  }

  // ---------------------------------------------------------------- stage F

  /** theta = min(throughput, bound * reliability / 100): the throughput a
      row can sustain under the bound. */
  function Theta(c: Component, bound: real): (theta: real)
    ensures theta <= c.throughput
    ensures theta <= bound * (c.reliability / 100.0)
    ensures theta == c.throughput || theta == bound * (c.reliability / 100.0)
  {
    var capped := bound * (c.reliability / 100.0);
    if capped < c.throughput then capped else c.throughput
  }

  /** Latency under contention: latency * (1 + 1.3 * load^1.4). The
      fractional power is the parameter `pow`. */
  function Contended(c: Component, pow: real -> real): (contended: real)
    ensures c.latency > 0 && pow(c.cpu as real / 100.0) >= 0.0 ==> contended >= c.latency as real
  {
    var l, factor := c.latency as real, 1.0 + 1.3 * pow(c.cpu as real / 100.0);
    assert l > 0.0 && factor >= 1.0 ==> l * factor >= l by {
      if l > 0.0 && factor >= 1.0 {
        assert l * factor == l + l * (factor - 1.0);
        assert l * (factor - 1.0) >= 0.0;
      }
    }
    l * factor
  }
}
