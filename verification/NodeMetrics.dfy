/** The metrics collector's record of a node: counts, shortest and longest duration and a running average, all in 64-bit
    integers. */
module NodeMetrics {
  import opened Options

  /** A quotient of two counters, without rounding. */
  datatype Fraction = Fraction(numerator: int, denominator: int)

  datatype Metrics = Metrics(
    nodeType: string,
    executions: int,
    successes: int,
    failures: int,
    min: int,
    max: int,
    average: int,
    errorRate: Fraction,
    lastExecution: int)

  /** One execution of a node, recorded at time `at`. */
  datatype Sample = Sample(nodeType: string, duration: int, success: bool, at: int)

  const TWO_63: int := 0x8000_0000_0000_0000

  predicate FitsInt64(x: int) {
    -TWO_63 <= x < TWO_63
  }

  /** The value that a 64-bit register holds after a computation. */
  function Wrap(x: int): (r: int)
    ensures FitsInt64(r) && (FitsInt64(x) ==> r == x)
    ensures (x - r) % (2 * TWO_63) == 0
  {
    (x + TWO_63) % (2 * TWO_63) - TWO_63
  }

  /** Division that rounds towards zero. */
  function Quotient(a: int, n: int): int
    requires n > 0
  {
    if a >= 0 then a / n else -((-a) / n)
  }

  /** The running average after one more duration. */
  function NextAverage(average: int, n: int, duration: int): int
    requires n > 0
  {
    if n == 1 then duration else Quotient(Wrap(Wrap(average * (n - 1)) + duration), n)
  }

  /** A record that counts nothing yet. */
  function Blank(s: Sample): Metrics {
    Metrics(s.nodeType, 0, 0, 0, s.duration, s.duration, 0, Fraction(0, 1), 0)
  }

  function Recorded(m: Option<Metrics>, s: Sample): Metrics
    requires m.Some? ==> m.value.executions >= 0
  {
    var before := if m.None? then Blank(s) else m.value;
    var n := before.executions + 1;
    var failures := before.failures + if s.success then 0 else 1;
    Metrics(before.nodeType,
            n,
            before.successes + if s.success then 1 else 0,
            failures,
            if s.duration < before.min then s.duration else before.min,
            if s.duration > before.max then s.duration else before.max,
            NextAverage(before.average, n, s.duration),
            Fraction(failures, n),
            s.at)
  }

  /** The table after one more sample for a node. */
  function Updated(table: map<string, Metrics>, nodeId: string, s: Sample): map<string, Metrics>
    requires nodeId in table ==> table[nodeId].executions >= 0
  {
    table[nodeId := Recorded(if nodeId in table then Some(table[nodeId]) else None, s)]
  }

  class Collector {
    var nodeMetrics: map<string, Metrics>

    constructor ()
      ensures nodeMetrics == map[]
    {
      nodeMetrics := map[];
    }

    method UpdateNodeMetrics(nodeId: string, nodeType: string, duration: int, success: bool, now: int)
      requires nodeId in nodeMetrics ==> nodeMetrics[nodeId].executions >= 0
      modifies this
      ensures nodeMetrics == Updated(old(nodeMetrics), nodeId, Sample(nodeType, duration, success, now))
    {
      var metrics := if nodeId in nodeMetrics then nodeMetrics[nodeId] else Metrics(nodeType, 0, 0, 0, duration, duration, 0, Fraction(0, 1), 0);
      metrics := metrics.(executions := metrics.executions + 1);
      if success {
        metrics := metrics.(successes := metrics.successes + 1);
      } else {
        metrics := metrics.(failures := metrics.failures + 1);
      }
      if duration < metrics.min {
        metrics := metrics.(min := duration);
      }
      if duration > metrics.max {
        metrics := metrics.(max := duration);
      }
      if metrics.executions == 1 {
        metrics := metrics.(average := duration);
      } else {
        metrics := metrics.(average := Quotient(Wrap(Wrap(metrics.average * (metrics.executions - 1)) + duration), metrics.executions));
      }
      if metrics.executions > 0 {
        metrics := metrics.(errorRate := Fraction(metrics.failures, metrics.executions));
      }
      metrics := metrics.(lastExecution := now);
      nodeMetrics := nodeMetrics[nodeId := metrics];
    }
  }

  /** The record after a sequence of samples for one node. */
  function History(samples: seq<Sample>): (m: Metrics)
    requires samples != []
    ensures m.executions == |samples|
  {
    var n := |samples| - 1;
    Recorded(if n == 0 then None else Some(History(samples[..n])), samples[n])
  }

  // Calls for many nodes.

  datatype Call = Call(nodeId: string, sample: Sample)

  /** The samples among the calls that are for one node. */
  function SamplesOf(calls: seq<Call>, nodeId: string): seq<Sample> {
    if calls == [] then []
    else
      var before, last := SamplesOf(calls[..|calls| - 1], nodeId), calls[|calls| - 1];
      if last.nodeId == nodeId then before + [last.sample] else before
  }

  /** The table that a sequence of updates leaves. */
  function Collected(calls: seq<Call>): (table: map<string, Metrics>)
    ensures forall id :: id in table ==> table[id].executions >= 0
  {
    if calls == [] then map[]
    else
      var last := calls[|calls| - 1];
      Updated(Collected(calls[..|calls| - 1]), last.nodeId, last.sample)
  }

  /** However the calls for different nodes interleave, each record is the history of its own node's samples. */
  lemma {:induction false} CollectedHistories(calls: seq<Call>, nodeId: string)
    ensures nodeId in Collected(calls) <==> SamplesOf(calls, nodeId) != []
    ensures nodeId in Collected(calls) ==> Collected(calls)[nodeId] == History(SamplesOf(calls, nodeId))
  {
    if calls == [] {
    } else {
      var n := |calls| - 1;
      CollectedHistories(calls[..n], nodeId);
      if calls[n].nodeId == nodeId {
        var before := SamplesOf(calls[..n], nodeId);
        assert (before + [calls[n].sample])[..|before|] == before;
      }
    }
  }

  function Sum(samples: seq<Sample>): int {
    if samples == [] then 0 else Sum(samples[..|samples| - 1]) + samples[|samples| - 1].duration
  }

  function Successes(samples: seq<Sample>): nat {
    if samples == [] then 0 else Successes(samples[..|samples| - 1]) + if samples[|samples| - 1].success then 1 else 0
  }

  /** All durations lie between `lo` and `hi`, and the products that the average needs fit into 64 bits. */
  ghost predicate Moderate(samples: seq<Sample>, lo: int, hi: int) {
    && (forall i :: 0 <= i < |samples| ==> lo <= samples[i].duration <= hi)
    && -TWO_63 <= |samples| * lo && |samples| * hi < TWO_63
  }

  lemma ModeratePrefix(samples: seq<Sample>, lo: int, hi: int)
    requires Moderate(samples, lo, hi) && |samples| > 1 && lo <= 0 <= hi
    ensures Moderate(samples[..|samples| - 1], lo, hi)
  {
    var n := |samples|;
    assert (n - 1) * lo == n * lo - lo && (n - 1) * hi == n * hi - hi;
  }

  lemma Monotone(n: int, x: int, y: int)
    requires n > 0 && x >= y
    ensures n * x >= n * y
  {
  }

  lemma Cancel(n: int, x: int, y: int)
    requires n > 0 && n * x < n * (y + 1)
    ensures x <= y
  {
    if x >= y + 1 {
      Monotone(n, x, y + 1);
    }
  }

  lemma DivideBounds(a: int, n: int, lo: int, hi: int)
    requires n > 0 && a >= 0 && n * lo <= a <= n * hi
    ensures lo <= a / n <= hi && 0 <= a - n * (a / n) < n
  {
    var q := a / n;
    assert a == n * q + a % n;
    assert n * (q + 1) == n * q + n && n * (hi + 1) == n * hi + n;
    Cancel(n, q, hi);
    Cancel(n, lo, q);
  }

  /** Rounding towards zero stays between the bounds and is off by less than the divisor. */
  lemma QuotientBounds(a: int, n: int, lo: int, hi: int)
    requires n > 0 && n * lo <= a <= n * hi
    ensures lo <= Quotient(a, n) <= hi
    ensures -n < a - n * Quotient(a, n) < n && (a >= 0 ==> a - n * Quotient(a, n) >= 0)
  {
    if a >= 0 {
      DivideBounds(a, n, lo, hi);
    } else {
      Negate(n, hi);
      Negate(n, lo);
      DivideBounds(-a, n, -hi, -lo);
      Negate(n, (-a) / n);
    }
  }

  lemma Negate(n: int, q: int)
    ensures n * -q == -(n * q)
  {
  }

  lemma WithinExtremes(average: int, n: int, duration: int, lo: int, hi: int)
    requires n > 1 && lo <= average <= hi && lo <= duration <= hi
    ensures (n - 1) * lo <= (n - 1) * average <= (n - 1) * hi
    ensures n * lo <= (n - 1) * average + duration <= n * hi
  {
    Monotone(n - 1, average, lo);
    Monotone(n - 1, hi, average);
    assert n * lo == (n - 1) * lo + lo && n * hi == (n - 1) * hi + hi;
  }

  /** With moderate durations no computation overflows, so the average is the plain quotient. */
  lemma AverageFits(average: int, n: int, duration: int, lo: int, hi: int)
    requires n > 1 && lo <= average <= hi && lo <= duration <= hi && lo <= 0 <= hi
    requires -TWO_63 <= n * lo && n * hi < TWO_63
    ensures NextAverage(average, n, duration) == Quotient((n - 1) * average + duration, n)
  {
    WithinExtremes(average, n, duration, lo, hi);
    assert (n - 1) * lo == n * lo - lo && (n - 1) * hi == n * hi - hi;
    assert average * (n - 1) == (n - 1) * average;
    assert FitsInt64((n - 1) * average) && FitsInt64((n - 1) * average + duration);
  }

  /** In general the sum is taken modulo 2 to the 64 before it is divided. */
  lemma AverageWraps(average: int, n: int, duration: int) returns (sum: int)
    requires n > 1
    ensures FitsInt64(sum) && (average * (n - 1) + duration - sum) % (2 * TWO_63) == 0
    ensures NextAverage(average, n, duration) == Quotient(sum, n)
  {
    var product := average * (n - 1);
    sum := Wrap(Wrap(product) + duration);
    CongruentSum(product - Wrap(product), Wrap(product) + duration - sum);
  }

  lemma CongruentSum(x: int, y: int)
    requires x % (2 * TWO_63) == 0 && y % (2 * TWO_63) == 0
    ensures (x + y) % (2 * TWO_63) == 0
  {
  }

  /** What the record of a node says about the durations it was given. */
  ghost predicate Truthful(samples: seq<Sample>, m: Metrics) {
    && m.executions == |samples| && m.successes == Successes(samples) && m.successes + m.failures == m.executions
    && (forall i :: 0 <= i < |samples| ==> m.min <= samples[i].duration <= m.max)
    && (exists i :: 0 <= i < |samples| && samples[i].duration == m.min)
    && (exists i :: 0 <= i < |samples| && samples[i].duration == m.max)
  }

  lemma {:induction false} HistoryTruthful(samples: seq<Sample>)
    requires samples != []
    ensures Truthful(samples, History(samples))
  {
    var n := |samples| - 1;
    if n == 0 {
      assert samples[..0] == [];
      assert samples[0].duration == History(samples).min && samples[0].duration == History(samples).max;
    } else {
      var before, m := History(samples[..n]), History(samples);
      HistoryTruthful(samples[..n]);
      var i :| 0 <= i < n && samples[..n][i].duration == before.min;
      var j :| 0 <= j < n && samples[..n][j].duration == before.max;
      assert samples[if samples[n].duration < before.min then n else i].duration == m.min;
      assert samples[if samples[n].duration > before.max then n else j].duration == m.max;
    }
  }

  /** The type is that of the first sample and the time that of the last. */
  lemma {:induction false} HistoryLabelled(samples: seq<Sample>)
    requires samples != []
    ensures History(samples).nodeType == samples[0].nodeType && History(samples).lastExecution == samples[|samples| - 1].at
  {
    var n := |samples| - 1;
    if n == 0 {
    } else {
      HistoryLabelled(samples[..n]);
    }
  }

  /** The error rate is the share of the samples that failed. */
  lemma HistoryRate(samples: seq<Sample>)
    requires samples != []
    ensures History(samples).errorRate == Fraction(|samples| - Successes(samples), |samples|)
  {
    HistoryTruthful(samples);
  }

  ghost predicate NonNegative(samples: seq<Sample>) {
    forall i :: 0 <= i < |samples| ==> samples[i].duration >= 0
  }

  /** How far `n` times the average is from the sum: each rounding adds less than the number of samples. */
  ghost predicate Close(n: int, sum: int, average: int) {
    -(n * (n - 1)) <= 2 * (sum - n * average) <= n * (n - 1)
  }

  /** The average lies between the shortest and the longest duration and close to the mean, and not above the mean when no
      duration is negative. */
  ghost predicate Averages(samples: seq<Sample>, m: Metrics) {
    && m.min <= m.average <= m.max
    && Close(|samples|, Sum(samples), m.average)
    && (NonNegative(samples) ==> |samples| * m.average <= Sum(samples))
  }

  /** This holds as long as the longest duration times the number of samples fits into 64 bits. */
  lemma {:induction false} HistoryAverages(samples: seq<Sample>, lo: int, hi: int)
    requires samples != [] && Moderate(samples, lo, hi) && lo <= 0 <= hi
    ensures Averages(samples, History(samples))
    decreases |samples|
  {
    var n := |samples| - 1;
    if n == 0 {
      assert samples[..0] == [];
    } else {
      ModeratePrefix(samples, lo, hi);
      HistoryAverages(samples[..n], lo, hi);
      AveragesNext(samples, lo, hi);
    }
  }

  lemma AveragesNext(samples: seq<Sample>, lo: int, hi: int)
    requires |samples| > 1 && Moderate(samples, lo, hi) && lo <= 0 <= hi
    requires Averages(samples[..|samples| - 1], History(samples[..|samples| - 1]))
    ensures Averages(samples, History(samples))
  {
    var n := |samples| - 1;
    var rest, before, m := samples[..n], History(samples[..n]), History(samples);
    HistoryTruthful(rest);
    HistoryTruthful(samples);
    ExtremesModerate(samples, m, lo, hi);
    MeanNext(before.average, n + 1, samples[n].duration, m.min, m.max, lo, hi, Sum(rest));
    NonNegativePrefix(samples);
  }

  /** The next average between the extremes `min` and `max` of durations that stay between `lo` and `hi`. */
  lemma MeanNext(average: int, n: int, duration: int, min: int, max: int, lo: int, hi: int, sum: int)
    requires n > 1 && min <= average <= max && min <= duration <= max && lo <= min && max <= hi && lo <= 0 <= hi
    requires -TWO_63 <= n * lo && n * hi < TWO_63 && Close(n - 1, sum, average)
    ensures var next := NextAverage(average, n, duration);
            && min <= next <= max && Close(n, sum + duration, next)
            && (min >= 0 && (n - 1) * average <= sum ==> n * next <= sum + duration)
  {
    AverageFits(average, n, duration, lo, hi);
    OneMore(average, n, duration, min, max, sum);
  }

  lemma NonNegativePrefix(samples: seq<Sample>)
    requires samples != []
    ensures NonNegative(samples) ==> NonNegative(samples[..|samples| - 1])
  {
  }

  lemma ExtremesModerate(samples: seq<Sample>, m: Metrics, lo: int, hi: int)
    requires Moderate(samples, lo, hi) && Truthful(samples, m)
    ensures lo <= m.min && m.max <= hi
  {
  }

  /** One more duration: the new average stays between the bounds, and the rounding error grows by less than `n`. */
  lemma OneMore(average: int, n: int, duration: int, lo: int, hi: int, sum: int)
    requires n > 1 && lo <= average <= hi && lo <= duration <= hi && Close(n - 1, sum, average)
    ensures var next := Quotient((n - 1) * average + duration, n);
            && lo <= next <= hi && Close(n, sum + duration, next)
            && (lo >= 0 && (n - 1) * average <= sum ==> n * next <= sum + duration)
  {
    var a := (n - 1) * average + duration;
    var next := Quotient(a, n);
    WithinExtremes(average, n, duration, lo, hi);
    QuotientBounds(a, n, lo, hi);
    DriftStep(sum - (n - 1) * average, a - n * next, n);
    if lo >= 0 {
      Monotone(n, lo, 0);
    }
  }

  lemma DriftStep(drift: int, rest: int, n: int)
    requires n > 1 && -((n - 1) * (n - 2)) <= 2 * drift <= (n - 1) * (n - 2) && -n < rest < n
    ensures -(n * (n - 1)) <= 2 * (drift + rest) <= n * (n - 1)
  {
    assert n * (n - 1) == (n - 1) * (n - 2) + 2 * (n - 1);
  }
}
