/** The performance report in plain figures: what each statistic counts and what each gate demands. */
module PerfExact {
  import opened PerfGate

  // ---------- The statistics ----------

  lemma CountSnoc(xs: seq<real>, x: real, b: real)
    ensures CountBelow(xs + [x], b) == CountBelow(xs, b) + if x < b then 1 else 0
  {
    var all := xs + [x];
    assert all[..|xs|] + all[|xs| + 1..] == xs;
    CountWithout(all, |xs|, b);
  }

  /** `CountBelow` counts the positions of samples under the budget. */
  lemma {:induction false} CountIs(xs: seq<real>, b: real)
    ensures CountBelow(xs, b) == |set i | 0 <= i < |xs| && xs[i] < b|
  {
    var below := set i | 0 <= i < |xs| && xs[i] < b;
    if xs == [] {
      assert below == {};
    } else {
      var n := |xs| - 1;
      CountIs(xs[..n], b);
      assert xs == xs[..n] + [xs[n]];
      CountSnoc(xs[..n], xs[n], b);
      var before := set i | 0 <= i < n && xs[..n][i] < b;
      assert below == if xs[n] < b then before + {n} else before;
    }
  }

  /** The least whole number that is not below. */
  lemma CeilIsLeast(x: real)
    ensures x <= Ceil(x) as real < x + 1.0
  {
  }

  /** Each statistic is under a budget exactly when its share of the samples is: half of them, 95%, 99%,
      or all. */
  lemma StatsCount(xs: seq<real>, b: real)
    requires xs != []
    ensures
      var s, n := Stats(Sort(xs)), |xs| as real;
      && (s.p50 < b <==> Ceil(0.5 * n) <= CountBelow(xs, b))
      && (s.p95 < b <==> Ceil(0.95 * n) <= CountBelow(xs, b))
      && (s.p99 < b <==> Ceil(0.99 * n) <= CountBelow(xs, b))
      && (s.max < b <==> |xs| == CountBelow(xs, b))
      && s.samples == |xs|
  {
    hide Sort, CountBelow, Percentile, Ceil;
    ShareCounts(xs, 50.0, 0.5, b);
    ShareCounts(xs, 95.0, 0.95, b);
    ShareCounts(xs, 99.0, 0.99, b);
    CountSorted(Sort(xs), b, |xs| - 1);
    CountByMultiset(xs, Sort(xs), b);
    CountAtMost(xs, b);
  }

  lemma {:induction false} CountAtMost(xs: seq<real>, b: real)
    ensures CountBelow(xs, b) <= |xs|
  {
    if xs != [] {
      CountAtMost(xs[1..], b);
    }
  }

  // ---------- The gates ----------

  /** No measurement at all meets any limit, an unbounded one none. */
  predicate AtMost(m: Measure, limit: real) { m.NegInf? || (m.Fin? && m.value <= limit) }

  predicate Under(m: Measure, limit: real) { m.NegInf? || (m.Fin? && m.value < limit) }

  /** A report passes exactly when the worst p99 is under a second, the memory of an instance is at most
      50 MiB and its peak at most 100, and the tolerance stretches the other budgets far enough. */
  lemma ReportExactly(p99: Measure, steady: SteadyFigures, subscriber: SubscriberDeltas, tolerance: real)
    ensures AllPassed(EvaluateGates(p99, steady, subscriber, tolerance)) <==>
      && Under(p99, 1000.0) && AtMost(steady.rss, 50.0) && AtMost(steady.rssMax, 100.0)
      && AtMost(steady.cpu, 2.0 * tolerance) && AtMost(subscriber.cpu, 0.25 * tolerance)
      && AtMost(subscriber.rss, 2.0 * tolerance) && AtMost(subscriber.readP99, 100.0 * tolerance)
  {
    var vs := EvaluateGates(p99, steady, subscriber, tolerance);
    assert |vs| == 7;
    assert AllPassed(vs) <==> vs[0].passed && vs[1].passed && vs[2].passed && vs[3].passed && vs[4].passed
                              && vs[5].passed && vs[6].passed;
  }

  /** The worst kind's p99 is under a limit exactly when every kind's is. */
  lemma WorstKind(kinds: seq<ReadStats>, limit: real)
    ensures Under(OverallReadP99(kinds), limit) <==> forall k :: 0 <= k < |kinds| ==> kinds[k].p99 < limit
  {
    var ms := P99s(kinds);
    FoldMaxBelow(ms, Lt, limit);
    assert forall k :: 0 <= k < |kinds| ==> ms[k] == Fin(kinds[k].p99);
    hide FoldMax;
    if forall k :: 0 <= k < |ms| ==> Holds(Lt, ms[k], limit) {
      forall k | 0 <= k < |kinds|
        ensures kinds[k].p99 < limit
      {
        assert Holds(Lt, ms[k], limit);
      }
    }
  }
}
