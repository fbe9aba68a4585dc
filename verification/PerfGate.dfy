/** `crates/hekma-engine/examples/perf-budgets.rs`: the gate statistics, with real numbers in
    place of 64-bit floats. */
module PerfGate {

  // ---------- Sorting ----------

  predicate Sorted(xs: seq<real>) { forall i, j :: 0 <= i < j < |xs| ==> xs[i] <= xs[j] }

  function Insert(x: real, s: seq<real>): (r: seq<real>)
    requires Sorted(s)
    ensures Sorted(r) && multiset(r) == multiset(s) + multiset{x}
  {
    if s == [] || x <= s[0] then
      [x] + s
    else
      var r := Insert(x, s[1..]);
      DropFirst(s);
      BoundedBelow(s, x, r);
      PrependSorted(s[0], r);
      [s[0]] + r
  }

  lemma PrependSorted(x: real, r: seq<real>)
    requires Sorted(r) && forall i :: 0 <= i < |r| ==> x <= r[i]
    ensures Sorted([x] + r)
  {
  }

  lemma BoundedBelow(s: seq<real>, x: real, r: seq<real>)
    requires Sorted(s) && s != [] && s[0] <= x && multiset(r) == multiset(s[1..]) + multiset{x}
    ensures forall i :: 0 <= i < |r| ==> s[0] <= r[i]
  {
    forall i | 0 <= i < |r|
      ensures s[0] <= r[i]
    {
      assert r[i] in multiset(r);
      assert r[i] in multiset(s[1..]) || r[i] == x;
    }
  }

  function Sort(xs: seq<real>): (r: seq<real>)
    ensures Sorted(r) && multiset(r) == multiset(xs) && |r| == |xs|
  {
    if xs == [] then []
    else
      assert xs == [xs[0]] + xs[1..];
      var r := Insert(xs[0], Sort(xs[1..]));
      assert |multiset(r)| == |multiset(xs)|;
      r
  }

  /** A list has one sorted form, however it was ordered. */
  lemma {:induction false} SortedUnique(a: seq<real>, b: seq<real>)
    requires Sorted(a) && Sorted(b) && multiset(a) == multiset(b)
    ensures a == b
  {
    if a == [] {
      assert |multiset(b)| == 0;
    } else {
      assert |multiset(a)| == |a| && |multiset(b)| == |b|;
      SmallestFirst(a, b);
      SmallestFirst(b, a);
      DropFirst(a);
      DropFirst(b);
      SortedUnique(a[1..], b[1..]);
      assert a == [a[0]] + a[1..] && b == [b[0]] + b[1..];
    }
  }

  lemma SmallestFirst(a: seq<real>, b: seq<real>)
    requires Sorted(b) && a != [] && multiset(a) == multiset(b)
    ensures b != [] && b[0] <= a[0]
  {
    assert a[0] in multiset(a);
    assert a[0] in multiset(b);
    var i :| 0 <= i < |b| && b[i] == a[0];
  }

  lemma DropFirst(a: seq<real>)
    requires a != []
    ensures multiset(a[1..]) == multiset(a) - multiset{a[0]}
  {
    assert a == [a[0]] + a[1..];
  }

  // ---------- Nearest-rank percentiles ----------

  function Ceil(x: real): int { -((-x).Floor) }

  function Rank(n: nat, pct: real): int {
    var r := Ceil(pct / 100.0 * n as real);
    if r < 1 then 1 else r
  }

  /** The source indexes an empty list out of bounds here, so an empty kind never gets this far. */
  function Percentile(sorted: seq<real>, pct: real): real
    requires sorted != []
  {
    var rank := Rank(|sorted|, pct);
    sorted[if rank - 1 < |sorted| - 1 then rank - 1 else |sorted| - 1]
  }

  datatype ReadStats = ReadStats(p50: real, p95: real, p99: real, max: real, samples: nat)

  function Stats(sorted: seq<real>): ReadStats
    requires sorted != []
  {
    ReadStats(Percentile(sorted, 50.0), Percentile(sorted, 95.0), Percentile(sorted, 99.0),
              sorted[|sorted| - 1], |sorted|)
  }

  /** `summarize_read`: sorts the samples in place and reads the statistics off. */
  method SummarizeRead(samples: array<real>) returns (stats: ReadStats)
    requires samples.Length > 0
    modifies samples
    ensures samples[..] == Sort(old(samples[..]))
    ensures stats == Stats(Sort(old(samples[..])))
  {
    var s := Sort(samples[..]);
    forall i | 0 <= i < samples.Length {
      samples[i] := s[i];
    }
    assert samples[..] == s;
    stats := Stats(samples[..]);
  }

  function CountBelow(xs: seq<real>, b: real): nat {
    if xs == [] then 0 else (if xs[0] < b then 1 else 0) + CountBelow(xs[1..], b)
  }

  // ---------- Merging the readers' samples ----------

  function Flatten(parts: seq<seq<real>>): seq<real> {
    if parts == [] then [] else Flatten(parts[..|parts| - 1]) + parts[|parts| - 1]
  }

  method MergeKindSamples(parts: seq<seq<real>>) returns (all: seq<real>)
    ensures all == Flatten(parts)
  {
    all := [];
    for i := 0 to |parts|
      invariant all == Flatten(parts[..i])
    {
      assert parts[..i + 1][..i] == parts[..i];
      all := all + parts[i];
    }
    assert parts[..|parts|] == parts;
  }

  // ---------- Gates ----------

  /** A measurement: the worst of no kinds is `NegInf`, a figure per zero instances `PosInf`. */
  datatype Measure = NegInf | Fin(value: real) | PosInf

  function Max(a: Measure, b: Measure): Measure {
    match (a, b)
    case (PosInf, _) => PosInf
    case (_, PosInf) => PosInf
    case (NegInf, _) => b
    case (_, NegInf) => a
    case (Fin(x), Fin(y)) => if x < y then b else a
  }

  function FoldMax(ms: seq<Measure>): Measure {
    if ms == [] then NegInf else Max(FoldMax(ms[..|ms| - 1]), ms[|ms| - 1])
  }

  function P99s(kinds: seq<ReadStats>): seq<Measure> {
    seq(|kinds|, i requires 0 <= i < |kinds| => Fin(kinds[i].p99))
  }

  function OverallReadP99(kinds: seq<ReadStats>): Measure {
    FoldMax(P99s(kinds))
  }

  datatype GateBound = Le | Lt

  predicate Holds(bound: GateBound, measured: Measure, effective: real) {
    match measured
    case NegInf => true
    case PosInf => false
    case Fin(x) => if bound.Le? then x <= effective else x < effective
  }

  datatype Verdict = Verdict(bound: GateBound, measured: Measure, budget: real, effective: real, passed: bool)

  function Gate(measured: Measure, budget: real, tolerance: real, bound: GateBound): Verdict {
    Verdict(bound, measured, budget, budget * tolerance, Holds(bound, measured, budget * tolerance))
  }

  const BUDGET_READ_P99_MS: real := 1000.0
  const BUDGET_CPU_PER_INSTANCE_PCT: real := 2.0
  const BUDGET_RSS_PER_INSTANCE_MIB: real := 50.0
  const RSS_SPIKE_TOLERANCE: real := 2.0
  const BUDGET_SUBSCRIBER_CPU_DELTA_PCT_POINTS: real := 0.25
  const BUDGET_SUBSCRIBER_RSS_DELTA_MIB: real := 2.0
  const BUDGET_SUBSCRIBER_READ_P99_DELTA_MS: real := 100.0

  datatype SteadyFigures = SteadyFigures(cpu: Measure, rss: Measure, rssMax: Measure)

  datatype SubscriberDeltas = SubscriberDeltas(cpu: Measure, rss: Measure, readP99: Measure)

  function EvaluateGates(overallP99: Measure, steady: SteadyFigures, subscriber: SubscriberDeltas,
      tolerance: real): seq<Verdict> {
    [Gate(overallP99, BUDGET_READ_P99_MS, 1.0, Lt),
     Gate(steady.rss, BUDGET_RSS_PER_INSTANCE_MIB, 1.0, Le),
     Gate(steady.rssMax, BUDGET_RSS_PER_INSTANCE_MIB * RSS_SPIKE_TOLERANCE, 1.0, Le),
     Gate(steady.cpu, BUDGET_CPU_PER_INSTANCE_PCT, tolerance, Le),
     Gate(subscriber.cpu, BUDGET_SUBSCRIBER_CPU_DELTA_PCT_POINTS, tolerance, Le),
     Gate(subscriber.rss, BUDGET_SUBSCRIBER_RSS_DELTA_MIB, tolerance, Le),
     Gate(subscriber.readP99, BUDGET_SUBSCRIBER_READ_P99_DELTA_MS, tolerance, Le)]
  }

  predicate AllPassed(verdicts: seq<Verdict>) { forall i :: 0 <= i < |verdicts| ==> verdicts[i].passed }

  // ---------- What the read gate counts ----------

  lemma RankInRange(n: nat, pct: real)
    requires 0 < n && 0.0 <= pct <= 100.0
    ensures 1 <= Rank(n, pct) <= n
    ensures Rank(n, pct) as real >= pct / 100.0 * n as real
  {
    var x := pct / 100.0 * n as real;
    assert pct / 100.0 <= 1.0;
    assert x <= n as real by { ScaleDown(pct / 100.0, n as real); }
    assert -(n as real) <= -x;
  }

  lemma ScaleDown(f: real, n: real)
    requires f <= 1.0 && 0.0 <= n
    ensures f * n <= n
  {
  }

  lemma RankMonotone(n: nat, p: real, q: real)
    requires p <= q
    ensures Rank(n, p) <= Rank(n, q)
  {
    var x, y := p / 100.0 * n as real, q / 100.0 * n as real;
    ScaleMonotone(p / 100.0, q / 100.0, n as real);
    assert x <= y && (-y).Floor <= (-x).Floor;
  }

  lemma ScaleMonotone(f: real, g: real, n: real)
    requires f <= g && 0.0 <= n
    ensures f * n <= g * n
  {
  }

  /** In a sorted list, entry `k` is below `b` exactly when more than `k` entries are. */
  lemma {:induction false} CountSorted(s: seq<real>, b: real, k: nat)
    requires Sorted(s) && k < |s|
    ensures s[k] < b <==> k < CountBelow(s, b)
  {
    if s[0] < b {
      if k == 0 {
      } else {
        CountSorted(s[1..], b, k - 1);
      }
    } else {
      NoneBelow(s, b);
    }
  }

  lemma {:induction false} NoneBelow(s: seq<real>, b: real)
    requires forall i :: 0 <= i < |s| ==> b <= s[i]
    ensures CountBelow(s, b) == 0
  {
    if s != [] {
      NoneBelow(s[1..], b);
    }
  }

  lemma {:induction false} CountByMultiset(a: seq<real>, b: seq<real>, x: real)
    requires multiset(a) == multiset(b)
    ensures CountBelow(a, x) == CountBelow(b, x)
    decreases |a|
  {
    if a == [] {
      assert |multiset(b)| == 0;
    } else {
      assert a == [a[0]] + a[1..];
      assert a[0] in multiset(a);
      var i :| 0 <= i < |b| && b[i] == a[0];
      var b' := b[..i] + b[i + 1..];
      assert b == b[..i] + [b[i]] + b[i + 1..];
      assert multiset(b') == multiset(b) - multiset{a[0]};
      assert multiset(a[1..]) == multiset(a) - multiset{a[0]};
      CountByMultiset(a[1..], b', x);
      CountWithout(b, i, x);
    }
  }

  lemma {:induction false} CountWithout(b: seq<real>, i: nat, x: real)
    requires i < |b|
    ensures CountBelow(b, x) == CountBelow(b[..i] + b[i + 1..], x) + if b[i] < x then 1 else 0
  {
    if i == 0 {
      assert b[..0] + b[1..] == b[1..];
    } else {
      CountWithout(b[1..], i - 1, x);
      assert (b[..i] + b[i + 1..])[1..] == b[1..][..i - 1] + b[1..][i..];
    }
  }

  /** A percentile is strictly under a budget exactly when at least its rank of samples are. */
  lemma PercentileCounts(xs: seq<real>, pct: real, b: real)
    requires xs != [] && 0.0 <= pct <= 100.0
    ensures Percentile(Sort(xs), pct) < b <==> Rank(|xs|, pct) <= CountBelow(xs, b)
  {
    RankInRange(|xs|, pct);
    CountSorted(Sort(xs), b, Rank(|xs|, pct) - 1);
    CountByMultiset(xs, Sort(xs), b);
  }

  /** The same with the percentage as a share: the rank is the share of the samples, rounded up. */
  lemma ShareCounts(xs: seq<real>, pct: real, share: real, b: real)
    requires xs != [] && 0.0 < pct <= 100.0 && share == pct / 100.0
    ensures Percentile(Sort(xs), pct) < b <==> Ceil(share * |xs| as real) <= CountBelow(xs, b)
  {
    hide Sort, Percentile, Ceil, Rank;
    PercentileCounts(xs, pct, b);
    RankIsShare(|xs|, pct, share, share * |xs| as real);
  }

  lemma RankIsShare(n: nat, pct: real, share: real, x: real)
    requires 0 < n && 0.0 < pct <= 100.0 && share == pct / 100.0 && x == share * n as real
    ensures Rank(n, pct) == Ceil(x)
  {
    ScaleUp(share, n as real);
    AtLeastOne(x);
    hide Ceil;
    assert pct / 100.0 * n as real == x;
  }

  lemma AtLeastOne(x: real)
    requires 0.0 < x
    ensures 1 <= Ceil(x)
  {
  }

  lemma ScaleUp(f: real, n: real)
    requires 0.0 < f && 0.0 < n
    ensures 0.0 < f * n
  {
  }

  /** The percentiles come in order. */
  lemma PercentilesOrdered(xs: seq<real>)
    requires xs != []
    ensures var s := Stats(Sort(xs)); s.p50 <= s.p95 <= s.p99 <= s.max
    ensures Stats(Sort(xs)).samples == |xs|
  {
    var n := |xs|;
    RankInRange(n, 50.0);
    RankInRange(n, 95.0);
    RankInRange(n, 99.0);
    RankMonotone(n, 50.0, 95.0);
    RankMonotone(n, 95.0, 99.0);
  }

  lemma {:induction false} FoldMaxBelow(ms: seq<Measure>, bound: GateBound, b: real)
    ensures Holds(bound, FoldMax(ms), b) <==> forall i :: 0 <= i < |ms| ==> Holds(bound, ms[i], b)
  {
    if ms != [] {
      FoldMaxBelow(ms[..|ms| - 1], bound, b);
    }
  }

  /** The summaries of all kinds. */
  function Summaries(kinds: seq<seq<real>>): seq<ReadStats>
    requires forall k :: 0 <= k < |kinds| ==> kinds[k] != []
  {
    seq(|kinds|, k requires 0 <= k < |kinds| => Stats(Sort(kinds[k])))
  }

  /** The read gate passes exactly when, in every kind, at least 99% of the samples are strictly
      under the budget. */
  lemma ReadGateCounts(kinds: seq<seq<real>>)
    requires forall k :: 0 <= k < |kinds| ==> kinds[k] != []
    ensures Gate(OverallReadP99(Summaries(kinds)), BUDGET_READ_P99_MS, 1.0, Lt).passed
       <==> forall k :: 0 <= k < |kinds| ==> Ceil(0.99 * |kinds[k]| as real) <= CountBelow(kinds[k], BUDGET_READ_P99_MS)
  {
    hide Sort, Percentile, Ceil, CountBelow, FoldMax;
    var ms := P99s(Summaries(kinds));
    FoldMaxBelow(ms, Lt, BUDGET_READ_P99_MS);
    forall k | 0 <= k < |kinds|
      ensures Holds(Lt, ms[k], BUDGET_READ_P99_MS)
         <==> Ceil(0.99 * |kinds[k]| as real) <= CountBelow(kinds[k], BUDGET_READ_P99_MS)
    {
      ShareCounts(kinds[k], 99.0, 0.99, BUDGET_READ_P99_MS);
    }
  }

  /** How the samples were split among readers, and in what order, changes nothing. */
  lemma SplitsDoNotMatter(parts: seq<seq<real>>, others: seq<seq<real>>)
    requires multiset(Flatten(parts)) == multiset(Flatten(others)) && Flatten(parts) != []
    ensures Flatten(others) != [] && Stats(Sort(Flatten(parts))) == Stats(Sort(Flatten(others)))
  {
    assert |multiset(Flatten(parts))| == |multiset(Flatten(others))|;
    SortedUnique(Sort(Flatten(parts)), Sort(Flatten(others)));
  }

  // ---------- The tolerance ----------

  /** A measurement in units of its budget. */
  function Share(m: Measure, budget: real): Measure
    requires 0.0 < budget
  {
    match m
    case Fin(x) => Fin(x / budget)
    case _ => m
  }

  lemma ShareHolds(m: Measure, budget: real, tolerance: real)
    requires 0.0 < budget
    ensures Holds(Le, m, budget * tolerance) <==> Holds(Le, Share(m, budget), tolerance)
  {
    if m.Fin? {
      var y := m.value / budget;
      assert m.value == budget * y;
      ScaleOrder(budget, y, tolerance);
    }
  }

  lemma ScaleOrder(k: real, x: real, y: real)
    requires 0.0 < k
    ensures k * x <= k * y <==> x <= y
  {
    if x > y {
      assert k * (x - y) > 0.0;
    } else {
      assert k * (y - x) >= 0.0;
    }
  }

  /** The least tolerance at which no tolerated figure is over its budget: the largest share. */
  function Needed(steady: SteadyFigures, subscriber: SubscriberDeltas): Measure {
    FoldMax([Share(steady.cpu, BUDGET_CPU_PER_INSTANCE_PCT),
             Share(subscriber.cpu, BUDGET_SUBSCRIBER_CPU_DELTA_PCT_POINTS),
             Share(subscriber.rss, BUDGET_SUBSCRIBER_RSS_DELTA_MIB),
             Share(subscriber.readP99, BUDGET_SUBSCRIBER_READ_P99_DELTA_MS)])
  }

  /** A report turns on its tolerance at one point: it passes exactly when its read and memory figures
      meet their budgets as they are and the tolerance reaches the one needed. */
  lemma ToleranceThreshold(p99: Measure, steady: SteadyFigures, subscriber: SubscriberDeltas, tolerance: real)
    ensures AllPassed(EvaluateGates(p99, steady, subscriber, tolerance))
       <==> && Holds(Lt, p99, 1000.0) && Holds(Le, steady.rss, 50.0) && Holds(Le, steady.rssMax, 100.0)
            && Holds(Le, Needed(steady, subscriber), tolerance)
  {
    var vs := EvaluateGates(p99, steady, subscriber, tolerance);
    ShareHolds(steady.cpu, BUDGET_CPU_PER_INSTANCE_PCT, tolerance);
    ShareHolds(subscriber.cpu, BUDGET_SUBSCRIBER_CPU_DELTA_PCT_POINTS, tolerance);
    ShareHolds(subscriber.rss, BUDGET_SUBSCRIBER_RSS_DELTA_MIB, tolerance);
    ShareHolds(subscriber.readP99, BUDGET_SUBSCRIBER_READ_P99_DELTA_MS, tolerance);
    var shares := [Share(steady.cpu, BUDGET_CPU_PER_INSTANCE_PCT),
                   Share(subscriber.cpu, BUDGET_SUBSCRIBER_CPU_DELTA_PCT_POINTS),
                   Share(subscriber.rss, BUDGET_SUBSCRIBER_RSS_DELTA_MIB),
                   Share(subscriber.readP99, BUDGET_SUBSCRIBER_READ_P99_DELTA_MS)];
    FoldMaxBelow(shares, Le, tolerance);
    hide Share, FoldMax, Holds;
    forall i | 0 <= i < 4
      ensures Holds(Le, shares[i], tolerance) <==> vs[3 + i].passed
    {
    }
    assert vs[0].passed <==> Holds(Lt, p99, 1000.0);
    assert vs[1].passed <==> Holds(Le, steady.rss, 50.0);
    assert vs[2].passed <==> Holds(Le, steady.rssMax, 100.0);
    assert forall i :: 3 <= i < |vs| ==> (vs[i].passed <==> Holds(Le, shares[i - 3], tolerance));
  }

  /** So the shared-runner tolerance only loosens, and never rescues the read or memory gates. */
  lemma ToleranceOnlyLoosens(p99: Measure, steady: SteadyFigures, subscriber: SubscriberDeltas, tight: real,
      loose: real)
    requires tight <= loose && AllPassed(EvaluateGates(p99, steady, subscriber, tight))
    ensures AllPassed(EvaluateGates(p99, steady, subscriber, loose))
  {
    ToleranceThreshold(p99, steady, subscriber, tight);
    ToleranceThreshold(p99, steady, subscriber, loose);
  }
}
