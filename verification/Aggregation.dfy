/** Deterministic aggregation of one configuration's query attempts: type-7 percentiles, means and rates. */
module Aggregation {
  import opened Collections
  import M = Metrics
  import P = Pairing

  datatype Summary = Summary(value: Option<real>, samples: nat)

  datatype Error = InvalidPercentile | InvalidSample | DuplicateQueries

  // ----- Percentiles

  predicate RealLe(a: real, b: real) {
    a <= b
  }

  function Blend(low: real, high: real, fraction: real): real {
    low + fraction * (high - low)
  }

  function Ceiling(x: real): int {
    if x.Floor as real == x then x.Floor else x.Floor + 1
  }

  /** Piecewise linear interpolation between neighbouring elements. */
  function Interpolate(ordered: seq<real>, position: real): real
    requires ordered != [] && 0.0 <= position <= (|ordered| - 1) as real
  {
    Blend(ordered[position.Floor], ordered[Ceiling(position)], position - position.Floor as real)
  }

  function Position(count: nat, percentile: real): real
    requires count > 0
  {
    (count - 1) as real * percentile
  }

  lemma PositionBounds(count: nat, percentile: real)
    requires count > 0 && 0.0 <= percentile <= 1.0
    ensures 0.0 <= Position(count, percentile) <= (count - 1) as real
  {
    var n := (count - 1) as real;
    NonNegativeProduct(n, percentile);
    NonNegativeProduct(n, 1.0 - percentile);
    assert n * percentile + n * (1.0 - percentile) == n;
  }

  lemma NonNegativeProduct(x: real, y: real)
    requires x >= 0.0 && y >= 0.0
    ensures x * y >= 0.0
  {
  }

  predicate HasNegative(values: seq<real>) {
    exists v :: v in values && v < 0.0
  }

  /** The Hyndman-Fan type 7 percentile; no samples give a null value. */
  function LinearPercentile(values: seq<real>, percentile: real): Result<Summary, Error> {
    if !(0.0 <= percentile <= 1.0) then Err(InvalidPercentile)
    else if HasNegative(values) then Err(InvalidSample)
    else if values == [] then Ok(Summary(None, 0))
    else
      PositionBounds(|values|, percentile);
      Ok(Summary(Some(Interpolate(Sort(values, RealLe), Position(|values|, percentile))), |values|))
  }

  lemma BlendBetween(low: real, high: real, f: real)
    requires low <= high && 0.0 <= f <= 1.0
    ensures low <= Blend(low, high, f) <= high
  {
    var gap := high - low;
    NonNegativeProduct(f, gap);
    NonNegativeProduct(1.0 - f, gap);
    assert f * gap + (1.0 - f) * gap == gap;
  }

  lemma BlendMonotone(low: real, high: real, f: real, low2: real, high2: real, f2: real)
    requires 0.0 <= f <= f2 <= 1.0 && low <= high && low <= low2 && high <= high2
    requires f == f2 || (low == low2 && high == high2)
    ensures Blend(low, high, f) <= Blend(low2, high2, f2)
  {
    if f == f2 {
      NonNegativeProduct(f, high2 - high);
      NonNegativeProduct(1.0 - f, low2 - low);
      assert Blend(low2, high2, f) - Blend(low, high, f) == f * (high2 - high) + (1.0 - f) * (low2 - low);
    } else {
      var gap := high - low;
      NonNegativeProduct(f2 - f, gap);
      assert f2 * gap - f * gap == (f2 - f) * gap;
    }
  }

  lemma SortedAt(ordered: seq<real>, i: int, j: int)
    requires SortedBy(ordered, RealLe) && 0 <= i <= j < |ordered|
    ensures ordered[i] <= ordered[j]
  {
    assert i < j ==> RealLe(ordered[i], ordered[j]);
  }

  /** A percentile lies between the two adjacent order statistics. */
  lemma BetweenOrderStatistics(ordered: seq<real>, position: real)
    requires ordered != [] && 0.0 <= position <= (|ordered| - 1) as real && SortedBy(ordered, RealLe)
    ensures ordered[position.Floor] <= Interpolate(ordered, position) <= ordered[Ceiling(position)]
  {
    SortedAt(ordered, position.Floor, Ceiling(position));
    BlendBetween(ordered[position.Floor], ordered[Ceiling(position)], position - position.Floor as real);
  }

  lemma MonotoneInPosition(ordered: seq<real>, x: real, y: real)
    requires ordered != [] && 0.0 <= x <= y <= (|ordered| - 1) as real && SortedBy(ordered, RealLe)
    ensures Interpolate(ordered, x) <= Interpolate(ordered, y)
  {
    if x.Floor == y.Floor {
      var low, f, g := ordered[x.Floor], x - x.Floor as real, y - y.Floor as real;
      SortedAt(ordered, x.Floor, Ceiling(y));
      if f == 0.0 {
        BlendBetween(low, ordered[Ceiling(y)], g);
      } else {
        BlendMonotone(low, ordered[Ceiling(y)], f, low, ordered[Ceiling(y)], g);
      }
    } else {
      BetweenOrderStatistics(ordered, x);
      BetweenOrderStatistics(ordered, y);
      assert Ceiling(x) <= y.Floor;
      SortedAt(ordered, Ceiling(x), y.Floor);
    }
  }

  lemma {:induction false} DominatedCounts(a: seq<real>, b: seq<real>, p: real -> bool)
    requires |a| == |b| && forall i | 0 <= i < |a| :: p(b[i]) ==> p(a[i])
    ensures CountIf(b, p) <= CountIf(a, p)
  {
    if a != [] { DominatedCounts(a[1..], b[1..], p); }
  }

  /** Raising samples raises every order statistic. */
  lemma DominatedSorts(a: seq<real>, b: seq<real>, i: nat)
    requires |a| == |b| && i < |a| && forall k | 0 <= k < |a| :: a[k] <= b[k]
    ensures Sort(a, RealLe)[i] <= Sort(b, RealLe)[i]
  {
    var sa, sb := Sort(a, RealLe), Sort(b, RealLe);
    SortSorted(a, RealLe);
    SortSorted(b, RealLe);
    var y := sb[i];
    var within := (x: real) => x <= y;
    DominatedCounts(a, b, within);
    CountIfPermutation(a, sa, within);
    CountIfPermutation(b, sb, within);
    PrefixCounts(sb, i, within);
    if !within(sa[i]) { SuffixCounts(sa, i, within); }
  }

  lemma PrefixCounts(s: seq<real>, i: nat, within: real -> bool)
    requires SortedBy(s, RealLe) && i < |s| && forall x :: within(x) == (x <= s[i])
    ensures CountIf(s, within) >= i + 1
  {
    assert s == s[..i + 1] + s[i + 1..];
    CountIfAppend(s[..i + 1], s[i + 1..], within);
    forall x | x in s[..i + 1] ensures within(x) {
      var k :| 0 <= k <= i && s[k] == x;
      SortedAt(s, k, i);
    }
    CountIfBounds(s[..i + 1], within);
  }

  lemma SuffixCounts(s: seq<real>, i: nat, within: real -> bool)
    requires SortedBy(s, RealLe) && i < |s| && !within(s[i])
    requires forall x, y | x <= y && within(y) :: within(x)
    ensures CountIf(s, within) <= i
  {
    assert s == s[..i] + s[i..];
    CountIfAppend(s[..i], s[i..], within);
    forall x | x in s[i..] ensures !within(x) {
      var k :| i <= k < |s| && s[k] == x;
      SortedAt(s, i, k);
    }
    CountIfBounds(s[i..], within);
    CountIfBounds(s[..i], within);
  }

  lemma RealLaws(s: seq<real>)
    ensures Total(RealLe) && Transitive(RealLe) && Separates(s, RealLe)
  {
  }

  /** Percentile laws: independent of the sample order, between adjacent order statistics, monotone in the
      percentile and in every sample. */
  lemma PercentileLaws(values: seq<real>, other: seq<real>, p: real, q: real)
    requires LinearPercentile(values, p).Ok? && LinearPercentile(values, q).Ok? && p <= q && values != []
    ensures multiset(other) == multiset(values) ==> LinearPercentile(other, p) == LinearPercentile(values, p)
    ensures var x, ordered := Position(|values|, p), Sort(values, RealLe);
            && 0 <= x.Floor <= Ceiling(x) < |ordered|
            && ordered[x.Floor] <= LinearPercentile(values, p).value.value.value <= ordered[Ceiling(x)]
    ensures LinearPercentile(values, p).value.value.value <= LinearPercentile(values, q).value.value.value
    ensures |other| == |values| && (forall k | 0 <= k < |values| :: values[k] <= other[k]) ==>
      LinearPercentile(other, p).Ok?
          && LinearPercentile(values, p).value.value.value <= LinearPercentile(other, p).value.value.value
  {
    hide Sort, LinearPercentile;
    PercentileOfOrder(values, p, q);
    if multiset(other) == multiset(values) { PercentileIgnoresOrder(values, other, p); }
    if |other| == |values| && forall k | 0 <= k < |values| :: values[k] <= other[k] {
      PercentileOfSamples(values, other, p);
    }
  }

  lemma PercentileOfOrder(values: seq<real>, p: real, q: real)
    requires LinearPercentile(values, p).Ok? && LinearPercentile(values, q).Ok? && p <= q && values != []
    ensures var x, ordered := Position(|values|, p), Sort(values, RealLe);
            && 0 <= x.Floor <= Ceiling(x) < |ordered|
            && ordered[x.Floor] <= LinearPercentile(values, p).value.value.value <= ordered[Ceiling(x)]
    ensures LinearPercentile(values, p).value.value.value <= LinearPercentile(values, q).value.value.value
  {
    var ordered := Sort(values, RealLe);
    RealLaws(values);
    SortSorted(values, RealLe);
    PositionBounds(|values|, p);
    PositionBounds(|values|, q);
    var x, y := Position(|values|, p), Position(|values|, q);
    BetweenOrderStatistics(ordered, x);
    PositionMonotone(|values|, p, q);
    MonotoneInPosition(ordered, x, y);
  }

  lemma PercentileIgnoresOrder(values: seq<real>, other: seq<real>, p: real)
    requires multiset(other) == multiset(values)
    ensures LinearPercentile(other, p) == LinearPercentile(values, p)
  {
    RealLaws(values);
    SortPermutation(values, other, RealLe);
    PermutationMembers(values, other);
  }

  lemma PercentileOfSamples(values: seq<real>, other: seq<real>, p: real)
    requires LinearPercentile(values, p).Ok? && values != []
    requires |other| == |values| && (forall k | 0 <= k < |values| :: values[k] <= other[k])
    ensures LinearPercentile(other, p).Ok?
    ensures LinearPercentile(values, p).value.value.value <= LinearPercentile(other, p).value.value.value
  {
    PositionBounds(|values|, p);
    SamplesStayValid(values, other, p);
    MonotoneInSamples(values, other, Position(|values|, p));
  }

  lemma PositionMonotone(count: nat, p: real, q: real)
    requires count > 0 && p <= q
    ensures Position(count, p) <= Position(count, q)
  {
    NonNegativeProduct((count - 1) as real, q - p);
    assert Position(count, q) - Position(count, p) == (count - 1) as real * (q - p);
  }

  lemma SamplesStayValid(values: seq<real>, other: seq<real>, p: real)
    requires LinearPercentile(values, p).Ok? && values != []
    requires |other| == |values| && forall k | 0 <= k < |values| :: values[k] <= other[k]
    ensures LinearPercentile(other, p).Ok?
  {
    forall v | v in other ensures v >= 0.0 {
      var k :| 0 <= k < |other| && other[k] == v;
      assert values[k] in values;
    }
  }

  lemma MonotoneInSamples(values: seq<real>, other: seq<real>, x: real)
    requires values != [] && |other| == |values| && forall k | 0 <= k < |values| :: values[k] <= other[k]
    requires 0.0 <= x <= (|values| - 1) as real
    ensures Interpolate(Sort(values, RealLe), x) <= Interpolate(Sort(other, RealLe), x)
  {
    var a, b := Sort(values, RealLe), Sort(other, RealLe);
    DominatedSorts(values, other, x.Floor);
    DominatedSorts(values, other, Ceiling(x));
    SortSorted(values, RealLe);
    SortedAt(a, x.Floor, Ceiling(x));
    BlendMonotone(a[x.Floor], a[Ceiling(x)], x - x.Floor as real, b[x.Floor], b[Ceiling(x)], x - x.Floor as real);
  }

  // ----- What a percentile is

  /** The value at place (n - 1)p of the ordered samples, in proportion between its two neighbours. */
  ghost predicate IsPercentile(summary: Summary, ordered: seq<real>, percentile: real) {
    if ordered == [] then summary == Summary(None, 0)
    else
      var x := (|ordered| - 1) as real * percentile;
      && summary.samples == |ordered| && summary.value.Some? && 0 <= x.Floor < |ordered|
      && (x == x.Floor as real ==> summary.value.value == ordered[x.Floor])
      && (x > x.Floor as real ==>
            && x.Floor + 1 < |ordered|
            && Proportional(summary.value.value - ordered[x.Floor], x - x.Floor as real,
                            ordered[x.Floor + 1] - ordered[x.Floor]))
  }

  predicate Proportional(part: real, fraction: real, whole: real) {
    part == fraction * whole
  }

  lemma BlendMeans(low: real, high: real, fraction: real)
    ensures Proportional(Blend(low, high, fraction) - low, fraction, high - low)
    ensures fraction == 0.0 ==> Blend(low, high, fraction) == low
  {
  }

  lemma InterpolateMeans(ordered: seq<real>, p: real)
    requires ordered != [] && 0.0 <= p <= 1.0
    ensures 0.0 <= Position(|ordered|, p) <= (|ordered| - 1) as real
    ensures IsPercentile(Summary(Some(Interpolate(ordered, Position(|ordered|, p))), |ordered|), ordered, p)
  {
    hide Blend, Proportional;
    PositionBounds(|ordered|, p);
    var x := Position(|ordered|, p);
    BlendMeans(ordered[x.Floor], ordered[Ceiling(x)], x - x.Floor as real);
  }

  /** A percentile is refused exactly out of range and for a negative sample, in this order; otherwise it is
      the percentile of the ordered samples. */
  lemma PercentileMeans(values: seq<real>, p: real)
    ensures LinearPercentile(values, p) == Err(InvalidPercentile) <==> p < 0.0 || p > 1.0
    ensures LinearPercentile(values, p) == Err(InvalidSample) <==>
            0.0 <= p <= 1.0 && exists v :: v in values && v < 0.0
    ensures LinearPercentile(values, p).Ok? ==> IsPercentile(LinearPercentile(values, p).value, Sort(values, RealLe), p)
    ensures multiset(Sort(values, RealLe)) == multiset(values)
    ensures forall i, j | 0 <= i < j < |values| :: Sort(values, RealLe)[i] <= Sort(values, RealLe)[j]
    ensures LinearPercentile(values, p).Ok? || LinearPercentile(values, p).error != DuplicateQueries
  {
    hide Interpolate, Position, IsPercentile;
    RealLaws(values);
    SortSorted(values, RealLe);
    var ordered := Sort(values, RealLe);
    forall i, j | 0 <= i < j < |values| ensures ordered[i] <= ordered[j] { assert RealLe(ordered[i], ordered[j]); }
    if values != [] && 0.0 <= p <= 1.0 { InterpolateMeans(ordered, p); }
    NoPercentile(p);
  }

  lemma NoPercentile(p: real)
    ensures IsPercentile(Summary(None, 0), [], p)
  {
  }

  // ----- Aggregates

  datatype Quality = Ndcg | Recall | Mrr

  function QualityOf(quality: Quality): P.Outcome -> Option<real> {
    (o: P.Outcome) => if o.metrics.None? then None
                      else match quality
                           case Ndcg => o.metrics.value.ndcg
                           case Recall => o.metrics.value.recall
                           case Mrr => o.metrics.value.mrr
  }

  function Latency(): P.Outcome -> Option<real> {
    (o: P.Outcome) => o.latency
  }

  /** The values that are present, in order. */
  function Collect<T>(s: seq<T>, f: T -> Option<real>): seq<real> {
    if s == [] then [] else Present(f(s[0])) + Collect(s[1..], f)
  }

  function Present(x: Option<real>): seq<real> {
    if x.Some? then [x.value] else []
  }

  lemma {:induction false} CollectAppend<T>(a: seq<T>, b: seq<T>, f: T -> Option<real>)
    ensures Collect(a + b, f) == Collect(a, f) + Collect(b, f)
  {
    if a == [] {
      assert a + b == b;
    } else {
      assert (a + b)[1..] == a[1..] + b;
      CollectAppend(a[1..], b, f);
      hide Present;
    }
  }

  lemma CollectRemove<T>(b: seq<T>, i: nat, f: T -> Option<real>)
    requires i < |b|
    ensures multiset(Collect(b, f)) == multiset(Present(f(b[i]))) + multiset(Collect(b[..i] + b[i + 1..], f))
  {
    hide Present;
    assert b == b[..i] + b[i..] && b[i..][1..] == b[i + 1..];
    CollectAppend(b[..i], b[i..], f);
    CollectAppend(b[..i], b[i + 1..], f);
    assert Collect(b[i..], f) == Present(f(b[i])) + Collect(b[i + 1..], f);
  }

  lemma {:induction false} CollectPermutation<T>(a: seq<T>, b: seq<T>, f: T -> Option<real>)
    requires multiset(a) == multiset(b)
    ensures multiset(Collect(a, f)) == multiset(Collect(b, f))
  {
    PermutationMembers(a, b);
    if a != [] {
      assert a[0] in b;
      var i :| 0 <= i < |b| && b[i] == a[0];
      TailMultiset(a);
      RemoveMultiset(b, i);
      CollectPermutation(a[1..], b[..i] + b[i + 1..], f);
      CollectRemove(b, i, f);
      hide Present;
    }
  }

  lemma {:induction false} CollectMembers<T>(s: seq<T>, f: T -> Option<real>)
    ensures forall v | v in Collect(s, f) :: exists x :: x in s && f(x) == Some(v)
  {
    if s != [] {
      CollectMembers(s[1..], f);
      forall v | v in Collect(s, f) ensures exists x :: x in s && f(x) == Some(v) {
        if v in Collect(s[1..], f) {
          var x :| x in s[1..] && f(x) == Some(v);
          assert x in s;
        } else {
          assert s[0] in s;
        }
      }
    }
  }

  function Identity(): real -> real {
    (x: real) => x
  }

  function MeanOf(values: seq<real>): Summary {
    if values == [] then Summary(None, 0) else Summary(Some(RealSum(values, Identity()) / |values| as real), |values|)
  }

  function Rate(numerator: nat, denominator: nat): Summary {
    if denominator == 0 then Summary(None, 0) else Summary(Some(numerator as real / denominator as real), denominator)
  }

  function Succeeded(): P.Outcome -> bool {
    (o: P.Outcome) => o.metrics.Some?
  }

  function HasQuality(): P.Outcome -> bool {
    (o: P.Outcome) => o.metrics.Some? && o.metrics.value.ndcg.Some?
  }

  datatype Aggregate = Aggregate(
    ndcg: Summary, recall: Summary, mrr: Summary, p50: Summary, p95: Summary,
    errorRate: Summary, coverageRate: Summary, qualityRate: Summary,
    attempted: nat, completed: nat, failed: nat)

  predicate ValidSamples(outcomes: seq<P.Outcome>) {
    forall o | o in outcomes ::
      && (o.latency.Some? ==> o.latency.value >= 0.0)
      && (o.metrics.Some? ==> M.ValidMetrics(o.metrics.value))
  }

  /** Aggregate one configuration's attempts; a repeated query is refused. */
  function AggregateOutcomes(outcomes: seq<P.Outcome>): Result<Aggregate, Error> {
    var attempted, completed := |outcomes|, CountIf(outcomes, Succeeded());
    CountIfBounds(outcomes, Succeeded());
    var latencies := Collect(outcomes, Latency());
    var p50, p95 := LinearPercentile(latencies, 0.5), LinearPercentile(latencies, 0.95);
    if !Distinct(P.Queries(outcomes)) then Err(DuplicateQueries)
    else if p50.Err? then Err(p50.error)
    else if p95.Err? then Err(p95.error)
    else Ok(Aggregate(
      MeanOf(Collect(outcomes, QualityOf(Ndcg))), MeanOf(Collect(outcomes, QualityOf(Recall))),
          MeanOf(Collect(outcomes, QualityOf(Mrr))),
      p50.value, p95.value, Rate(attempted - completed, attempted), Rate(completed, attempted),
      Rate(CountIf(outcomes, HasQuality()), attempted), attempted, completed, attempted - completed))
  }

  predicate ValidSummary(s: Summary) {
    s.value.None? <==> s.samples == 0
  }

  predicate UnitSummary(s: Summary) {
    ValidSummary(s) && (s.value.Some? ==> M.InUnit(s.value.value))
  }

  /** What an aggregate promises: exact counts, rates and means in the unit interval, ordered percentiles. */
  predicate ValidAggregate(a: Aggregate) {
    && a.completed + a.failed == a.attempted
    && UnitSummary(a.ndcg) && UnitSummary(a.recall) && UnitSummary(a.mrr)
    && UnitSummary(a.errorRate) && UnitSummary(a.coverageRate) && UnitSummary(a.qualityRate)
    && ValidSummary(a.p50) && ValidSummary(a.p95) && a.p50.samples == a.p95.samples
    && (a.p50.value.Some? ==> a.p95.value.Some? && a.p50.value.value <= a.p95.value.value)
  }

  lemma {:induction false} MeanBounds(values: seq<real>)
    requires forall v | v in values :: M.InUnit(v)
    ensures 0.0 <= RealSum(values, Identity()) <= |values| as real
  {
    if values != [] {
      assert values[0] in values;
      assert forall v | v in values[1..] :: v in values;
      MeanBounds(values[1..]);
    }
  }

  lemma QualityMeanInUnit(outcomes: seq<P.Outcome>, quality: Quality)
    requires ValidSamples(outcomes)
    ensures UnitSummary(MeanOf(Collect(outcomes, QualityOf(quality))))
  {
    var values := Collect(outcomes, QualityOf(quality));
    CollectMembers(outcomes, QualityOf(quality));
    forall v | v in values ensures M.InUnit(v) {
      var o :| o in outcomes && QualityOf(quality)(o) == Some(v);
    }
    MeanBounds(values);
    if values != [] { M.FractionInUnit(RealSum(values, Identity()), |values| as real); }
  }

  lemma RateInUnit(numerator: nat, denominator: nat)
    requires numerator <= denominator
    ensures UnitSummary(Rate(numerator, denominator))
  {
    if denominator > 0 { M.FractionInUnit(numerator as real, denominator as real); }
  }

  lemma LatenciesValid(outcomes: seq<P.Outcome>)
    requires ValidSamples(outcomes)
    ensures LinearPercentile(Collect(outcomes, Latency()), 0.5).Ok?
              && LinearPercentile(Collect(outcomes, Latency()), 0.95).Ok?
  {
    var values := Collect(outcomes, Latency());
    CollectMembers(outcomes, Latency());
    forall v | v in values ensures v >= 0.0 {
      var o :| o in outcomes && Latency()(o) == Some(v);
    }
  }

  /** Uniquely identified attempts always aggregate, to an aggregate that keeps every promise. */
  lemma AggregateIsValid(outcomes: seq<P.Outcome>)
    requires ValidSamples(outcomes)
    ensures AggregateOutcomes(outcomes).Ok? <==> Distinct(P.Queries(outcomes))
    ensures AggregateOutcomes(outcomes).Ok? ==> ValidAggregate(AggregateOutcomes(outcomes).value)
    ensures AggregateOutcomes(outcomes).Ok? ==> AggregateOutcomes(outcomes).value.attempted == |outcomes|
  {
    hide LinearPercentile, Collect, MeanOf, Rate, UnitSummary, P.Queries;
    LatenciesValid(outcomes);
    QualityMeanInUnit(outcomes, Ndcg);
    QualityMeanInUnit(outcomes, Recall);
    QualityMeanInUnit(outcomes, Mrr);
    CountIfBounds(outcomes, Succeeded());
    CountIfBounds(outcomes, HasQuality());
    RateInUnit(|outcomes| - CountIf(outcomes, Succeeded()), |outcomes|);
    RateInUnit(CountIf(outcomes, Succeeded()), |outcomes|);
    RateInUnit(CountIf(outcomes, HasQuality()), |outcomes|);
    PercentilesOrdered(Collect(outcomes, Latency()));
  }

  lemma PercentilesOrdered(values: seq<real>)
    requires LinearPercentile(values, 0.5).Ok? && LinearPercentile(values, 0.95).Ok?
    ensures var a, b := LinearPercentile(values, 0.5).value, LinearPercentile(values, 0.95).value;
            ValidSummary(a) && ValidSummary(b) && a.samples == b.samples
            && (a.value.Some? ==> b.value.Some? && a.value.value <= b.value.value)
  {
    if values != [] { PercentileLaws(values, values, 0.5, 0.95); }
  }

  // ----- What an aggregate is

  ghost function NdcgPart(): P.Outcome -> real {
    (o: P.Outcome) => if o.metrics.Some? && o.metrics.value.ndcg.Some? then o.metrics.value.ndcg.value else 0.0
  }

  ghost function RecallPart(): P.Outcome -> real {
    (o: P.Outcome) => if o.metrics.Some? && o.metrics.value.recall.Some? then o.metrics.value.recall.value else 0.0
  }

  ghost function MrrPart(): P.Outcome -> real {
    (o: P.Outcome) => if o.metrics.Some? && o.metrics.value.mrr.Some? then o.metrics.value.mrr.value else 0.0
  }

  /** The value times the number of samples is the sum; without samples there is no value. */
  predicate IsMean(summary: Summary, sum: real, samples: nat) {
    && summary.samples == samples
    && (summary.value.Some? <==> samples > 0)
    && (summary.value.Some? ==> summary.value.value * samples as real == sum)
  }

  /** The latencies that were measured, in order. */
  ghost predicate AreLatencies(ordered: seq<real>, outcomes: seq<P.Outcome>) {
    && (forall i, j | 0 <= i < j < |ordered| :: ordered[i] <= ordered[j])
    && (forall v :: multiset(ordered)[v] == |MeasuredAt(outcomes, v)|)
  }

  ghost function MeasuredAt(outcomes: seq<P.Outcome>, v: real): set<P.Outcome> {
    set o | o in outcomes && o.latency == Some(v)
  }

  /** Successful attempts, and those of them that a judged query was given to. */
  ghost function Completed(outcomes: seq<P.Outcome>): set<P.Outcome> {
    set o | o in outcomes && o.metrics.Some?
  }

  ghost function Rated(outcomes: seq<P.Outcome>): set<P.Outcome> {
    set o | o in outcomes && o.metrics.Some? && o.metrics.value.ndcg.Some?
  }

  lemma RatioIsMean(part: real, whole: nat)
    requires whole > 0
    ensures IsMean(Summary(Some(part / whole as real), whole), part, whole)
  {
  }

  lemma {:induction false} CollectSum<T>(s: seq<T>, f: T -> Option<real>, part: T -> real)
    requires forall x | x in s :: part(x) == if f(x).Some? then f(x).value else 0.0
    ensures RealSum(Collect(s, f), Identity()) == RealSum(s, part)
  {
    if s != [] {
      assert s[0] in s && forall x | x in s[1..] :: x in s;
      CollectSum(s[1..], f, part);
      RealSumAppend(Present(f(s[0])), Collect(s[1..], f), Identity());
      assert RealSum(Present(f(s[0])), Identity()) == part(s[0]);
    }
  }

  lemma {:induction false} CollectCount<T>(s: seq<T>, f: T -> Option<real>, has: T -> bool)
    requires forall x | x in s :: has(x) == f(x).Some?
    ensures |Collect(s, f)| == CountIf(s, has)
  {
    if s != [] {
      assert s[0] in s && forall x | x in s[1..] :: x in s;
      CollectCount(s[1..], f, has);
    }
  }

  lemma {:induction false} CollectMultiplicity<T>(s: seq<T>, f: T -> Option<real>, v: real, at: T -> bool)
    requires forall x :: at(x) == (f(x) == Some(v))
    ensures multiset(Collect(s, f))[v] == CountIf(s, at)
  {
    if s != [] { CollectMultiplicity(s[1..], f, v, at); }
  }

  lemma QualityMean(outcomes: seq<P.Outcome>, quality: Quality, part: P.Outcome -> real)
    requires ValidSamples(outcomes) && Distinct(outcomes)
    requires forall o | o in outcomes ::
      part(o) == if QualityOf(quality)(o).Some? then QualityOf(quality)(o).value else 0.0
    ensures IsMean(MeanOf(Collect(outcomes, QualityOf(quality))), RealSum(outcomes, part), |Rated(outcomes)|)
  {
    var values := Collect(outcomes, QualityOf(quality));
    CollectSum(outcomes, QualityOf(quality), part);
    CollectCount(outcomes, QualityOf(quality), HasQuality());
    CountIfCard(outcomes, HasQuality());
    assert Matching(outcomes, HasQuality()) == Rated(outcomes);
    if values != [] { RatioIsMean(RealSum(outcomes, part), |values|); }
  }

  lemma RateMeans(part: nat, whole: nat)
    requires part <= whole
    ensures IsMean(Rate(part, whole), part as real, whole)
  {
    if whole > 0 { RatioIsMean(part as real, whole); }
  }

  lemma LatenciesMean(outcomes: seq<P.Outcome>)
    requires ValidSamples(outcomes) && Distinct(outcomes)
    ensures var (values, ordered) := (Collect(outcomes, Latency()), Sort(Collect(outcomes, Latency()), RealLe));
      && AreLatencies(ordered, outcomes)
      && LinearPercentile(values, 0.5).Ok? && IsPercentile(LinearPercentile(values, 0.5).value, ordered, 0.5)
      && LinearPercentile(values, 0.95).Ok? && IsPercentile(LinearPercentile(values, 0.95).value, ordered, 0.95)
  {
    hide LinearPercentile, IsPercentile, Sort;
    var values := Collect(outcomes, Latency());
    LatenciesValid(outcomes);
    PercentileMeans(values, 0.5);
    PercentileMeans(values, 0.95);
    PermutationMembers(values, Sort(values, RealLe));
    forall v ensures multiset(values)[v] == |MeasuredAt(outcomes, v)| {
      var at := (o: P.Outcome) => Latency()(o) == Some(v);
      CollectMultiplicity(outcomes, Latency(), v, at);
      CountIfCard(outcomes, at);
      assert Matching(outcomes, at) == MeasuredAt(outcomes, v);
    }
  }

  lemma CountsMean(outcomes: seq<P.Outcome>)
    requires Distinct(outcomes)
    ensures CountIf(outcomes, Succeeded()) == |Completed(outcomes)| <= |outcomes|
    ensures CountIf(outcomes, HasQuality()) == |Rated(outcomes)| <= |outcomes|
  {
    CountIfCard(outcomes, Succeeded());
    CountIfCard(outcomes, HasQuality());
    assert Matching(outcomes, Succeeded()) == Completed(outcomes);
    assert Matching(outcomes, HasQuality()) == Rated(outcomes);
    CountIfBounds(outcomes, Succeeded());
    CountIfBounds(outcomes, HasQuality());
  }

  /** Counts, rates, means and percentiles in terms of the attempts. */
  lemma AggregateMeans(outcomes: seq<P.Outcome>)
    requires ValidSamples(outcomes) && AggregateOutcomes(outcomes).Ok?
    ensures var a := AggregateOutcomes(outcomes).value;
      && a.attempted == |outcomes| && a.completed == |Completed(outcomes)| && a.failed == a.attempted - a.completed
      && IsMean(a.ndcg, RealSum(outcomes, NdcgPart()), |Rated(outcomes)|)
      && IsMean(a.recall, RealSum(outcomes, RecallPart()), |Rated(outcomes)|)
      && IsMean(a.mrr, RealSum(outcomes, MrrPart()), |Rated(outcomes)|)
      && IsMean(a.errorRate, a.failed as real, a.attempted)
      && IsMean(a.coverageRate, a.completed as real, a.attempted)
      && IsMean(a.qualityRate, |Rated(outcomes)| as real, a.attempted)
      && exists ordered :: AreLatencies(ordered, outcomes)
                           && IsPercentile(a.p50, ordered, 0.5) && IsPercentile(a.p95, ordered, 0.95)
  {
    hide LinearPercentile, IsPercentile, AreLatencies, Sort, Collect, MeanOf, Rate, IsMean, RealSum, P.Queries,
      Distinct, Completed, Rated;
    P.DistinctOutcomes(outcomes);
    CountsMean(outcomes);
    QualityMean(outcomes, Ndcg, NdcgPart());
    QualityMean(outcomes, Recall, RecallPart());
    QualityMean(outcomes, Mrr, MrrPart());
    RateMeans(|outcomes| - |Completed(outcomes)|, |outcomes|);
    RateMeans(|Completed(outcomes)|, |outcomes|);
    RateMeans(|Rated(outcomes)|, |outcomes|);
    LatenciesMean(outcomes);
  }

  lemma NegativePermutation(a: seq<real>, b: seq<real>)
    requires multiset(a) == multiset(b)
    ensures HasNegative(a) == HasNegative(b)
  {
    PermutationMembers(a, b);
    if HasNegative(a) {
      var v :| v in a && v < 0.0;
      assert v in b;
    }
    if HasNegative(b) {
      var v :| v in b && v < 0.0;
      assert v in a;
    }
  }

  lemma PercentilePermutation(a: seq<real>, b: seq<real>, p: real)
    requires multiset(a) == multiset(b)
    ensures LinearPercentile(a, p) == LinearPercentile(b, p)
  {
    hide Interpolate, Position, Sort;
    PermutationMembers(a, b);
    RealLaws(a);
    SortPermutation(a, b, RealLe);
    NegativePermutation(a, b);
    hide HasNegative;
  }

  lemma MeanPermutation(a: seq<real>, b: seq<real>)
    requires multiset(a) == multiset(b)
    ensures MeanOf(a) == MeanOf(b)
  {
    PermutationMembers(a, b);
    RealSumPermutation(a, b, Identity());
  }

  lemma QualityPermutation(a: seq<P.Outcome>, b: seq<P.Outcome>, quality: Quality)
    requires multiset(a) == multiset(b)
    ensures MeanOf(Collect(a, QualityOf(quality))) == MeanOf(Collect(b, QualityOf(quality)))
  {
    CollectPermutation(a, b, QualityOf(quality));
    MeanPermutation(Collect(a, QualityOf(quality)), Collect(b, QualityOf(quality)));
  }

  /** The aggregate does not depend on the order of the attempts. */
  lemma AggregateIgnoresOrder(a: seq<P.Outcome>, b: seq<P.Outcome>)
    requires multiset(a) == multiset(b) && Distinct(P.Queries(a))
    ensures AggregateOutcomes(a) == AggregateOutcomes(b)
  {
    hide LinearPercentile, Collect, MeanOf, Rate, P.Queries;
    P.ByIdPermutation(a, b);
    QualityPermutation(a, b, Ndcg);
    QualityPermutation(a, b, Recall);
    QualityPermutation(a, b, Mrr);
    CollectPermutation(a, b, Latency());
    PercentilePermutation(Collect(a, Latency()), Collect(b, Latency()), 0.5);
    PercentilePermutation(Collect(a, Latency()), Collect(b, Latency()), 0.95);
    CountIfPermutation(a, b, Succeeded());
    CountIfPermutation(a, b, HasQuality());
  }
}
