/** The evaluation gate: policy checks over paired outcomes, and the report its own contract accepts. */
module Gate {
  import opened Collections
  import M = Metrics
  import opened Pairing

  datatype Metric = Ndcg | Recall | Mrr

  datatype Policy = Policy(metric: Metric, minDelta: real, maxQueryDrop: real, maxErrorRate: real, minPaired: nat)

  /** The canonical query count and the number of violations a report lists. */
  datatype Sizes = Sizes(queries: nat, listed: nat)

  datatype Code = InvalidPolicy | InvalidBinding | InvalidCatalog | InvalidBaseline | InvalidCandidate | ZeroPaired

  datatype Violation = Violation(query: QueryId, observed: real)

  datatype ErrorRateCheck = ErrorRateCheck(passed: bool, failed: nat, observed: real, maximum: real)

  datatype CoverageCheck = CoverageCheck(passed: bool, paired: nat, excluded: nat, minimum: nat)

  datatype AggregateCheck = AggregateCheck(passed: bool, metric: Metric, paired: nat, observed: real, minimum: real)

  datatype DropCheck = DropCheck(passed: bool, metric: Metric, paired: nat, maximum: real, violating: nat,
      violations: seq<Violation>)

  datatype Report = Report(
    passed: bool,
    baselineConfig: nat,
    candidateConfig: nat,
    metric: Metric,
    errorRate: ErrorRateCheck,
    coverage: CoverageCheck,
    aggregate: AggregateCheck,
    perQuery: DropCheck)

  // ----- The contract

  predicate Unit(x: real) {
    0.0 <= x <= 1.0
  }

  predicate SignedUnit(x: real) {
    -1.0 <= x <= 1.0
  }

  predicate ValidPolicy(p: Policy, sizes: Sizes) {
    SignedUnit(p.minDelta) && Unit(p.maxQueryDrop) && Unit(p.maxErrorRate) && 1 <= p.minPaired <= sizes.queries
  }

  predicate ViolationLe(a: Violation, b: Violation) {
    a.observed < b.observed || (a.observed == b.observed && a.query <= b.query)
  }

  predicate ValidErrorRate(c: ErrorRateCheck, sizes: Sizes)
    requires sizes.queries > 0
  {
    && c.failed <= sizes.queries && c.observed == c.failed as real / sizes.queries as real
    && Unit(c.observed) && Unit(c.maximum)
    && c.passed == (c.observed <= c.maximum)
  }

  predicate ValidCoverage(c: CoverageCheck, sizes: Sizes) {
    && 1 <= c.paired <= sizes.queries && c.excluded < sizes.queries && 1 <= c.minimum <= sizes.queries
    && c.paired + c.excluded == sizes.queries
    && c.passed == (c.paired >= c.minimum)
  }

  predicate ValidAggregate(c: AggregateCheck, sizes: Sizes) {
    1 <= c.paired <= sizes.queries && SignedUnit(c.observed) && SignedUnit(c.minimum)
        && c.passed == (c.observed >= c.minimum)
  }

  function ViolationQueries(violations: seq<Violation>): seq<QueryId> {
    seq(|violations|, i requires 0 <= i < |violations| => violations[i].query)
  }

  predicate ValidDrop(c: DropCheck, sizes: Sizes) {
    && 1 <= c.paired <= sizes.queries && Unit(c.maximum) && c.violating <= sizes.queries
    && |c.violations| == (if c.violating < sizes.listed then c.violating else sizes.listed)
    && c.violating <= c.paired
    && Distinct(ViolationQueries(c.violations))
    && c.passed == (c.violating == 0)
    && (forall v | v in c.violations :: SignedUnit(v.observed) && v.observed < -c.maximum)
    && SortedBy(c.violations, ViolationLe)
  }

  predicate ValidReport(r: Report, sizes: Sizes)
    requires sizes.queries > 0
  {
    && ValidErrorRate(r.errorRate, sizes) && ValidCoverage(r.coverage, sizes)
    && ValidAggregate(r.aggregate, sizes) && ValidDrop(r.perQuery, sizes)
    && r.baselineConfig != r.candidateConfig
    && r.coverage.excluded >= r.errorRate.failed
    && r.aggregate.metric == r.metric == r.perQuery.metric
    && r.coverage.paired == r.aggregate.paired == r.perQuery.paired
    && r.passed == (r.errorRate.passed && r.coverage.passed && r.aggregate.passed && r.perQuery.passed)
  }

  // ----- The engine

  predicate ValidOutcome(o: Outcome) {
    && (o.latency.Some? ==> o.latency.value >= 0.0)
    && (o.metrics.Some? ==> M.ValidMetrics(o.metrics.value))
  }

  /** Exactly one valid outcome for each expected query. */
  predicate ValidEvidence(outcomes: seq<Outcome>, expected: set<QueryId>, sizes: Sizes) {
    && |outcomes| == sizes.queries && (forall o | o in outcomes :: ValidOutcome(o))
    && Distinct(Queries(outcomes)) && ToSet(Queries(outcomes)) == expected
  }

  function MetricDelta(d: Delta, metric: Metric): real {
    match metric
    case Ndcg => ValueOf(d.ndcg)
    case Recall => ValueOf(d.recall)
    case Mrr => ValueOf(d.mrr)
  }

  function PairedRows(deltas: seq<Delta>): seq<Delta> {
    Filter(deltas, IsPaired())
  }

  function DeltaOf(metric: Metric): Delta -> real {
    (d: Delta) => MetricDelta(d, metric)
  }

  function Violates(policy: Policy): Delta -> bool {
    (d: Delta) => MetricDelta(d, policy.metric) < -policy.maxQueryDrop
  }

  function AsViolations(rows: seq<Delta>, metric: Metric): seq<Violation> {
    seq(|rows|, i requires 0 <= i < |rows| => Violation(rows[i].query, MetricDelta(rows[i], metric)))
  }

  function Violations(rows: seq<Delta>, policy: Policy): seq<Violation> {
    Sort(AsViolations(Filter(rows, Violates(policy)), policy.metric), ViolationLe)
  }

  function Failed(): Outcome -> bool {
    (o: Outcome) => o.metrics.None?
  }

  function Take<T>(s: seq<T>, n: nat): seq<T> {
    if |s| <= n then s else s[..n]
  }

  function Mean(rows: seq<Delta>, metric: Metric): real
    requires rows != []
  {
    RealSum(rows, DeltaOf(metric)) / |rows| as real
  }

  function MakeReport(baselineConfig: nat, candidateConfig: nat, rows: seq<Delta>, failed: nat, policy: Policy,
                      sizes: Sizes): Report
    requires rows != [] && sizes.queries > 0 && |rows| <= sizes.queries
  {
    var mean := Mean(rows, policy.metric);
    var violations := Violations(rows, policy);
    var rate := failed as real / sizes.queries as real;
    var errorRate := ErrorRateCheck(rate <= policy.maxErrorRate, failed, rate, policy.maxErrorRate);
    var coverage := CoverageCheck(|rows| >= policy.minPaired, |rows|, sizes.queries - |rows|, policy.minPaired);
    var aggregate := AggregateCheck(mean >= policy.minDelta, policy.metric, |rows|, mean, policy.minDelta);
    var perQuery := DropCheck(violations == [], policy.metric, |rows|, policy.maxQueryDrop, |violations|,
                              Take(violations, sizes.listed));
    Report(errorRate.passed && coverage.passed && aggregate.passed && perQuery.passed,
           baselineConfig, candidateConfig, policy.metric, errorRate, coverage, aggregate, perQuery)
  }

  // ----- What valid evidence gives

  /** What the report builder may rely on. */
  ghost predicate Supports(rows: seq<Delta>, failed: nat, sizes: Sizes) {
    && Distinct(RowQueries(rows)) && |rows| + failed <= sizes.queries
    && forall d, metric | d in rows :: SignedUnit(MetricDelta(d, metric))
  }

  lemma PairedDeltaSigned(query: QueryId, b: Option<Outcome>, c: Option<Outcome>, metric: Metric)
    requires b.Some? ==> ValidOutcome(b.value)
    requires c.Some? ==> ValidOutcome(c.value)
    requires StatusOf(b, c) == Paired
    ensures SignedUnit(MetricDelta(PairOne(query, b, c), metric))
  {
  }

  lemma LookupValid(outcomes: seq<Outcome>, query: QueryId)
    requires forall o | o in outcomes :: ValidOutcome(o)
    ensures Lookup(ById(outcomes), query).Some? ==>
              ValidOutcome(Lookup(ById(outcomes), query).value) && Lookup(ById(outcomes), query).value in outcomes
  {
    ByIdKeys(outcomes);
  }

  /** A failed candidate outcome is a row that is not paired. */
  lemma {:induction false} FailedAreExcluded(b: map<QueryId, Outcome>, c: map<QueryId, Outcome>, queries: seq<QueryId>)
    ensures CountIf(Deltas(b, c, queries), IsPaired()) + CountIf(queries, FailedAt(c)) <= |queries|
  {
    if queries != [] {
      FailedAreExcluded(b, c, queries[1..]);
      assert Deltas(b, c, queries)[1..] == Deltas(b, c, queries[1..]);
      PairOneStatus(queries[0], Lookup(b, queries[0]), Lookup(c, queries[0]));
    }
  }

  function FailedAt(c: map<QueryId, Outcome>): QueryId -> bool {
    (q: QueryId) => q in c && c[q].metrics.None?
  }

  lemma {:induction false} FailedByQuery(outcomes: seq<Outcome>, byId: map<QueryId, Outcome>)
    requires forall o | o in outcomes :: o.query in byId && byId[o.query] == o
    ensures CountIf(outcomes, Failed()) == CountIf(Queries(outcomes), FailedAt(byId))
  {
    if outcomes != [] {
      assert outcomes[0] in outcomes;
      assert forall o | o in outcomes[1..] :: o in outcomes;
      assert Queries(outcomes)[1..] == Queries(outcomes[1..]);
      FailedByQuery(outcomes[1..], byId);
    }
  }

  lemma DeltaSigned(baseline: seq<Outcome>, candidate: seq<Outcome>, expected: set<QueryId>, sizes: Sizes, d: Delta,
                    metric: Metric)
    requires ValidEvidence(baseline, expected, sizes) && ValidEvidence(candidate, expected, sizes)
    requires PairedDeltas(baseline, candidate).Ok? && d in PairedDeltas(baseline, candidate).value && d.status == Paired
    ensures SignedUnit(MetricDelta(d, metric))
  {
    hide ById, PairOne, Queries, SortedElements;
    var deltas := PairedDeltas(baseline, candidate).value;
    DeltaRows(baseline, candidate);
    var i :| 0 <= i < |deltas| && deltas[i] == d;
    LookupValid(baseline, d.query);
    LookupValid(candidate, d.query);
    PairOneStatus(d.query, Lookup(ById(baseline), d.query), Lookup(ById(candidate), d.query));
    PairedDeltaSigned(d.query, Lookup(ById(baseline), d.query), Lookup(ById(candidate), d.query), metric);
  }

  lemma FailedWithin(baseline: seq<Outcome>, candidate: seq<Outcome>, expected: set<QueryId>, sizes: Sizes)
    requires ValidEvidence(baseline, expected, sizes) && ValidEvidence(candidate, expected, sizes)
    requires PairedDeltas(baseline, candidate).Ok?
    ensures |PairedRows(PairedDeltas(baseline, candidate).value)| + CountIf(candidate, Failed()) <= sizes.queries
  {
    var b, c := ById(baseline), ById(candidate);
    ByIdKeys(baseline);
    ByIdKeys(candidate);
    ByIdUnique(candidate);
    var queries := SortedElements(b.Keys + c.Keys);
    assert b.Keys + c.Keys == expected;
    SortedElementsSound(expected);
    SetArrangements(Queries(candidate), queries);
    PermutationMembers(Queries(candidate), queries);
    FailedAreExcluded(b, c, queries);
    FailedByQuery(candidate, c);
    CountIfPermutation(Queries(candidate), queries, FailedAt(c));
  }

  /** Valid evidence always pairs, and its paired rows support a report. */
  lemma EvidenceSupports(baseline: seq<Outcome>, candidate: seq<Outcome>, expected: set<QueryId>, sizes: Sizes)
    requires ValidEvidence(baseline, expected, sizes) && ValidEvidence(candidate, expected, sizes)
    ensures PairedDeltas(baseline, candidate).Ok?
    ensures Supports(PairedRows(PairedDeltas(baseline, candidate).value), CountIf(candidate, Failed()), sizes)
  {
    ByIdUnique(baseline);
    ByIdUnique(candidate);
    FailedWithin(baseline, candidate, expected, sizes);
    RowsCoverQueries(baseline, candidate);
    FilterDistinctRows(PairedDeltas(baseline, candidate).value, IsPaired());
    forall d, metric | d in PairedRows(PairedDeltas(baseline, candidate).value)
      ensures SignedUnit(MetricDelta(d, metric))
    {
      DeltaSigned(baseline, candidate, expected, sizes, d, metric);
    }
  }

  function EvaluateGate(baselineConfig: nat, candidateConfig: nat, expected: seq<QueryId>, baseline: seq<Outcome>,
                        candidate: seq<Outcome>, policy: Policy, sizes: Sizes): Result<Report, Code>
    requires sizes.queries > 0
  {
    if baselineConfig == candidateConfig then Err(InvalidBinding)
    else if !ValidPolicy(policy, sizes) then Err(InvalidPolicy)
    else if |expected| != sizes.queries || !Distinct(expected) then Err(InvalidCatalog)
    else if !ValidEvidence(baseline, ToSet(expected), sizes) then Err(InvalidBaseline)
    else if !ValidEvidence(candidate, ToSet(expected), sizes) then Err(InvalidCandidate)
    else
      EvidenceSupports(baseline, candidate, ToSet(expected), sizes);
      var rows := PairedRows(PairedDeltas(baseline, candidate).value);
      if rows == [] then Err(ZeroPaired)
      else Ok(MakeReport(baselineConfig, candidateConfig, rows, CountIf(candidate, Failed()), policy, sizes))
  }

  // ----- The report is always acceptable

  lemma {:induction false} SumBounds(rows: seq<Delta>, metric: Metric)
    requires forall d | d in rows :: SignedUnit(MetricDelta(d, metric))
    ensures -(|rows| as real) <= RealSum(rows, DeltaOf(metric)) <= |rows| as real
  {
    if rows != [] {
      assert rows[0] in rows;
      assert forall d | d in rows[1..] :: d in rows;
      SumBounds(rows[1..], metric);
    }
  }

  lemma QuotientSigned(sum: real, n: real)
    requires n > 0.0 && -n <= sum <= n
    ensures SignedUnit(sum / n)
  {
    var q := sum / n;
    assert q * n == sum;
    var above, below := 1.0 - q, 1.0 + q;
    assert above * n == n - sum && below * n == n + sum;
    M.SignOfProduct(above, n);
    M.SignOfProduct(below, n);
  }

  lemma ViolationLaws()
    ensures Total(ViolationLe) && Transitive(ViolationLe)
  {
  }

  lemma ViolationFacts(rows: seq<Delta>, policy: Policy)
    requires Distinct(RowQueries(rows))
    ensures var violations := Violations(rows, policy);
            && |violations| == CountIf(rows, Violates(policy)) <= |rows|
            && SortedBy(violations, ViolationLe) && Distinct(ViolationQueries(violations))
            && (forall v :: v in violations <==>
                exists d :: d in rows && Violates(policy)(d) && v == Violation(d.query, MetricDelta(d, policy.metric)))
  {
    var filtered := Filter(rows, Violates(policy));
    var listed := AsViolations(filtered, policy.metric);
    var violations := Violations(rows, policy);
    ViolationLaws();
    SortSorted(listed, ViolationLe);
    CountIfBounds(rows, Violates(policy));
    FilterDistinctRows(rows, Violates(policy));
    assert ViolationQueries(listed) == RowQueries(filtered);
    QueriesPermutation(listed, violations);
    PermutationMembers(listed, violations);
    ViolationMembers(rows, policy);
  }

  lemma ViolationMembers(rows: seq<Delta>, policy: Policy)
    ensures forall v :: v in AsViolations(Filter(rows, Violates(policy)), policy.metric) <==>
      exists d :: d in rows && Violates(policy)(d) && v == Violation(d.query, MetricDelta(d, policy.metric))
  {
    var filtered := Filter(rows, Violates(policy));
    var listed := AsViolations(filtered, policy.metric);
    forall v | v in listed
      ensures exists d :: d in rows && Violates(policy)(d) && v == Violation(d.query, MetricDelta(d, policy.metric))
    {
      var i :| 0 <= i < |listed| && listed[i] == v;
      assert filtered[i] in filtered;
    }
    forall d | d in rows && Violates(policy)(d) ensures Violation(d.query, MetricDelta(d, policy.metric)) in listed {
      var i :| 0 <= i < |filtered| && filtered[i] == d;
      assert listed[i] == Violation(d.query, MetricDelta(d, policy.metric));
    }
  }

  lemma QueriesPermutation(a: seq<Violation>, b: seq<Violation>)
    requires multiset(a) == multiset(b) && Distinct(ViolationQueries(a))
    ensures Distinct(ViolationQueries(b))
  {
    PermutationMembers(a, b);
    forall i, j | 0 <= i < j < |a| ensures a[i] != a[j] { assert ViolationQueries(a)[i] != ViolationQueries(a)[j]; }
    DistinctPermutation(a, b);
    forall i, j | 0 <= i < j < |b| ensures b[i].query != b[j].query {
      assert b[i] in a && b[j] in a && b[i] != b[j];
      var k :| 0 <= k < |a| && a[k] == b[i];
      var l :| 0 <= l < |a| && a[l] == b[j];
      assert ViolationQueries(a)[k] != ViolationQueries(a)[l];
    }
  }

  lemma DropCheckValid(rows: seq<Delta>, failed: nat, policy: Policy, sizes: Sizes)
    requires rows != [] && Supports(rows, failed, sizes) && ValidPolicy(policy, sizes)
    ensures ValidDrop(MakeReport(0, 1, rows, failed, policy, sizes).perQuery, sizes)
  {
    hide Mean, Violations, Filter, ViolationLe;
    ViolationFacts(rows, policy);
    var violations := Violations(rows, policy);
    var listed := Take(violations, sizes.listed);
    PrefixOfSorted(violations, |listed|, ViolationLe);
    PrefixDistinct(ViolationQueries(violations), |listed|);
    assert violations[..|listed|] == listed;
    assert ViolationQueries(listed) == ViolationQueries(violations)[..|listed|];
    forall v | v in listed ensures SignedUnit(v.observed) && v.observed < -policy.maxQueryDrop {
      assert v in violations;
      var d :| d in rows && Violates(policy)(d) && v == Violation(d.query, MetricDelta(d, policy.metric));
    }
  }

  lemma ChecksValid(rows: seq<Delta>, failed: nat, policy: Policy, sizes: Sizes)
    requires rows != [] && sizes.queries > 0 && Supports(rows, failed, sizes) && ValidPolicy(policy, sizes)
    ensures var r := MakeReport(0, 1, rows, failed, policy, sizes);
            ValidErrorRate(r.errorRate, sizes) && ValidCoverage(r.coverage, sizes) && ValidAggregate(r.aggregate, sizes)
  {
    hide Violations, Supports;
    assert forall d | d in rows :: SignedUnit(MetricDelta(d, policy.metric)) by {
      RowsSigned(rows, failed, sizes, policy.metric);
    }
    SumBounds(rows, policy.metric);
    QuotientSigned(RealSum(rows, DeltaOf(policy.metric)), |rows| as real);
    RowsWithin(rows, failed, sizes);
    M.FractionInUnit(failed as real, sizes.queries as real);
  }

  lemma RowsSigned(rows: seq<Delta>, failed: nat, sizes: Sizes, metric: Metric)
    requires Supports(rows, failed, sizes)
    ensures forall d | d in rows :: SignedUnit(MetricDelta(d, metric))
  {
  }

  lemma RowsWithin(rows: seq<Delta>, failed: nat, sizes: Sizes)
    requires Supports(rows, failed, sizes)
    ensures |rows| + failed <= sizes.queries
  {
  }

  /** With valid evidence and policy and at least one pair, the report passes every validator. */
  lemma ReportIsValid(baselineConfig: nat, candidateConfig: nat, expected: seq<QueryId>, baseline: seq<Outcome>,
                      candidate: seq<Outcome>, policy: Policy, sizes: Sizes)
    requires sizes.queries > 0
    ensures var r := EvaluateGate(baselineConfig, candidateConfig, expected, baseline, candidate, policy, sizes);
            r.Ok? ==> ValidReport(r.value, sizes)
  {
    hide Violations, Mean, ValidDrop, ValidErrorRate, ValidCoverage, ValidAggregate, ValidPolicy, ValidEvidence,
        PairedRows;
    var r := EvaluateGate(baselineConfig, candidateConfig, expected, baseline, candidate, policy, sizes);
    if r.Ok? {
      EvidenceSupports(baseline, candidate, ToSet(expected), sizes);
      var rows, failed := PairedRows(PairedDeltas(baseline, candidate).value), CountIf(candidate, Failed());
      ChecksValid(rows, failed, policy, sizes);
      DropCheckValid(rows, failed, policy, sizes);
      RowsWithin(rows, failed, sizes);
      ViolationsWithin(rows, policy);
    }
  }

  lemma ViolationsWithin(rows: seq<Delta>, policy: Policy)
    ensures |Violations(rows, policy)| <= |rows|
  {
    CountIfBounds(rows, Violates(policy));
  }

  // ----- What the report says

  /** The listed violations are violators, and any violator left out comes after every listed one. */
  lemma ListedViolationsFirst(rows: seq<Delta>, failed: nat, policy: Policy, sizes: Sizes, d: Delta)
    requires rows != [] && sizes.queries > 0 && |rows| <= sizes.queries && Supports(rows, failed, sizes)
    requires d in rows && Violates(policy)(d)
    ensures var check, own := MakeReport(0, 1, rows, failed, policy, sizes).perQuery,
              Violation(d.query, MetricDelta(d, policy.metric));
            && check.violating == CountIf(rows, Violates(policy))
            && (own in check.violations
                || (|check.violations| == sizes.listed && forall v | v in check.violations ::
                      v.observed <= own.observed && (v.observed == own.observed ==> v.query <= own.query)))
  {
    hide Mean, Violations;
    ViolationFacts(rows, policy);
    var violations, own := Violations(rows, policy), Violation(d.query, MetricDelta(d, policy.metric));
    var listed := Take(violations, sizes.listed);
    assert own in violations;
    var i :| 0 <= i < |violations| && violations[i] == own;
    if i < |listed| {
      assert listed[i] == own;
    } else {
      forall v | v in listed ensures ViolationLe(v, own) {
        var k :| 0 <= k < |listed| && listed[k] == v;
        assert violations[k] == v;
      }
    }
  }

  /** The verdict is a pass exactly when all four thresholds hold for the paired rows. */
  lemma VerdictMeans(rows: seq<Delta>, failed: nat, policy: Policy, sizes: Sizes)
    requires rows != [] && sizes.queries > 0 && |rows| <= sizes.queries && Supports(rows, failed, sizes)
    ensures MakeReport(0, 1, rows, failed, policy, sizes).passed <==>
      && failed as real / sizes.queries as real <= policy.maxErrorRate
      && |rows| >= policy.minPaired
      && Mean(rows, policy.metric) >= policy.minDelta
      && forall d | d in rows :: MetricDelta(d, policy.metric) >= -policy.maxQueryDrop
  {
    hide Mean, Violations;
    ViolationFacts(rows, policy);
    var violations := Violations(rows, policy);
    if violations != [] {
      assert violations[0] in violations;
      var d :| d in rows && Violates(policy)(d) && violations[0] == Violation(d.query, MetricDelta(d, policy.metric));
    }
    forall d | d in rows && MetricDelta(d, policy.metric) < -policy.maxQueryDrop ensures violations != [] {
      assert Violates(policy)(d);
      assert Violation(d.query, MetricDelta(d, policy.metric)) in violations;
    }
  }

  // ----- What the report says of the outcomes

  ghost function Rated(m: M.QueryMetrics, metric: Metric): Option<real> {
    match metric
    case Ndcg => m.ndcg
    case Recall => m.recall
    case Mrr => m.mrr
  }

  /** Both sides rated the query. */
  ghost predicate Compared(b: Outcome, c: Outcome) {
    b.query == c.query && b.metrics.Some? && c.metrics.Some? && b.metrics.value.ndcg.Some? && c.metrics.value.ndcg.Some?
  }

  ghost function ComparedQueries(baseline: seq<Outcome>, candidate: seq<Outcome>): set<QueryId> {
    set b, c | b in baseline && c in candidate && Compared(b, c) :: b.query
  }

  /** By how much the candidate is better than the baseline. */
  ghost predicate Improves(b: Outcome, c: Outcome, metric: Metric, gain: real) {
    && Compared(b, c) && Rated(b.metrics.value, metric).Some? && Rated(c.metrics.value, metric).Some?
    && Rated(c.metrics.value, metric).value == Rated(b.metrics.value, metric).value + gain
  }

  lemma RowImproves(d: Delta, b: Outcome, c: Outcome, metric: Metric)
    requires SaysOf(d, b, c) && d.status == Paired && b.query == c.query && ValidOutcome(b) && ValidOutcome(c)
    ensures Improves(b, c, metric, MetricDelta(d, metric))
  {
  }

  /** The paired rows are the queries that both sides rated, each with its improvement. */
  lemma PairedRowsMean(baseline: seq<Outcome>, candidate: seq<Outcome>, expected: set<QueryId>, sizes: Sizes)
    requires ValidEvidence(baseline, expected, sizes) && ValidEvidence(candidate, expected, sizes)
    requires PairedDeltas(baseline, candidate).Ok?
    ensures var rows := PairedRows(PairedDeltas(baseline, candidate).value);
      && Distinct(RowQueries(rows)) && ToSet(RowQueries(rows)) == ComparedQueries(baseline, candidate)
      && |rows| == |ComparedQueries(baseline, candidate)|
      && forall d, b, c, metric | d in rows && b in baseline && c in candidate && b.query == d.query == c.query ::
           Improves(b, c, metric, MetricDelta(d, metric))
  {
    hide SaysOf, Queries, ById, Deltas, SortedElements, ValidOutcome;
    var deltas := PairedDeltas(baseline, candidate).value;
    var rows := PairedRows(deltas);
    RowsMean(baseline, candidate);
    RowsCoverQueries(baseline, candidate);
    FilterDistinctRows(deltas, IsPaired());
    forall d, b, c, metric | d in rows && b in baseline && c in candidate && b.query == d.query == c.query
      ensures Improves(b, c, metric, MetricDelta(d, metric))
    {
      assert RowMeans(d, baseline, candidate);
      RowImproves(d, b, c, metric);
    }
    forall q ensures q in ToSet(RowQueries(rows)) <==> q in ComparedQueries(baseline, candidate) {
      RowOfQuery(baseline, candidate, q);
    }
    assert ToSet(RowQueries(rows)) == ComparedQueries(baseline, candidate);
    DistinctCard(RowQueries(rows));
  }

  lemma RowOfQuery(baseline: seq<Outcome>, candidate: seq<Outcome>, q: QueryId)
    requires PairedDeltas(baseline, candidate).Ok?
    ensures q in ToSet(RowQueries(PairedRows(PairedDeltas(baseline, candidate).value))) <==>
            q in ComparedQueries(baseline, candidate)
  {
    hide Queries, ById, Deltas, SortedElements, Filter;
    var deltas := PairedDeltas(baseline, candidate).value;
    var rows := PairedRows(deltas);
    RowsMean(baseline, candidate);
    RowsCoverQueries(baseline, candidate);
    if q in ToSet(RowQueries(rows)) {
      var i :| 0 <= i < |rows| && RowQueries(rows)[i] == q;
      assert rows[i] in rows;
      assert RowMeans(rows[i], baseline, candidate);
      var b :| b in baseline && b.query == q;
      var c :| c in candidate && c.query == q;
      assert SaysOf(rows[i], b, c);
    }
    if q in ComparedQueries(baseline, candidate) {
      var b, c :| b in baseline && c in candidate && Compared(b, c) && b.query == q;
      QueryMembers(baseline);
      assert q in ToSet(RowQueries(deltas));
      var i :| 0 <= i < |deltas| && RowQueries(deltas)[i] == q;
      assert RowMeans(deltas[i], baseline, candidate) && SaysOf(deltas[i], b, c);
      assert deltas[i] in rows;
      var k :| 0 <= k < |rows| && rows[k] == deltas[i];
      assert RowQueries(rows)[k] == q;
    }
  }

  lemma {:induction false} SumByQuery(rows: seq<Delta>, metric: Metric, f: QueryId -> real)
    requires forall d | d in rows :: f(d.query) == MetricDelta(d, metric)
    ensures RealSum(rows, DeltaOf(metric)) == RealSum(RowQueries(rows), f)
  {
    if rows != [] {
      assert rows[0] in rows && forall d | d in rows[1..] :: d in rows;
      assert RowQueries(rows)[1..] == RowQueries(rows[1..]);
      SumByQuery(rows[1..], metric, f);
    }
  }

  lemma RowSides(baseline: seq<Outcome>, candidate: seq<Outcome>, rows: seq<Delta>, d: Delta)
    returns (b: Outcome, c: Outcome)
    requires ToSet(RowQueries(rows)) == ComparedQueries(baseline, candidate) && d in rows
    ensures b in baseline && c in candidate && Compared(b, c) && b.query == d.query
  {
    hide Compared;
    var i :| 0 <= i < |rows| && rows[i] == d;
    assert RowQueries(rows)[i] == d.query;
    assert d.query in ComparedQueries(baseline, candidate);
    b, c :| b in baseline && c in candidate && Compared(b, c) && b.query == d.query;
  }

  /** Queries on which the candidate dropped further than the policy allows. */
  ghost function Dropped(baseline: seq<Outcome>, candidate: seq<Outcome>, policy: Policy): set<QueryId> {
    set b, c | b in baseline && c in candidate && TooFar(b, c, policy) :: b.query
  }

  ghost predicate TooFar(b: Outcome, c: Outcome, policy: Policy) {
    exists gain :: Improves(b, c, policy.metric, gain) && gain < -policy.maxQueryDrop
  }

  ghost function FailedOutcomes(candidate: seq<Outcome>): set<Outcome> {
    set c | c in candidate && c.metrics == None
  }

  lemma DroppedRows(baseline: seq<Outcome>, candidate: seq<Outcome>, expected: set<QueryId>, policy: Policy,
                    sizes: Sizes)
    requires ValidEvidence(baseline, expected, sizes) && ValidEvidence(candidate, expected, sizes)
    requires PairedDeltas(baseline, candidate).Ok?
    ensures CountIf(PairedRows(PairedDeltas(baseline, candidate).value), Violates(policy))
            == |Dropped(baseline, candidate, policy)|
  {
    hide PairedDeltas, Improves, ValidEvidence, MetricDelta, Compared;
    var rows := PairedRows(PairedDeltas(baseline, candidate).value);
    var dropped := Filter(rows, Violates(policy));
    PairedRowsMean(baseline, candidate, expected, sizes);
    FilterDistinctRows(rows, Violates(policy));
    DistinctCard(RowQueries(dropped));
    forall q ensures q in ToSet(RowQueries(dropped)) <==> q in Dropped(baseline, candidate, policy) {
      DroppedQuery(baseline, candidate, rows, policy, q);
      QueryDropped(baseline, candidate, rows, policy, q);
    }
    assert ToSet(RowQueries(dropped)) == Dropped(baseline, candidate, policy);
  }

  lemma DroppedQuery(baseline: seq<Outcome>, candidate: seq<Outcome>, rows: seq<Delta>, policy: Policy, q: QueryId)
    requires Distinct(RowQueries(rows)) && ToSet(RowQueries(rows)) == ComparedQueries(baseline, candidate)
    requires forall d, b, c, metric | d in rows && b in baseline && c in candidate && b.query == d.query == c.query ::
      Improves(b, c, metric, MetricDelta(d, metric))
    ensures q in ToSet(RowQueries(Filter(rows, Violates(policy)))) ==> q in Dropped(baseline, candidate, policy)
  {
    hide MetricDelta, Distinct, Filter;
    var dropped := Filter(rows, Violates(policy));
    if q in ToSet(RowQueries(dropped)) {
      var i :| 0 <= i < |dropped| && RowQueries(dropped)[i] == q;
      var d := dropped[i];
      assert d in dropped && d in rows;
      var b, c := RowSides(baseline, candidate, rows, d);
      assert Improves(b, c, policy.metric, MetricDelta(d, policy.metric));
    }
  }

  lemma QueryDropped(baseline: seq<Outcome>, candidate: seq<Outcome>, rows: seq<Delta>, policy: Policy, q: QueryId)
    requires Distinct(RowQueries(rows)) && ToSet(RowQueries(rows)) == ComparedQueries(baseline, candidate)
    requires forall d, b, c, metric | d in rows && b in baseline && c in candidate && b.query == d.query == c.query ::
      Improves(b, c, metric, MetricDelta(d, metric))
    ensures q in Dropped(baseline, candidate, policy) ==> q in ToSet(RowQueries(Filter(rows, Violates(policy))))
  {
    hide MetricDelta, Distinct, Filter;
    var dropped := Filter(rows, Violates(policy));
    if q in Dropped(baseline, candidate, policy) {
      var b, c :| b in baseline && c in candidate && TooFar(b, c, policy) && b.query == q;
      var gain :| Improves(b, c, policy.metric, gain) && gain < -policy.maxQueryDrop;
      assert q in ToSet(RowQueries(rows));
      var i :| 0 <= i < |rows| && RowQueries(rows)[i] == q;
      assert rows[i] in rows && Improves(b, c, policy.metric, MetricDelta(rows[i], policy.metric));
      assert rows[i] in dropped;
      var k :| 0 <= k < |dropped| && dropped[k] == rows[i];
      assert RowQueries(dropped)[k] == q;
    }
  }

  predicate IsRatio(ratio: real, part: nat, whole: nat) {
    ratio * whole as real == part as real
  }

  lemma RatioMeans(part: nat, whole: nat)
    requires whole > 0
    ensures IsRatio(part as real / whole as real, part, whole)
  {
  }

  /** A report in terms of the outcomes: the four checks, each with its inclusive threshold, and the listed
      violations, worst first. */
  ghost predicate Reports(r: Report, baseline: seq<Outcome>, candidate: seq<Outcome>, policy: Policy, sizes: Sizes) {
    && r.metric == r.aggregate.metric == r.perQuery.metric == policy.metric
    && r.errorRate.failed == |FailedOutcomes(candidate)| && r.errorRate.maximum == policy.maxErrorRate
    && IsRatio(r.errorRate.observed, r.errorRate.failed, sizes.queries)
    && (r.errorRate.passed <==> r.errorRate.observed <= policy.maxErrorRate)
    && r.coverage.paired == r.aggregate.paired == r.perQuery.paired == |ComparedQueries(baseline, candidate)| > 0
    && r.coverage.paired + r.coverage.excluded == sizes.queries && r.coverage.minimum == policy.minPaired
    && (r.coverage.passed <==> r.coverage.paired >= policy.minPaired)
    && r.aggregate.minimum == policy.minDelta
    && (r.aggregate.passed <==> r.aggregate.observed >= policy.minDelta)
    && r.perQuery.violating == |Dropped(baseline, candidate, policy)| && r.perQuery.maximum == policy.maxQueryDrop
    && (r.perQuery.passed <==> Dropped(baseline, candidate, policy) == {})
    && (r.passed <==> r.errorRate.passed && r.coverage.passed && r.aggregate.passed && r.perQuery.passed)
    && (forall v | v in r.perQuery.violations :: exists b, c ::
          b in baseline && c in candidate && b.query == v.query && Improves(b, c, policy.metric, v.observed)
          && v.observed < -policy.maxQueryDrop)
    && WorstFirst(r.perQuery.violations)
  }

  predicate WorstFirst(violations: seq<Violation>) {
    forall i, j | 0 <= i < j < |violations| ::
      && violations[i].observed <= violations[j].observed
      && (violations[i].observed == violations[j].observed ==> violations[i].query < violations[j].query)
  }

  lemma QuotientMeans(q: real, x: real, n: real)
    requires n > 0.0 && q == x / n
    ensures q * n == x
  {
  }

  lemma ListedMean(baseline: seq<Outcome>, candidate: seq<Outcome>, expected: set<QueryId>, policy: Policy,
                   sizes: Sizes)
    requires ValidEvidence(baseline, expected, sizes) && ValidEvidence(candidate, expected, sizes)
    requires PairedDeltas(baseline, candidate).Ok?
    ensures var listed := Take(Violations(PairedRows(PairedDeltas(baseline, candidate).value), policy), sizes.listed);
      && WorstFirst(listed)
      && forall v | v in listed :: exists b, c ::
           b in baseline && c in candidate && b.query == v.query && Improves(b, c, policy.metric, v.observed)
           && v.observed < -policy.maxQueryDrop
  {
    hide PairedDeltas, Improves, ValidEvidence, MetricDelta, PairedRows, Violations;
    var rows := PairedRows(PairedDeltas(baseline, candidate).value);
    var violations := Violations(rows, policy);
    var listed := Take(violations, sizes.listed);
    PairedRowsMean(baseline, candidate, expected, sizes);
    ViolationFacts(rows, policy);
    assert forall i | 0 <= i < |listed| ::
        listed[i] == violations[i] && ViolationQueries(violations)[i] == listed[i].query;
    forall v | v in listed
      ensures exists b, c ::
           b in baseline && c in candidate && b.query == v.query && Improves(b, c, policy.metric, v.observed)
           && v.observed < -policy.maxQueryDrop
    {
      assert v in violations;
      var d :| d in rows && Violates(policy)(d) && v == Violation(d.query, MetricDelta(d, policy.metric));
      var b, c := RowSides(baseline, candidate, rows, d);
      assert Improves(b, c, policy.metric, MetricDelta(d, policy.metric));
    }
  }

  lemma FailedMeans(candidate: seq<Outcome>)
    requires Distinct(Queries(candidate))
    ensures CountIf(candidate, Failed()) == |FailedOutcomes(candidate)|
  {
    DistinctOutcomes(candidate);
    CountIfCard(candidate, Failed());
    assert Matching(candidate, Failed()) == FailedOutcomes(candidate);
  }

  /** A report is given exactly for two different configurations, a policy and a catalog in range, one valid
      outcome of each side for every query of the catalog, and a query that both sides rated; and it says
      what the outcomes say. */
  lemma GateMeans(baselineConfig: nat, candidateConfig: nat, expected: seq<QueryId>, baseline: seq<Outcome>,
                  candidate: seq<Outcome>, policy: Policy, sizes: Sizes)
    requires sizes.queries > 0
    ensures var r := EvaluateGate(baselineConfig, candidateConfig, expected, baseline, candidate, policy, sizes);
      && (r.Ok? <==>
            && baselineConfig != candidateConfig && ValidPolicy(policy, sizes)
            && |expected| == sizes.queries && Distinct(expected)
            && ValidEvidence(baseline, ToSet(expected), sizes) && ValidEvidence(candidate, ToSet(expected), sizes)
            && ComparedQueries(baseline, candidate) != {})
      && (r == Err(InvalidBinding) <==> baselineConfig == candidateConfig)
      && (r == Err(InvalidPolicy) <==> baselineConfig != candidateConfig && !ValidPolicy(policy, sizes))
      && (r == Err(ZeroPaired) ==> ComparedQueries(baseline, candidate) == {})
      && (r == Err(InvalidCatalog) ==> |expected| != sizes.queries || !Distinct(expected))
      && (r == Err(InvalidBaseline) ==> !ValidEvidence(baseline, ToSet(expected), sizes))
      && (r == Err(InvalidCandidate) ==> !ValidEvidence(candidate, ToSet(expected), sizes))
      && (r.Ok? ==>
            && Reports(r.value, baseline, candidate, policy, sizes)
            && r.value.baselineConfig == baselineConfig && r.value.candidateConfig == candidateConfig)
  {
    hide ValidPolicy, ValidEvidence, PairedDeltas, Violations, Dropped, ComparedQueries, Improves, FailedOutcomes, Mean,
      PairedRows, WorstFirst, RealSum;
    var r := EvaluateGate(baselineConfig, candidateConfig, expected, baseline, candidate, policy, sizes);
    if ValidEvidence(baseline, ToSet(expected), sizes) && ValidEvidence(candidate, ToSet(expected), sizes) {
      EvidenceSupports(baseline, candidate, ToSet(expected), sizes);
      var rows := PairedRows(PairedDeltas(baseline, candidate).value);
      PairedRowsMean(baseline, candidate, ToSet(expected), sizes);
      if r.Ok? {
        ReportMeans(baselineConfig, candidateConfig, rows, baseline, candidate, ToSet(expected), policy, sizes);
      }
    }
  }

  lemma ReportMeans(baselineConfig: nat, candidateConfig: nat, rows: seq<Delta>, baseline: seq<Outcome>,
                    candidate: seq<Outcome>, expected: set<QueryId>, policy: Policy, sizes: Sizes)
    requires ValidEvidence(baseline, expected, sizes) && ValidEvidence(candidate, expected, sizes)
    requires PairedDeltas(baseline, candidate).Ok? && rows == PairedRows(PairedDeltas(baseline, candidate).value)
    requires rows != [] && 0 < |rows| <= sizes.queries
    ensures Reports(MakeReport(baselineConfig, candidateConfig, rows, CountIf(candidate, Failed()), policy, sizes),
                    baseline, candidate, policy, sizes)
  {
    hide ValidEvidence, PairedDeltas, Violations, Dropped, ComparedQueries, Improves, FailedOutcomes, Mean,
      PairedRows, WorstFirst, RealSum, IsRatio;
    PairedRowsMean(baseline, candidate, expected, sizes);
    DroppedRows(baseline, candidate, expected, policy, sizes);
    ViolationFacts(rows, policy);
    ListedMean(baseline, candidate, expected, policy, sizes);
    OutcomesDistinct(candidate, expected, sizes);
    FailedMeans(candidate);
    RatioMeans(CountIf(candidate, Failed()), sizes.queries);
  }

  lemma OutcomesDistinct(outcomes: seq<Outcome>, expected: set<QueryId>, sizes: Sizes)
    requires ValidEvidence(outcomes, expected, sizes)
    ensures Distinct(Queries(outcomes))
  {
  }

  /** The observed aggregate is the mean improvement over the queries that both sides rated. */
  lemma AggregateMeans(baselineConfig: nat, candidateConfig: nat, expected: seq<QueryId>, baseline: seq<Outcome>,
                       candidate: seq<Outcome>, policy: Policy, sizes: Sizes, gains: QueryId -> real)
    requires sizes.queries > 0
    requires EvaluateGate(baselineConfig, candidateConfig, expected, baseline, candidate, policy, sizes).Ok?
    requires forall b, c, gain | b in baseline && c in candidate && Improves(b, c, policy.metric, gain) ::
      gains(b.query) == gain
    ensures var r := EvaluateGate(baselineConfig, candidateConfig, expected, baseline, candidate, policy, sizes).value;
            r.aggregate.observed * r.aggregate.paired as real
            == RealSum(SortedElements(ComparedQueries(baseline, candidate)), gains)
  {
    hide ValidPolicy, ValidEvidence, PairedDeltas, Violations, Improves, PairedRows, MetricDelta, Distinct, RealSum,
      SortedElements;
    EvidenceSupports(baseline, candidate, ToSet(expected), sizes);
    var rows := PairedRows(PairedDeltas(baseline, candidate).value);
    SumOfGains(baseline, candidate, ToSet(expected), policy, sizes, gains);
    QuotientMeans(Mean(rows, policy.metric), RealSum(rows, DeltaOf(policy.metric)), |rows| as real);
  }

  lemma SumOfGains(baseline: seq<Outcome>, candidate: seq<Outcome>, expected: set<QueryId>, policy: Policy,
                   sizes: Sizes, gains: QueryId -> real)
    requires ValidEvidence(baseline, expected, sizes) && ValidEvidence(candidate, expected, sizes)
    requires PairedDeltas(baseline, candidate).Ok?
    requires forall b, c, gain | b in baseline && c in candidate && Improves(b, c, policy.metric, gain) ::
      gains(b.query) == gain
    ensures RealSum(PairedRows(PairedDeltas(baseline, candidate).value), DeltaOf(policy.metric))
            == RealSum(SortedElements(ComparedQueries(baseline, candidate)), gains)
  {
    hide ValidEvidence, PairedDeltas, Improves, PairedRows, MetricDelta, Distinct, RealSum, SortedElements;
    var rows := PairedRows(PairedDeltas(baseline, candidate).value);
    PairedRowsMean(baseline, candidate, expected, sizes);
    forall d | d in rows ensures gains(d.query) == MetricDelta(d, policy.metric) {
      var b, c := RowSides(baseline, candidate, rows, d);
      assert Improves(b, c, policy.metric, MetricDelta(d, policy.metric));
    }
    SumByQuery(rows, policy.metric, gains);
    var queries := SortedElements(ComparedQueries(baseline, candidate));
    SortedElementsSound(ComparedQueries(baseline, candidate));
    SetArrangements(RowQueries(rows), queries);
    RealSumPermutation(RowQueries(rows), queries, gains);
  }

  /** A candidate that is nowhere worse than the baseline violates nothing, and its mean is not negative. */
  lemma NoWorseNoViolation(baselineConfig: nat, candidateConfig: nat, expected: seq<QueryId>, baseline: seq<Outcome>,
                           candidate: seq<Outcome>, policy: Policy, sizes: Sizes)
    requires sizes.queries > 0
    requires forall b, c | b in baseline && c in candidate && Compared(b, c) ::
      Rated(b.metrics.value, policy.metric).Some? && Rated(c.metrics.value, policy.metric).Some? ==>
        Rated(c.metrics.value, policy.metric).value >= Rated(b.metrics.value, policy.metric).value
    ensures var r := EvaluateGate(baselineConfig, candidateConfig, expected, baseline, candidate, policy, sizes);
      r.Ok? ==> r.value.perQuery.passed && r.value.perQuery.violations == [] && r.value.aggregate.observed >= 0.0
  {
    hide ValidEvidence, PairedDeltas, Violations, PairedRows, MetricDelta, ComparedQueries;
    var r := EvaluateGate(baselineConfig, candidateConfig, expected, baseline, candidate, policy, sizes);
    if r.Ok? {
      EvidenceSupports(baseline, candidate, ToSet(expected), sizes);
      var rows := PairedRows(PairedDeltas(baseline, candidate).value);
      GateMeans(baselineConfig, candidateConfig, expected, baseline, candidate, policy, sizes);
      NothingDropped(baseline, candidate, policy);
      RowsNotNegative(baseline, candidate, ToSet(expected), policy, sizes);
      SumNotNegative(rows, policy.metric);
      var mean := r.value.aggregate.observed;
      QuotientMeans(mean, RealSum(rows, DeltaOf(policy.metric)), |rows| as real);
      if mean < 0.0 { M.SignOfProduct(-mean, |rows| as real); }
    }
  }

  lemma NothingDropped(baseline: seq<Outcome>, candidate: seq<Outcome>, policy: Policy)
    requires policy.maxQueryDrop >= 0.0
    requires forall b, c | b in baseline && c in candidate && Compared(b, c) ::
      Rated(b.metrics.value, policy.metric).Some? && Rated(c.metrics.value, policy.metric).Some? ==>
        Rated(c.metrics.value, policy.metric).value >= Rated(b.metrics.value, policy.metric).value
    ensures Dropped(baseline, candidate, policy) == {}
  {
  }

  lemma RowsNotNegative(baseline: seq<Outcome>, candidate: seq<Outcome>, expected: set<QueryId>, policy: Policy,
                        sizes: Sizes)
    requires ValidEvidence(baseline, expected, sizes) && ValidEvidence(candidate, expected, sizes)
    requires PairedDeltas(baseline, candidate).Ok?
    requires forall b, c | b in baseline && c in candidate && Compared(b, c) ::
      Rated(b.metrics.value, policy.metric).Some? && Rated(c.metrics.value, policy.metric).Some? ==>
        Rated(c.metrics.value, policy.metric).value >= Rated(b.metrics.value, policy.metric).value
    ensures forall d | d in PairedRows(PairedDeltas(baseline, candidate).value) :: MetricDelta(d, policy.metric) >= 0.0
  {
    hide ValidEvidence, PairedDeltas, PairedRows, MetricDelta, Distinct;
    var rows := PairedRows(PairedDeltas(baseline, candidate).value);
    PairedRowsMean(baseline, candidate, expected, sizes);
    forall d | d in rows ensures MetricDelta(d, policy.metric) >= 0.0 {
      var b, c := RowSides(baseline, candidate, rows, d);
      assert Improves(b, c, policy.metric, MetricDelta(d, policy.metric));
    }
  }

  lemma {:induction false} SumNotNegative(rows: seq<Delta>, metric: Metric)
    requires forall d | d in rows :: MetricDelta(d, metric) >= 0.0
    ensures RealSum(rows, DeltaOf(metric)) >= 0.0
  {
    if rows != [] {
      assert rows[0] in rows && forall d | d in rows[1..] :: d in rows;
      SumNotNegative(rows[1..], metric);
    }
  }

  predicate Looser(p: Policy, q: Policy) {
    && q.metric == p.metric && q.minDelta <= p.minDelta && q.maxQueryDrop >= p.maxQueryDrop
    && q.maxErrorRate >= p.maxErrorRate && q.minPaired <= p.minPaired
  }

  /** Loosening thresholds never turns a pass into a failure. */
  lemma LooserStillPasses(baselineConfig: nat, candidateConfig: nat, expected: seq<QueryId>, baseline: seq<Outcome>,
                          candidate: seq<Outcome>, p: Policy, q: Policy, sizes: Sizes)
    requires sizes.queries > 0 && Looser(p, q) && ValidPolicy(q, sizes)
    ensures var r, loose := EvaluateGate(baselineConfig, candidateConfig, expected, baseline, candidate, p, sizes),
                            EvaluateGate(baselineConfig, candidateConfig, expected, baseline, candidate, q, sizes);
            r.Ok? && r.value.passed ==> loose.Ok? && loose.value.passed
  {
    hide Violations, Mean, ValidPolicy, ValidEvidence, PairedRows;
    var r := EvaluateGate(baselineConfig, candidateConfig, expected, baseline, candidate, p, sizes);
    if r.Ok? && r.value.passed {
      EvidenceSupports(baseline, candidate, ToSet(expected), sizes);
      var rows, failed := PairedRows(PairedDeltas(baseline, candidate).value), CountIf(candidate, Failed());
      VerdictMeans(rows, failed, p, sizes);
      VerdictMeans(rows, failed, q, sizes);
    }
  }

  lemma EvidencePermutation(a: seq<Outcome>, b: seq<Outcome>, expected: set<QueryId>, sizes: Sizes)
    requires multiset(a) == multiset(b) && ValidEvidence(a, expected, sizes)
    ensures ValidEvidence(b, expected, sizes) && ById(a) == ById(b) && CountIf(a, Failed()) == CountIf(b, Failed())
  {
    PermutationMembers(a, b);
    ByIdPermutation(a, b);
    ByIdKeys(a);
    ByIdKeys(b);
    CountIfPermutation(a, b, Failed());
  }

  /** Neither the order of the outcomes nor that of the catalog matters to a report. */
  lemma GateIgnoresOrder(baselineConfig: nat, candidateConfig: nat,
                         expected: seq<QueryId>, baseline: seq<Outcome>, candidate: seq<Outcome>,
                         expected2: seq<QueryId>, baseline2: seq<Outcome>, candidate2: seq<Outcome>,
                         policy: Policy, sizes: Sizes)
    requires sizes.queries > 0
    requires multiset(expected) == multiset(expected2) && multiset(baseline) == multiset(baseline2)
               && multiset(candidate) == multiset(candidate2)
    requires EvaluateGate(baselineConfig, candidateConfig, expected, baseline, candidate, policy, sizes).Ok?
    ensures EvaluateGate(baselineConfig, candidateConfig, expected2, baseline2, candidate2, policy, sizes)
            == EvaluateGate(baselineConfig, candidateConfig, expected, baseline, candidate, policy, sizes)
  {
    hide ValidEvidence, ValidPolicy, MakeReport, PairedRows;
    PermutationMembers(expected, expected2);
    DistinctPermutation(expected, expected2);
    assert ToSet(expected) == ToSet(expected2);
    EvidencePermutation(baseline, baseline2, ToSet(expected), sizes);
    EvidencePermutation(candidate, candidate2, ToSet(expected), sizes);
    PermutationMembers(baseline, baseline2);
    PermutationMembers(candidate, candidate2);
  }
}
