/** Candidate-minus-baseline pairing, its deterministic order and its coverage counts. */
module Pairing {
  import opened Collections
  import M = Metrics

  type QueryId = nat

  datatype Outcome = Outcome(query: QueryId, metrics: Option<M.QueryMetrics>, latency: Option<real>)

  datatype Status =
    | Paired
    | BaselineMissing
    | CandidateMissing
    | BaselineFailed
    | CandidateFailed
    | BothFailed
    | NoPositiveQrels

  datatype Delta = Delta(
    query: QueryId,
    status: Status,
    baseline: Option<M.QueryMetrics>,
    candidate: Option<M.QueryMetrics>,
    ndcg: Option<real>,
    recall: Option<real>,
    mrr: Option<real>,
    latency: Option<real>)

  datatype Error = DuplicateBaseline | DuplicateCandidate | UnexpectedLatency

  datatype Origin = Live | SyntheticDemo

  datatype Order = Regressions | Gains

  // ----- Pairing

  function Difference(candidate: Option<real>, baseline: Option<real>): Option<real> {
    if candidate.None? || baseline.None? then None else Some(candidate.value - baseline.value)
  }

  function MetricsOf(outcome: Option<Outcome>): Option<M.QueryMetrics> {
    if outcome.Some? then outcome.value.metrics else None
  }

  function LatencyOf(outcome: Option<Outcome>): Option<real> {
    if outcome.Some? then outcome.value.latency else None
  }

  function StatusOf(baseline: Option<Outcome>, candidate: Option<Outcome>): Status {
    if baseline.None? then BaselineMissing
    else if candidate.None? then CandidateMissing
    else if baseline.value.metrics.None? && candidate.value.metrics.None? then BothFailed
    else if baseline.value.metrics.None? then BaselineFailed
    else if candidate.value.metrics.None? then CandidateFailed
    else if baseline.value.metrics.value.ndcg.None? || candidate.value.metrics.value.ndcg.None? then NoPositiveQrels
    else Paired
  }

  function PairOne(query: QueryId, baseline: Option<Outcome>, candidate: Option<Outcome>): Delta {
    var status, b, c := StatusOf(baseline, candidate), MetricsOf(baseline), MetricsOf(candidate);
    var latency := Difference(LatencyOf(candidate), LatencyOf(baseline));
    if status == Paired then
      Delta(query, status, b, c, Difference(c.value.ndcg, b.value.ndcg), Difference(c.value.recall, b.value.recall),
            Difference(c.value.mrr, b.value.mrr), latency)
    else Delta(query, status, b, c, None, None, None, latency)
  }

  /** Last writer wins, as in a dictionary comprehension. */
  function ById(outcomes: seq<Outcome>): map<QueryId, Outcome> {
    if outcomes == [] then map[]
    else ById(outcomes[..|outcomes| - 1])[outcomes[|outcomes| - 1].query := outcomes[|outcomes| - 1]]
  }

  function Lookup(byId: map<QueryId, Outcome>, query: QueryId): Option<Outcome> {
    if query in byId then Some(byId[query]) else None
  }

  function Deltas(baseline: map<QueryId, Outcome>, candidate: map<QueryId, Outcome>,
                  queries: seq<QueryId>): seq<Delta> {
    seq(|queries|, i requires 0 <= i < |queries| =>
        PairOne(queries[i], Lookup(baseline, queries[i]), Lookup(candidate, queries[i])))
  }

  /** Pair by query identifier, keeping missing and failed attempts as explicit statuses. */
  function PairedDeltas(baseline: seq<Outcome>, candidate: seq<Outcome>): Result<seq<Delta>, Error> {
    var b, c := ById(baseline), ById(candidate);
    if |b| != |baseline| then Err(DuplicateBaseline)
    else if |c| != |candidate| then Err(DuplicateCandidate)
    else Ok(Deltas(b, c, SortedElements(b.Keys + c.Keys)))
  }

  function Queries(outcomes: seq<Outcome>): seq<QueryId> {
    seq(|outcomes|, i requires 0 <= i < |outcomes| => outcomes[i].query)
  }

  lemma {:induction false} ByIdKeys(outcomes: seq<Outcome>)
    ensures ById(outcomes).Keys == ToSet(Queries(outcomes))
    ensures forall q | q in ById(outcomes) :: ById(outcomes)[q] in outcomes && ById(outcomes)[q].query == q
  {
    if outcomes != [] {
      var rest, last := outcomes[..|outcomes| - 1], outcomes[|outcomes| - 1];
      ByIdKeys(rest);
      assert outcomes == rest + [last];
      assert Queries(outcomes) == Queries(rest) + [last.query];
      assert ToSet(Queries(outcomes)) == ToSet(Queries(rest)) + {last.query};
    }
  }

  /** The duplicate test is exact, and without duplicates the dictionary holds every outcome. */
  lemma ByIdUnique(outcomes: seq<Outcome>)
    ensures |ById(outcomes)| == |outcomes| <==> Distinct(Queries(outcomes))
    ensures Distinct(Queries(outcomes)) ==>
              forall o | o in outcomes :: o.query in ById(outcomes) && ById(outcomes)[o.query] == o
  {
    hide ById;
    ByIdKeys(outcomes);
    assert |ById(outcomes)| == |ById(outcomes).Keys|;
    CardAtMost(Queries(outcomes));
    if Distinct(Queries(outcomes)) {
      DistinctCard(Queries(outcomes));
      forall o | o in outcomes ensures o.query in ById(outcomes) && ById(outcomes)[o.query] == o {
        var i :| 0 <= i < |outcomes| && outcomes[i] == o;
        assert Queries(outcomes)[i] == o.query;
        assert o.query in ToSet(Queries(outcomes));
        var p := ById(outcomes)[o.query];
        var j :| 0 <= j < |outcomes| && outcomes[j] == p;
        assert Queries(outcomes)[j] == Queries(outcomes)[i];
      }
    }
  }

  lemma DistinctOutcomes(outcomes: seq<Outcome>)
    requires Distinct(Queries(outcomes))
    ensures Distinct(outcomes)
  {
    forall i, j | 0 <= i < j < |outcomes| ensures outcomes[i] != outcomes[j] {
      assert Queries(outcomes)[i] != Queries(outcomes)[j];
    }
  }

  lemma QueryMembers(outcomes: seq<Outcome>)
    ensures forall q :: q in ToSet(Queries(outcomes)) <==> exists o :: o in outcomes && o.query == q
  {
    forall o | o in outcomes ensures o.query in ToSet(Queries(outcomes)) {
      var i :| 0 <= i < |outcomes| && outcomes[i] == o;
      assert Queries(outcomes)[i] == o.query;
    }
    forall q | q in ToSet(Queries(outcomes)) ensures exists o :: o in outcomes && o.query == q {
      var i :| 0 <= i < |outcomes| && Queries(outcomes)[i] == q;
      assert outcomes[i] in outcomes;
    }
  }

  lemma SameQueries(a: seq<Outcome>, b: seq<Outcome>)
    requires multiset(a) == multiset(b)
    ensures ToSet(Queries(a)) == ToSet(Queries(b)) && |a| == |b|
  {
    PermutationMembers(a, b);
    QueryMembers(a);
    QueryMembers(b);
    hide Queries;
    assert forall q :: q in ToSet(Queries(a)) <==> q in ToSet(Queries(b));
  }

  lemma ByIdPermutation(a: seq<Outcome>, b: seq<Outcome>)
    requires multiset(a) == multiset(b) && Distinct(Queries(a))
    ensures ById(a) == ById(b) && Distinct(Queries(b)) && |a| == |b|
  {
    hide ById, Queries, Distinct;
    SameQueries(a, b);
    PermutationMembers(a, b);
    ByIdKeys(a);
    ByIdKeys(b);
    ByIdUnique(a);
    assert |ById(a)| == |ById(a).Keys| && |ById(b)| == |ById(b).Keys|;
    ByIdUnique(b);
    forall q | q in ById(a) ensures ById(a)[q] == ById(b)[q] {
      assert ById(b)[q] in a;
    }
  }

  // ----- Swapping the two sides

  function SwapStatus(status: Status): Status {
    match status
    case BaselineMissing => CandidateMissing
    case CandidateMissing => BaselineMissing
    case BaselineFailed => CandidateFailed
    case CandidateFailed => BaselineFailed
    case other => other
  }

  function Negate(x: Option<real>): Option<real> {
    if x.Some? then Some(-x.value) else None
  }

  function Swapped(d: Delta): Delta {
    Delta(d.query, SwapStatus(d.status), d.candidate, d.baseline, Negate(d.ndcg), Negate(d.recall), Negate(d.mrr),
        Negate(d.latency))
  }

  lemma PairOneSwaps(query: QueryId, baseline: Option<Outcome>, candidate: Option<Outcome>)
    requires baseline.Some? || candidate.Some?
    ensures PairOne(query, candidate, baseline) == Swapped(PairOne(query, baseline, candidate))
  {
  }

  lemma PairOneStatus(query: QueryId, baseline: Option<Outcome>, candidate: Option<Outcome>)
    ensures PairOne(query, baseline, candidate).query == query
    ensures PairOne(query, baseline, candidate).status == Paired ==> baseline.Some? && candidate.Some?
    ensures PairOne(query, baseline, candidate).status == StatusOf(baseline, candidate)
  {
  }

  /** Exchanging baseline and candidate negates every delta and exchanges the one-sided statuses. */
  lemma SwapNegates(baseline: seq<Outcome>, candidate: seq<Outcome>)
    requires PairedDeltas(baseline, candidate).Ok?
    ensures PairedDeltas(candidate, baseline).Ok?
    ensures var d, e := PairedDeltas(baseline, candidate).value, PairedDeltas(candidate, baseline).value;
            |d| == |e| && forall i | 0 <= i < |d| :: e[i] == Swapped(d[i])
    ensures forall d | d in PairedDeltas(baseline, candidate).value :: RowMeans(d, baseline, candidate)
    ensures forall d | d in PairedDeltas(candidate, baseline).value :: RowMeans(d, candidate, baseline)
  {
    hide RowMeans, PairOne, Swapped, ById, SortedElements;
    var b, c := ById(baseline), ById(candidate);
    var queries := SortedElements(b.Keys + c.Keys);
    assert b.Keys + c.Keys == c.Keys + b.Keys;
    SortedElementsSound(b.Keys + c.Keys);
    forall i | 0 <= i < |queries|
      ensures PairOne(queries[i], Lookup(c, queries[i]), Lookup(b, queries[i]))
                == Swapped(PairOne(queries[i], Lookup(b, queries[i]), Lookup(c, queries[i])))
    {
      assert queries[i] in ToSet(queries);
      PairOneSwaps(queries[i], Lookup(b, queries[i]), Lookup(c, queries[i]));
    }
    RowsMean(baseline, candidate);
    RowsMean(candidate, baseline);
  }

  /** One row for each query of either side, in increasing order. */
  lemma DeltaRows(baseline: seq<Outcome>, candidate: seq<Outcome>)
    requires PairedDeltas(baseline, candidate).Ok?
    ensures var d, queries := PairedDeltas(baseline, candidate).value,
              SortedElements(ToSet(Queries(baseline)) + ToSet(Queries(candidate)));
            |d| == |queries| && forall i | 0 <= i < |d| ::
              d[i] == PairOne(queries[i], Lookup(ById(baseline), queries[i]), Lookup(ById(candidate), queries[i]))
                  && d[i].query == queries[i]
  {
    hide PairOne, ById, SortedElements;
    ByIdKeys(baseline);
    ByIdKeys(candidate);
    var queries := SortedElements(ById(baseline).Keys + ById(candidate).Keys);
    forall i | 0 <= i < |queries|
      ensures PairOne(queries[i], Lookup(ById(baseline), queries[i]), Lookup(ById(candidate), queries[i])).query
                == queries[i]
    {
      PairOneStatus(queries[i], Lookup(ById(baseline), queries[i]), Lookup(ById(candidate), queries[i]));
    }
  }

  // ----- What a row says of the outcomes that carry its query

  /** A change is the candidate's value less the baseline's, where both exist. */
  predicate Changed(change: Option<real>, baseline: Option<real>, candidate: Option<real>) {
    && (change.Some? <==> baseline.Some? && candidate.Some?)
    && (change.Some? ==> baseline.value + change.value == candidate.value)
  }

  /** The status and the changes of a query that both sides attempted. */
  predicate SaysOf(d: Delta, b: Outcome, c: Outcome) {
    && d.baseline == b.metrics && d.candidate == c.metrics && Changed(d.latency, b.latency, c.latency)
    && (d.status == BothFailed <==> b.metrics.None? && c.metrics.None?)
    && (d.status == BaselineFailed <==> b.metrics.None? && c.metrics.Some?)
    && (d.status == CandidateFailed <==> b.metrics.Some? && c.metrics.None?)
    && (d.status == NoPositiveQrels <==>
          b.metrics.Some? && c.metrics.Some? && (b.metrics.value.ndcg.None? || c.metrics.value.ndcg.None?))
    && (d.status == Paired <==>
          b.metrics.Some? && c.metrics.Some? && b.metrics.value.ndcg.Some? && c.metrics.value.ndcg.Some?)
    && (d.status == Paired ==>
          && Changed(d.ndcg, b.metrics.value.ndcg, c.metrics.value.ndcg)
          && Changed(d.recall, b.metrics.value.recall, c.metrics.value.recall)
          && Changed(d.mrr, b.metrics.value.mrr, c.metrics.value.mrr))
  }

  ghost predicate Attempted(outcomes: seq<Outcome>, query: QueryId) {
    exists o :: o in outcomes && o.query == query
  }

  ghost predicate RowMeans(d: Delta, baseline: seq<Outcome>, candidate: seq<Outcome>) {
    && (d.status == BaselineMissing <==> !Attempted(baseline, d.query))
    && (d.status == CandidateMissing <==> Attempted(baseline, d.query) && !Attempted(candidate, d.query))
    && (forall b, c | b in baseline && c in candidate && b.query == d.query == c.query :: SaysOf(d, b, c))
    && (d.status in {BaselineMissing, CandidateMissing} ==>
          && d.latency == None
          && (forall b | b in baseline && b.query == d.query :: d.baseline == b.metrics && d.candidate == None)
          && (forall c | c in candidate && c.query == d.query :: d.candidate == c.metrics && d.baseline == None))
    && (d.status != Paired ==> d.ndcg == None && d.recall == None && d.mrr == None)
  }

  lemma PairOneSays(query: QueryId, b: Outcome, c: Outcome)
    ensures SaysOf(PairOne(query, Some(b), Some(c)), b, c)
  {
  }

  lemma PairOneMissing(query: QueryId, b: Option<Outcome>, c: Option<Outcome>)
    ensures var d := PairOne(query, b, c);
      && (d.status == BaselineMissing <==> b.None?) && (d.status == CandidateMissing <==> b.Some? && c.None?)
      && (b.None? || c.None? ==> d.latency == None)
      && d.baseline == (if b.Some? then b.value.metrics else None)
      && d.candidate == (if c.Some? then c.value.metrics else None)
      && (d.status != Paired ==> d.ndcg == None && d.recall == None && d.mrr == None)
  {
  }

  lemma LookupMeans(outcomes: seq<Outcome>, query: QueryId)
    requires Distinct(Queries(outcomes))
    ensures Lookup(ById(outcomes), query).Some? <==> Attempted(outcomes, query)
    ensures forall o | o in outcomes && o.query == query :: Lookup(ById(outcomes), query) == Some(o)
  {
    ByIdKeys(outcomes);
    ByIdUnique(outcomes);
  }

  /** Every row says what the outcomes of its query say, and changes are from the baseline to the candidate. */
  lemma RowsMean(baseline: seq<Outcome>, candidate: seq<Outcome>)
    requires PairedDeltas(baseline, candidate).Ok?
    ensures forall d | d in PairedDeltas(baseline, candidate).value :: RowMeans(d, baseline, candidate)
  {
    hide PairOne, ById, SortedElements, Queries, Distinct, SaysOf;
    ByIdUnique(baseline);
    ByIdUnique(candidate);
    DeltaRows(baseline, candidate);
    forall d | d in PairedDeltas(baseline, candidate).value ensures RowMeans(d, baseline, candidate) {
      LookupMeans(baseline, d.query);
      LookupMeans(candidate, d.query);
      PairOneMissing(d.query, Lookup(ById(baseline), d.query), Lookup(ById(candidate), d.query));
      forall b, c | b in baseline && c in candidate && b.query == d.query == c.query ensures SaysOf(d, b, c) {
        PairOneSays(d.query, b, c);
      }
    }
  }

  function RowQueries(deltas: seq<Delta>): seq<QueryId> {
    seq(|deltas|, i requires 0 <= i < |deltas| => deltas[i].query)
  }

  lemma RowsCoverQueries(baseline: seq<Outcome>, candidate: seq<Outcome>)
    requires PairedDeltas(baseline, candidate).Ok?
    ensures var rows := RowQueries(PairedDeltas(baseline, candidate).value);
            Distinct(rows) && ToSet(rows) == ToSet(Queries(baseline)) + ToSet(Queries(candidate))
  {
    var queries := SortedElements(ToSet(Queries(baseline)) + ToSet(Queries(candidate)));
    DeltaRows(baseline, candidate);
    SortedElementsSound(ToSet(Queries(baseline)) + ToSet(Queries(candidate)));
    hide PairedDeltas, PairOne, SortedElements, Queries;
    assert RowQueries(PairedDeltas(baseline, candidate).value) == queries;
  }

  // ----- Ordering

  predicate KeyLe(a: Delta, b: Delta) {
    var (an, am, bn, bm) := (ValueOf(a.ndcg), ValueOf(a.mrr), ValueOf(b.ndcg), ValueOf(b.mrr));
    an < bn || (an == bn && (am < bm || (am == bm && a.query <= b.query)))
  }

  predicate KeyGe(a: Delta, b: Delta) {
    KeyLe(b, a)
  }

  function ValueOf(x: Option<real>): real {
    if x.Some? then x.value else 0.0
  }

  function IsPaired(): Delta -> bool {
    (d: Delta) => d.status == Paired
  }

  function Ordered(deltas: seq<Delta>, order: Order): seq<Delta> {
    Sort(Filter(deltas, IsPaired()), if order == Gains then KeyGe else KeyLe)
  }

  function OrderQualityDeltas(deltas: seq<Delta>, order: Order, limit: Option<nat>): seq<Delta>
    requires Distinct(RowQueries(deltas))
  {
    var ordered := Ordered(deltas, order);
    if limit.None? || |ordered| <= limit.value then ordered else ordered[..limit.value]
  }

  function Reverse<T>(s: seq<T>): seq<T> {
    seq(|s|, i requires 0 <= i < |s| => s[|s| - 1 - i])
  }

  lemma {:induction false} ReverseMultiset<T>(s: seq<T>)
    ensures multiset(Reverse(s)) == multiset(s)
  {
    if s != [] {
      ReverseMultiset(s[1..]);
      assert s == [s[0]] + s[1..];
      assert Reverse(s) == Reverse(s[1..]) + [s[0]];
    }
  }

  lemma KeyLaws()
    ensures Total(KeyLe) && Transitive(KeyLe) && Total(KeyGe) && Transitive(KeyGe)
  {
  }

  lemma KeySeparates(s: seq<Delta>)
    requires Distinct(RowQueries(s))
    ensures Separates(s, KeyLe) && Separates(s, KeyGe)
  {
    forall i, j | 0 <= i < |s| && 0 <= j < |s| && KeyLe(s[i], s[j]) && KeyLe(s[j], s[i]) ensures s[i] == s[j] {
      assert s[i].query == s[j].query;
      assert RowQueries(s)[i] == RowQueries(s)[j];
    }
  }

  lemma {:induction false} FilterDistinctRows(s: seq<Delta>, p: Delta -> bool)
    requires Distinct(RowQueries(s))
    ensures Distinct(RowQueries(Filter(s, p)))
  {
    if s != [] {
      var rest := s[1..];
      assert RowQueries(rest) == RowQueries(s)[1..];
      FilterDistinctRows(rest, p);
      var kept := Filter(rest, p);
      forall k | 0 <= k < |kept| ensures kept[k].query != s[0].query {
        assert kept[k] in kept && kept[k] in rest;
        var i :| 0 <= i < |rest| && rest[i] == kept[k];
        assert RowQueries(s)[i + 1] != RowQueries(s)[0];
      }
      assert RowQueries(Filter(s, p)) == (if p(s[0]) then [s[0].query] else []) + RowQueries(kept);
    }
  }

  /** The gains are the regressions read backwards, and both contain exactly the paired rows. */
  lemma GainsReverseRegressions(deltas: seq<Delta>)
    requires Distinct(RowQueries(deltas))
    ensures Ordered(deltas, Gains) == Reverse(Ordered(deltas, Regressions))
    ensures SortedBy(Ordered(deltas, Regressions), KeyLe) && SortedBy(Ordered(deltas, Gains), KeyGe)
    ensures forall order, d :: d in Ordered(deltas, order) <==> d in deltas && d.status == Paired
  {
    var paired := Filter(deltas, IsPaired());
    var up, down := Sort(paired, KeyLe), Sort(paired, KeyGe);
    KeyLaws();
    SortSorted(paired, KeyLe);
    SortSorted(paired, KeyGe);
    ReverseMultiset(up);
    FilterDistinctRows(deltas, IsPaired());
    KeySeparates(paired);
    PermutationMembers(paired, up);
    PermutationMembers(paired, down);
    SeparatesPermutation(paired, down, KeyGe);
    assert SortedBy(Reverse(up), KeyGe);
    SortedUnique(down, Reverse(up), KeyGe);
  }

  /** A smaller NDCG change comes first, at equal NDCG a smaller MRR change, then the smaller query. */
  predicate WorseFirst(a: Delta, b: Delta) {
    a.ndcg.Some? && b.ndcg.Some? && a.mrr.Some? && b.mrr.Some? ==>
      && a.ndcg.value <= b.ndcg.value
      && (a.ndcg.value == b.ndcg.value ==>
            a.mrr.value <= b.mrr.value && (a.mrr.value == b.mrr.value ==> a.query < b.query))
  }

  /** Regressions come worst first, gains best first. */
  predicate Directed(rows: seq<Delta>, order: Order) {
    forall i, j | 0 <= i < j < |rows| ::
      if order == Gains then WorseFirst(rows[j], rows[i]) else WorseFirst(rows[i], rows[j])
  }

  /** The order of the rows in their own terms. */
  lemma OrderMeans(deltas: seq<Delta>)
    requires Distinct(RowQueries(deltas))
    ensures Directed(Ordered(deltas, Regressions), Regressions) && Directed(Ordered(deltas, Gains), Gains)
  {
    hide Sort, Filter, Reverse;
    GainsReverseRegressions(deltas);
    FilterDistinctRows(deltas, IsPaired());
    OrderedDistinct(deltas, Regressions);
    OrderedDistinct(deltas, Gains);
  }

  lemma OrderedDistinct(deltas: seq<Delta>, order: Order)
    requires Distinct(RowQueries(deltas))
    ensures forall i, j | 0 <= i < j < |Ordered(deltas, order)| ::
              Ordered(deltas, order)[i].query != Ordered(deltas, order)[j].query
  {
    hide Sort, Filter, KeyLe, KeyGe;
    FilterDistinctRows(deltas, IsPaired());
    RowsPermutation(Filter(deltas, IsPaired()), Ordered(deltas, order));
    forall i, j | 0 <= i < j < |Ordered(deltas, order)|
      ensures Ordered(deltas, order)[i].query != Ordered(deltas, order)[j].query
    {
      assert RowQueries(Ordered(deltas, order))[i] != RowQueries(Ordered(deltas, order))[j];
    }
  }

  lemma SeparatesPermutation<T(!new)>(a: seq<T>, b: seq<T>, le: (T, T) -> bool)
    requires Separates(a, le) && multiset(a) == multiset(b)
    ensures Separates(b, le)
  {
    PermutationMembers(a, b);
    forall i, j | 0 <= i < |b| && 0 <= j < |b| && le(b[i], b[j]) && le(b[j], b[i]) ensures b[i] == b[j] {
      assert b[i] in a && b[j] in a;
    }
  }

  // ----- Coverage and the regression response

  datatype Response = Response(order: Order, limit: nat, rows: seq<Delta>, paired: nat, excluded: seq<(Status, nat)>)

  const EXCLUDED_ORDER: seq<Status> :=
      [BaselineMissing, CandidateMissing, BaselineFailed, CandidateFailed, BothFailed, NoPositiveQrels]

  function Total6(excluded: seq<(Status, nat)>): nat {
    if excluded == [] then 0 else excluded[0].1 + Total6(excluded[1..])
  }

  /** What the response contract demands of its rows and counts. */
  predicate ValidResponse(r: Response, total: nat) {
    && |r.rows| <= r.limit && Distinct(RowQueries(r.rows))
    && SortedBy(r.rows, if r.order == Gains then KeyGe else KeyLe)
    && |r.excluded| == |EXCLUDED_ORDER| && (forall i | 0 <= i < |r.excluded| :: r.excluded[i].0 == EXCLUDED_ORDER[i])
    && r.paired + Total6(r.excluded) == total
  }

  /** Live rows carry both measured latencies, synthetic rows none. */
  predicate OriginAllows(origin: Origin, baseline: Option<real>, candidate: Option<real>) {
    match origin
    case Live => baseline.Some? && candidate.Some?
    case SyntheticDemo => baseline.None? && candidate.None?
  }

  predicate LatenciesFit(origin: Origin, baseline: seq<Outcome>, candidate: seq<Outcome>, rows: seq<Delta>) {
    forall row | row in rows ::
      OriginAllows(origin, LatencyOf(Lookup(ById(baseline), row.query)), LatencyOf(Lookup(ById(candidate), row.query)))
  }

  /** The same on the outcomes: live rows are measured on both sides, synthetic ones on neither. */
  ghost predicate Measured(origin: Origin, baseline: seq<Outcome>, candidate: seq<Outcome>, rows: seq<Delta>) {
    forall row, b, c | row in rows && b in baseline && c in candidate && b.query == row.query == c.query ::
      && (origin == Live ==> b.latency.Some? && c.latency.Some?)
      && (origin == SyntheticDemo ==> b.latency.None? && c.latency.None?)
  }

  lemma LatencyRule(origin: Origin, baseline: seq<Outcome>, candidate: seq<Outcome>, order: Order, limit: nat)
    requires PairedDeltas(baseline, candidate).Ok? && Distinct(RowQueries(PairedDeltas(baseline, candidate).value))
    ensures var rows := OrderQualityDeltas(PairedDeltas(baseline, candidate).value, order, Some(limit));
            LatenciesFit(origin, baseline, candidate, rows) <==> Measured(origin, baseline, candidate, rows)
  {
    hide ById, Deltas, SortedElements, RowQueries, Ordered, Queries, SaysOf, Distinct;
    var deltas := PairedDeltas(baseline, candidate).value;
    ByIdUnique(baseline);
    ByIdUnique(candidate);
    RowsMean(baseline, candidate);
    GainsReverseRegressions(deltas);
    forall row | row in OrderQualityDeltas(deltas, order, Some(limit))
      ensures exists b, c :: b in baseline && c in candidate && b.query == row.query == c.query
      ensures forall b | b in baseline && b.query == row.query :: Lookup(ById(baseline), row.query) == Some(b)
      ensures forall c | c in candidate && c.query == row.query :: Lookup(ById(candidate), row.query) == Some(c)
    {
      LookupMeans(baseline, row.query);
      LookupMeans(candidate, row.query);
      assert RowMeans(row, baseline, candidate) && row.status == Paired;
    }
  }

  function Is(status: Status): Delta -> bool {
    (d: Delta) => d.status == status
  }

  lemma {:induction false} StatusesPartition(deltas: seq<Delta>)
    ensures CountIf(deltas, Is(Paired)) + CountIf(deltas, Is(BaselineMissing)) + CountIf(deltas, Is(CandidateMissing))
            + CountIf(deltas, Is(BaselineFailed)) + CountIf(deltas, Is(CandidateFailed))
                + CountIf(deltas, Is(BothFailed))
            + CountIf(deltas, Is(NoPositiveQrels)) == |deltas|
  {
    if deltas != [] { StatusesPartition(deltas[1..]); }
  }

  /** Tally the statuses in one pass. */
  method CountStatuses(deltas: seq<Delta>) returns (counts: map<Status, nat>)
    ensures forall status :: status in counts && counts[status] == CountIf(deltas, Is(status))
  {
    counts := map[Paired := 0, BaselineMissing := 0, CandidateMissing := 0, BaselineFailed := 0, CandidateFailed := 0,
                  BothFailed := 0, NoPositiveQrels := 0];
    forall status: Status ensures status in counts && counts[status] == CountIf(deltas[..0], Is(status)) {
      match status { case Paired => case BaselineMissing => case CandidateMissing => case BaselineFailed =>
                     case CandidateFailed => case BothFailed => case NoPositiveQrels => }
    }
    for i := 0 to |deltas|
      invariant forall status: Status :: status in counts && counts[status] == CountIf(deltas[..i], Is(status))
    {
      forall status: Status
        ensures CountIf(deltas[..i + 1], Is(status))
                == CountIf(deltas[..i], Is(status)) + if deltas[i].status == status then 1 else 0
      {
        CountIfStep(deltas, i, Is(status));
      }
      counts := counts[deltas[i].status := counts[deltas[i].status] + 1];
    }
    assert deltas[..|deltas|] == deltas;
  }

  lemma PrefixOfSorted<T>(s: seq<T>, n: nat, le: (T, T) -> bool)
    requires n <= |s| && SortedBy(s, le)
    ensures SortedBy(s[..n], le)
  {
  }

  /** A limited result is the prefix of the full order, and still has distinct sorted rows. */
  lemma LimitedIsPrefix(deltas: seq<Delta>, order: Order, limit: nat)
    requires Distinct(RowQueries(deltas))
    ensures var rows := OrderQualityDeltas(deltas, order, Some(limit));
            && rows <= OrderQualityDeltas(deltas, order, None)
            && |rows| <= limit && (|rows| < limit ==> rows == OrderQualityDeltas(deltas, order, None))
            && SortedBy(rows, if order == Gains then KeyGe else KeyLe)
            && Directed(rows, order)
            && Distinct(RowQueries(rows))
  {
    hide Filter, Sort, KeyLe, KeyGe, WorseFirst, Reverse, Distinct;
    OrderMeans(deltas);
    var ordered, rows := Ordered(deltas, order), OrderQualityDeltas(deltas, order, Some(limit));
    GainsReverseRegressions(deltas);
    FilterDistinctRows(deltas, IsPaired());
    RowsPermutation(Filter(deltas, IsPaired()), ordered);
    PrefixDistinct(RowQueries(ordered), |rows|);
    PrefixOfSorted(ordered, |rows|, if order == Gains then KeyGe else KeyLe);
    assert RowQueries(rows) == RowQueries(ordered)[..|rows|];
  }

  lemma PrefixDistinct<T>(s: seq<T>, n: nat)
    requires n <= |s| && Distinct(s)
    ensures Distinct(s[..n])
  {
  }

  lemma RowsPermutation(a: seq<Delta>, b: seq<Delta>)
    requires multiset(a) == multiset(b) && Distinct(RowQueries(a))
    ensures Distinct(RowQueries(b))
  {
    PermutationMembers(a, b);
    KeySeparates(a);
    SeparatesPermutation(a, b, KeyLe);
    forall i, j | 0 <= i < j < |a| ensures a[i] != a[j] { assert RowQueries(a)[i] != RowQueries(a)[j]; }
    DistinctPermutation(a, b);
    forall i, j | 0 <= i < j < |b| ensures b[i].query != b[j].query {
      assert b[i] in a && b[j] in a && b[i] != b[j];
      var k :| 0 <= k < |a| && a[k] == b[i];
      var l :| 0 <= l < |a| && a[l] == b[j];
      assert RowQueries(a)[k] != RowQueries(a)[l];
    }
  }

  /** How many rows are excluded for each reason, in the order of the response. */
  function ExcludedCounts(deltas: seq<Delta>, bothAbsent: nat): seq<(Status, nat)> {
    [(BaselineMissing, CountIf(deltas, Is(BaselineMissing)) + bothAbsent),
     (CandidateMissing, CountIf(deltas, Is(CandidateMissing))), (BaselineFailed, CountIf(deltas, Is(BaselineFailed))),
     (CandidateFailed, CountIf(deltas, Is(CandidateFailed))), (BothFailed, CountIf(deltas, Is(BothFailed))),
     (NoPositiveQrels, CountIf(deltas, Is(NoPositiveQrels)))]
  }

  /** Rows with distinct queries are counted as a set. */
  lemma StatusCount(deltas: seq<Delta>, status: Status)
    requires Distinct(RowQueries(deltas))
    ensures CountIf(deltas, Is(status)) == |RowsWith(deltas, status)|
  {
    forall i, j | 0 <= i < j < |deltas| ensures deltas[i] != deltas[j] {
      assert RowQueries(deltas)[i] != RowQueries(deltas)[j];
    }
    CountIfCard(deltas, Is(status));
    assert Matching(deltas, Is(status)) == RowsWith(deltas, status);
  }

  /** The same counts as sets of rows. */
  ghost function ExcludedRows(deltas: seq<Delta>, bothAbsent: nat): seq<(Status, nat)> {
    [(BaselineMissing, |RowsWith(deltas, BaselineMissing)| + bothAbsent),
     (CandidateMissing, |RowsWith(deltas, CandidateMissing)|), (BaselineFailed, |RowsWith(deltas, BaselineFailed)|),
     (CandidateFailed, |RowsWith(deltas, CandidateFailed)|), (BothFailed, |RowsWith(deltas, BothFailed)|),
     (NoPositiveQrels, |RowsWith(deltas, NoPositiveQrels)|)]
  }

  lemma ExcludedAsRows(deltas: seq<Delta>, bothAbsent: nat)
    requires Distinct(RowQueries(deltas))
    ensures ExcludedCounts(deltas, bothAbsent) == ExcludedRows(deltas, bothAbsent)
  {
    hide Is, RowsWith, RowQueries, Distinct;
    StatusCount(deltas, BaselineMissing);
    StatusCount(deltas, CandidateMissing);
    StatusCount(deltas, BaselineFailed);
    StatusCount(deltas, CandidateFailed);
    StatusCount(deltas, BothFailed);
    StatusCount(deltas, NoPositiveQrels);
  }

  ghost function RowsWith(deltas: seq<Delta>, status: Status): set<Delta> {
    set d | d in deltas && d.status == status
  }

  /** The counts of one response; queries absent on both sides join the missing baselines. */
  method CoverageCounts(deltas: seq<Delta>, bothAbsent: nat) returns (paired: nat, excluded: seq<(Status, nat)>)
    ensures paired == CountIf(deltas, Is(Paired))
    ensures |excluded| == |EXCLUDED_ORDER| && forall i | 0 <= i < |excluded| :: excluded[i].0 == EXCLUDED_ORDER[i]
    ensures paired + Total6(excluded) == |deltas| + bothAbsent
    ensures excluded[0].1 == CountIf(deltas, Is(BaselineMissing)) + bothAbsent
    ensures excluded == ExcludedCounts(deltas, bothAbsent)
  {
    var counts := CountStatuses(deltas);
    StatusesPartition(deltas);
    counts := counts[BaselineMissing := counts[BaselineMissing] + bothAbsent];
    excluded := seq(|EXCLUDED_ORDER|, i requires 0 <= i < |EXCLUDED_ORDER| =>
                    (EXCLUDED_ORDER[i], counts[EXCLUDED_ORDER[i]]));
    SumSix(excluded);
    paired := counts[Paired];
  }

  /** Build the regression response of one query set: queries absent on both sides count as missing from
      the baseline, and the counts cover the query set. */
  method RegressionResponse(origin: Origin, baseline: seq<Outcome>, candidate: seq<Outcome>, querySet: set<QueryId>,
                            order: Order, limit: nat)
    returns (r: Result<Response, Error>)
    requires ToSet(Queries(baseline)) <= querySet && ToSet(Queries(candidate)) <= querySet
    ensures PairedDeltas(baseline, candidate).Ok? <==> Distinct(Queries(baseline)) && Distinct(Queries(candidate))
    ensures PairedDeltas(baseline, candidate).Ok? ==> Distinct(RowQueries(PairedDeltas(baseline, candidate).value))
    ensures r.Ok? <==>
      && PairedDeltas(baseline, candidate).Ok?
      && LatenciesFit(origin, baseline, candidate,
          OrderQualityDeltas(PairedDeltas(baseline, candidate).value, order, Some(limit)))
    ensures PairedDeltas(baseline, candidate).Ok? ==>
      (r.Ok? <==> Measured(origin, baseline, candidate,
                           OrderQualityDeltas(PairedDeltas(baseline, candidate).value, order, Some(limit))))
    ensures r.Ok? ==>
      && ValidResponse(r.value, |querySet|)
      && r.value.order == order && r.value.limit == limit
      && PairedDeltas(baseline, candidate).Ok?
      && r.value.paired == CountIf(PairedDeltas(baseline, candidate).value, Is(Paired))
      && r.value.rows == OrderQualityDeltas(PairedDeltas(baseline, candidate).value, order, Some(limit))
      && r.value.excluded[0].1 == CountIf(PairedDeltas(baseline, candidate).value, Is(BaselineMissing))
                                  + |querySet - ToSet(Queries(baseline)) - ToSet(Queries(candidate))|
    // Each reason with its own number of rows; the rows listed come worst first, or best first for gains.
    ensures r.Ok? ==>
      var deltas := PairedDeltas(baseline, candidate).value;
      && r.value.paired == |RowsWith(deltas, Paired)|
      && r.value.excluded
         == ExcludedRows(deltas, |querySet - ToSet(Queries(baseline)) - ToSet(Queries(candidate))|)
    ensures r.Ok? ==> Directed(r.value.rows, order)
    ensures r.Ok? ==> forall d | d in PairedDeltas(baseline, candidate).value :: RowMeans(d, baseline, candidate)
  {
    hide Queries, ById, Deltas, SortedElements, RowQueries, Ordered, LatenciesFit, RowMeans, Directed, RowsWith,
      ExcludedRows, ExcludedCounts, KeyLe, KeyGe, Is, Measured;
    ByIdUnique(baseline);
    ByIdUnique(candidate);
    var paired := PairedDeltas(baseline, candidate);
    if paired.Err? { return Err(paired.error); }
    var deltas := paired.value;
    RowsMean(baseline, candidate);
    RowsCoverQueries(baseline, candidate);
    LatencyRule(origin, baseline, candidate, order, limit);
    RowCount(deltas);
    LimitedIsPrefix(deltas, order, limit);
    var observed := ToSet(Queries(baseline)) + ToSet(Queries(candidate));
    var bothAbsent := |querySet - observed|;
    assert querySet - observed == querySet - ToSet(Queries(baseline)) - ToSet(Queries(candidate));
    assert |querySet| == |observed| + bothAbsent;
    var pairedCount, excluded := CoverageCounts(deltas, bothAbsent);
    var rows := OrderQualityDeltas(deltas, order, Some(limit));
    StatusCount(deltas, Paired);
    ExcludedAsRows(deltas, bothAbsent);
    if !LatenciesFit(origin, baseline, candidate, rows) { return Err(UnexpectedLatency); }
    return Ok(Response(order, limit, rows, pairedCount, excluded));
  }

  lemma RowCount(deltas: seq<Delta>)
    requires Distinct(RowQueries(deltas))
    ensures |ToSet(RowQueries(deltas))| == |deltas|
  {
    DistinctCard(RowQueries(deltas));
  }

  lemma SumSix(excluded: seq<(Status, nat)>)
    requires |excluded| == 6
    ensures Total6(excluded)
              == excluded[0].1 + excluded[1].1 + excluded[2].1 + excluded[3].1 + excluded[4].1 + excluded[5].1
  {
    Total6Step(excluded, 0);
    Total6Step(excluded, 1);
    Total6Step(excluded, 2);
    Total6Step(excluded, 3);
    Total6Step(excluded, 4);
    Total6Step(excluded, 5);
    hide Total6;
    assert excluded[0..] == excluded && excluded[6..] == [];
    Total6Empty();
  }

  lemma Total6Empty()
    ensures Total6([]) == 0
  {
  }

  lemma Total6Step(excluded: seq<(Status, nat)>, k: nat)
    requires k < |excluded|
    ensures Total6(excluded[k..]) == excluded[k].1 + Total6(excluded[k + 1..])
  {
    assert excluded[k..][1..] == excluded[k + 1..];
  }
}
