/** The rotated work list of a run, and the finalisation that demands its exact coverage. */
module WorkSchedule {
  import opened Collections
  import A = Aggregation
  import M = Metrics
  import P = Pairing

  type QueryId = nat
  type ConfigId = nat
  type RunId = nat

  datatype Item = Item(config: ConfigId, query: QueryId)

  /** A durable outcome: its run, its identity and what its payload records. */
  datatype DurableOutcome = DurableOutcome(run: RunId, item: Item, metrics: Option<M.QueryMetrics>,
      latency: Option<real>)

  datatype Error = ForeignRun | DuplicateIdentities | IncompleteCoverage | Refused(error: A.Error)

  // ----- The work list

  /** Work item `k` of `m` configurations over the queries: each query rotates the configurations by one. */
  function ItemAt(queries: seq<QueryId>, configs: seq<ConfigId>, k: nat): Item
    requires configs != [] && k < Size(queries, configs)
  {
    QuotientBelow(k, |queries|, |configs|);
    Item(configs[Turn(k, |configs|)], queries[Row(k, |configs|)])
  }

  function Size(queries: seq<QueryId>, configs: seq<ConfigId>): nat {
    |queries| * |configs|
  }

  /** Which query stands at place `k` of the list. */
  function Row(k: nat, m: nat): nat
    requires m > 0
  {
    k / m
  }

  /** Which configuration stands at place `k` of the list. */
  function Turn(k: nat, m: nat): (c: nat)
    requires m > 0
    ensures c < m
  {
    Rotate(Row(k, m), Column(k, m), m)
  }

  function Column(k: nat, m: nat): (r: nat)
    requires m > 0
    ensures r < m
  {
    k % m
  }

  function Rotate(q: nat, r: nat, m: nat): (c: nat)
    requires m > 0
    ensures c < m
  {
    (q + r) % m
  }

  lemma QuotientBelow(k: nat, n: nat, m: nat)
    requires m > 0 && k < n * m
    ensures Row(k, m) < n
  {
    DivMod(k, m);
    MultipleBound(k / m - n, m);
    assert m * (k / m) == (k / m - n) * m + n * m;
  }

  lemma DivMod(k: nat, m: nat)
    requires m > 0
    ensures k == m * Row(k, m) + Column(k, m)
  {
  }

  lemma MultipleBound(d: int, m: nat)
    ensures d >= 0 ==> d * m >= 0
    ensures d >= 1 ==> d * m >= m
    ensures d <= -1 ==> d * m <= -1 * m
  {
    if d >= 1 { assert d * m == (d - 1) * m + m && (d - 1) * m >= 0; }
    if d <= -1 { assert d * m == (d + 1) * m - m && (-1 - d) * m >= 0; }
  }

  lemma DivModUnique(q: nat, r: nat, m: nat)
    requires r < m
    ensures (q * m + r) / m == q && (q * m + r) % m == r
  {
    var k := q * m + r;
    assert k == m * (k / m) + k % m;
    var d := k / m - q;
    assert d * m == r - k % m;
    MultipleBound(d, m);
  }

  lemma ModStep(x: nat, m: nat)
    requires 0 < m <= x < 2 * m
    ensures x % m == x - m
  {
    DivModUnique(1, x - m, m);
  }

  /** A rotation: element `j` of the list turned left by `r` places. */
  lemma RotationAt(configs: seq<ConfigId>, r: nat, j: nat)
    requires r < |configs| && j < |configs|
    ensures (configs[r..] + configs[..r])[j] == configs[(r + j) % |configs|]
  {
    WrapsOnce(r + j, |configs|);
  }

  lemma WrapsOnce(x: nat, m: nat)
    requires x < 2 * m
    ensures x % m == if x < m then x else x - m
  {
    if x < m {
      DivModUnique(0, x, m);
    } else {
      ModStep(x, m);
    }
  }

  lemma ModAdd(a: nat, b: nat, m: nat)
    requires m > 0
    ensures (a % m + b) % m == (a + b) % m
  {
    var q, r := a / m, a % m;
    assert a == m * q + r;
    var s := r + b;
    assert s == m * (s / m) + s % m;
    assert a + b == (q + s / m) * m + s % m;
    DivModUnique(q + s / m, s % m, m);
  }

  /** Extend the list query by query, rotating the configurations. */
  method InterleavedWorkItems(queries: seq<QueryId>, configs: seq<ConfigId>) returns (items: seq<Item>)
    requires configs != []
    ensures |items| == Size(queries, configs)
    ensures forall k | 0 <= k < |items| :: items[k] == ItemAt(queries, configs, k)
    ensures |items| == |queries| * |configs|
    ensures forall q, j | 0 <= q < |queries| && 0 <= j < |configs| :: Rotated(items, queries, configs, q, j)
  {
    items := [];
    var m := |configs|;
    for q := 0 to |queries|
      invariant |items| == q * m
      invariant q * m <= |queries| * m
      invariant forall k | 0 <= k < |items| :: items[k] == ItemAt(queries, configs, k)
    {
      var rotation := q % m;
      var rotated := configs[rotation..] + configs[..rotation];
      var added := seq(m, j requires 0 <= j < m => Item(rotated[j], queries[q]));
      RowFits(q, |queries|, m);
      forall k | |items| <= k < |items| + m ensures added[k - |items|] == ItemAt(queries, configs, k) {
        AddedItem(queries, configs, q, k - q * m);
      }
      items := items + added;
    }
    forall q, j | 0 <= q < |queries| && 0 <= j < |configs| ensures Rotated(items, queries, configs, q, j) {
      RowFits(q, |queries|, m);
      PlaceOf(q, j, m);
    }
  }

  /** Place `j` of query `q` holds the configuration `j` places further round than the query's own. */
  predicate Rotated(items: seq<Item>, queries: seq<QueryId>, configs: seq<ConfigId>, q: nat, j: nat)
    requires q < |queries| && j < |configs|
  {
    && q * |configs| + j < |items|
    && items[q * |configs| + j] == Item(configs[(q + j) % |configs|], queries[q])
  }

  lemma RowFits(q: nat, n: nat, m: nat)
    requires q < n
    ensures q * m + m <= n * m && (q + 1) * m == q * m + m
  {
    assert n * m == (q + 1) * m + (n - q - 1) * m;
    assert (n - q - 1) * m >= 0;
  }

  lemma AddedItem(queries: seq<QueryId>, configs: seq<ConfigId>, q: nat, j: nat)
    requires configs != [] && q < |queries| && j < |configs| && q * |configs| + j < Size(queries, configs)
    ensures ItemAt(queries, configs, q * |configs| + j)
            == Item((configs[q % |configs|..] + configs[..q % |configs|])[j], queries[q])
  {
    var m := |configs|;
    PlaceOf(q, j, m);
    RotationAt(configs, q % m, j);
    ModAdd(q, j, m);
  }

  function WorkItems(queries: seq<QueryId>, configs: seq<ConfigId>): seq<Item>
    requires configs != []
  {
    seq(Size(queries, configs), k requires 0 <= k < Size(queries, configs) => ItemAt(queries, configs, k))
  }

  function Product(configs: seq<ConfigId>, queries: seq<QueryId>): set<Item> {
    set c, q | c in configs && q in queries :: Item(c, q)
  }

  lemma SameResidue(a: nat, b: nat, c: nat, m: nat)
    requires b < m && c < m && (a + b) % m == (a + c) % m
    ensures b == c
  {
    var x, y := a + b, a + c;
    assert x == m * (x / m) + x % m && y == m * (y / m) + y % m;
    var d := x / m - y / m;
    assert d * m == b - c;
    MultipleBound(d, m);
  }

  lemma ItemsDiffer(queries: seq<QueryId>, configs: seq<ConfigId>, a: nat, b: nat)
    requires configs != [] && Distinct(queries) && Distinct(configs) && a < b < Size(queries, configs)
    ensures ItemAt(queries, configs, a) != ItemAt(queries, configs, b)
  {
    var m := |configs|;
    QuotientBelow(a, |queries|, m);
    QuotientBelow(b, |queries|, m);
    PlaceUnique(a, b, m);
    hide Turn, Row, Size;
    assert queries[Row(a, m)] == queries[Row(b, m)] ==> Row(a, m) == Row(b, m);
    assert configs[Turn(a, m)] == configs[Turn(b, m)] ==> Turn(a, m) == Turn(b, m);
  }

  lemma PlaceUnique(a: nat, b: nat, m: nat)
    requires m > 0
    ensures Row(a, m) == Row(b, m) && Turn(a, m) == Turn(b, m) ==> a == b
  {
    hide Row, Column, Rotate;
    DivMod(a, m);
    DivMod(b, m);
    CoordinatesUnique(Row(a, m), Column(a, m), Column(b, m), m);
  }

  lemma CoordinatesUnique(q: nat, r: nat, s: nat, m: nat)
    requires r < m && s < m
    ensures Rotate(q, r, m) == Rotate(q, s, m) ==> r == s
  {
    if Rotate(q, r, m) == Rotate(q, s, m) { SameResidue(q, r, s, m); }
  }

  /** The coordinates of a place. */
  lemma PlaceOf(q: nat, r: nat, m: nat)
    requires r < m
    ensures Row(q * m + r, m) == q && Turn(q * m + r, m) == (q + r) % m
  {
    DivModUnique(q, r, m);
  }

  lemma ItemInProduct(queries: seq<QueryId>, configs: seq<ConfigId>, k: nat)
    requires configs != [] && k < Size(queries, configs)
    ensures ItemAt(queries, configs, k) in Product(configs, queries)
  {
    QuotientBelow(k, |queries|, |configs|);
  }

  /** Where a pair stands in the list. */
  lemma PairPlace(queries: seq<QueryId>, configs: seq<ConfigId>, q: nat, c: nat) returns (k: nat)
    requires q < |queries| && c < |configs|
    ensures k < Size(queries, configs) && ItemAt(queries, configs, k) == Item(configs[c], queries[q])
  {
    var m := |configs|;
    var r := (c + m - q % m) % m;
    RotateBack(c, q, m);
    RowFits(q, |queries|, m);
    PlaceOf(q, r, m);
    k := q * m + r;
  }

  /** For distinct queries and configurations, the list holds each pair exactly once. */
  lemma WorkItemsCoverProduct(queries: seq<QueryId>, configs: seq<ConfigId>)
    requires configs != [] && Distinct(queries) && Distinct(configs)
    ensures Distinct(WorkItems(queries, configs)) && ToSet(WorkItems(queries, configs)) == Product(configs, queries)
  {
    hide ItemAt;
    var items := WorkItems(queries, configs);
    forall a, b | 0 <= a < b < |items| ensures items[a] != items[b] {
      ItemsDiffer(queries, configs, a, b);
    }
    forall k | 0 <= k < |items| ensures items[k] in Product(configs, queries) {
      ItemInProduct(queries, configs, k);
    }
    forall item | item in Product(configs, queries) ensures item in items {
      var c :| 0 <= c < |configs| && configs[c] == item.config;
      var q :| 0 <= q < |queries| && queries[q] == item.query;
      var k := PairPlace(queries, configs, q, c);
      assert items[k] == item;
    }
  }

  lemma RotateBack(j: nat, q: nat, m: nat)
    requires j < m
    ensures (q + (j + m - q % m) % m) % m == j
  {
    var r := q % m;
    ModAdd(j + m - r, q, m);
    ModAdd(q, j + m - r, m);
    assert (j + m) % m == j by { DivModUnique(1, j, m); }
    assert r + (j + m - r) == j + m;
  }

  // ----- Slot balance

  /** How many of the first `n` queries give the slot at offset `shift` to configuration `target`. */
  function Residues(n: nat, m: nat, shift: nat, target: nat): nat
    requires m > 0
  {
    if n == 0 then 0 else Residues(n - 1, m, shift, target) + if (n - 1 + shift) % m == target then 1 else 0
  }

  /** Any `m` consecutive queries give each configuration the slot exactly once. */
  lemma {:induction false} FullTurn(n: nat, k: nat, m: nat, shift: nat, target: nat)
    requires k <= m && target < m
    ensures Residues(n + k, m, shift, target) - Residues(n, m, shift, target)
            == if Distance(n + shift, target, m) < k then 1 else 0
  {
    if k > 0 {
      FullTurn(n, k - 1, m, shift, target);
      DistanceMeans(n + shift, k - 1, target, m);
    }
  }

  /** How far the next value congruent to `target` lies from `x`. */
  function Distance(x: nat, target: nat, m: nat): (d: nat)
    requires target < m
    ensures d < m
  {
    (target + m - x % m) % m
  }

  lemma DistanceMeans(x: nat, k: nat, target: nat, m: nat)
    requires k < m && target < m
    ensures (x + k) % m == target <==> k == Distance(x, target, m)
  {
    RotateBack(target, x, m);
    if (x + k) % m == target { SameResidue(x, k, Distance(x, target, m), m); }
  }

  lemma {:induction false} ResidueCount(n: nat, m: nat, shift: nat, target: nat)
    requires target < m
    ensures n / m <= Residues(n, m, shift, target) <= (n + m - 1) / m
  {
    if n < m {
      FullTurn(0, n, m, shift, target);
      DivModUnique(0, n, m);
      if n > 0 { DivModUnique(1, n - 1, m); } else { DivModUnique(0, m - 1, m); }
    } else {
      ResidueCount(n - m, m, shift, target);
      FullTurn(n - m, m, m, shift, target);
      OneMore(n - m, m);
      OneMore(n - 1, m);
    }
  }

  lemma OneMore(n: nat, m: nat)
    requires m > 0
    ensures (n + m) / m == n / m + 1
  {
    DivModUnique(n / m + 1, n % m, m);
    assert n == m * (n / m) + n % m;
    assert (n / m + 1) * m + n % m == n + m;
  }

  function SlotCount(queries: seq<QueryId>, configs: seq<ConfigId>, slot: nat, config: ConfigId, n: nat): nat
    requires configs != [] && slot < |configs| && n <= |queries|
  {
    if n == 0 then 0
    else
      RowFits(n - 1, |queries|, |configs|);
      SlotCount(queries, configs, slot, config, n - 1)
      + if ItemAt(queries, configs, (n - 1) * |configs| + slot).config == config then 1 else 0
  }

  /** Each configuration stands in each slot floor(n/m) or ceil(n/m) times. */
  lemma {:induction false} SlotsBalanced(queries: seq<QueryId>, configs: seq<ConfigId>, slot: nat, c: nat)
    requires Distinct(configs) && slot < |configs| && c < |configs|
    ensures var n, m := |queries|, |configs|;
            n / m <= SlotCount(queries, configs, slot, configs[c], n) <= (n + m - 1) / m
  {
    SlotsAreResidues(queries, configs, slot, c, |queries|);
    ResidueCount(|queries|, |configs|, slot, c);
  }

  lemma {:induction false} SlotsAreResidues(queries: seq<QueryId>, configs: seq<ConfigId>, slot: nat, c: nat, n: nat)
    requires Distinct(configs) && slot < |configs| && c < |configs| && n <= |queries|
    ensures SlotCount(queries, configs, slot, configs[c], n) == Residues(n, |configs|, slot, c)
  {
    hide ItemAt;
    if n > 0 {
      SlotsAreResidues(queries, configs, slot, c, n - 1);
      SlotHit(queries, configs, slot, c, n - 1);
    }
  }

  /** Whether configuration `c` stands in the slot of query `q`. */
  lemma SlotHit(queries: seq<QueryId>, configs: seq<ConfigId>, slot: nat, c: nat, q: nat)
    requires Distinct(configs) && slot < |configs| && c < |configs| && q < |queries|
    ensures q * |configs| + slot < Size(queries, configs)
    ensures ItemAt(queries, configs, q * |configs| + slot).config == configs[c] <==> (q + slot) % |configs| == c
  {
    hide Turn, Row;
    RowFits(q, |queries|, |configs|);
    PlaceOf(q, slot, |configs|);
  }

  // ----- Finalisation

  datatype ConfigSummary = ConfigSummary(
    config: ConfigId, ndcg: A.Summary, recall: A.Summary, mrr: A.Summary, p50: A.Summary, p95: A.Summary,
    errorRate: A.Summary, completed: nat, failed: nat)

  function Summarize(config: ConfigId, a: A.Aggregate): ConfigSummary {
    ConfigSummary(config, a.ndcg, a.recall, a.mrr, a.p50, a.p95, a.errorRate, a.completed, a.failed)
  }

  function Identities(outcomes: seq<DurableOutcome>): seq<Item> {
    seq(|outcomes|, i requires 0 <= i < |outcomes| => outcomes[i].item)
  }

  function OfConfig(config: ConfigId): DurableOutcome -> bool {
    (o: DurableOutcome) => o.item.config == config
  }

  predicate QueryLe(a: DurableOutcome, b: DurableOutcome) {
    a.item.query <= b.item.query
  }

  function Attempt(o: DurableOutcome): P.Outcome {
    P.Outcome(o.item.query, o.metrics, o.latency)
  }

  /** One configuration's attempts in query order. */
  function AttemptsOf(outcomes: seq<DurableOutcome>, config: ConfigId): seq<P.Outcome> {
    var chosen := Sort(Filter(outcomes, OfConfig(config)), QueryLe);
    seq(|chosen|, i requires 0 <= i < |chosen| => Attempt(chosen[i]))
  }

  /** What the outcome records themselves guarantee. */
  predicate ValidOutcomes(outcomes: seq<DurableOutcome>) {
    forall o | o in outcomes ::
      (o.latency.Some? ==> o.latency.value >= 0.0) && (o.metrics.Some? ==> M.ValidMetrics(o.metrics.value))
  }

  /** Exact coverage of the run's pairs by its own outcomes. */
  predicate Covers(outcomes: seq<DurableOutcome>, run: RunId, configs: seq<ConfigId>, queries: seq<QueryId>) {
    && (forall o | o in outcomes :: o.run == run)
    && Distinct(Identities(outcomes))
    && ToSet(Identities(outcomes)) == Product(configs, queries)
  }

  lemma {:induction false} FilterIdentities(outcomes: seq<DurableOutcome>, p: DurableOutcome -> bool)
    requires Distinct(Identities(outcomes))
    ensures Distinct(Identities(Filter(outcomes, p)))
  {
    if outcomes != [] {
      var rest := outcomes[1..];
      assert Identities(rest) == Identities(outcomes)[1..];
      FilterIdentities(rest, p);
      var kept := Filter(rest, p);
      forall k | 0 <= k < |kept| ensures kept[k].item != outcomes[0].item {
        assert kept[k] in kept && kept[k] in rest;
        var i :| 0 <= i < |rest| && rest[i] == kept[k];
        assert Identities(outcomes)[i + 1] != Identities(outcomes)[0];
      }
      assert Identities(Filter(outcomes, p)) == (if p(outcomes[0]) then [outcomes[0].item] else []) + Identities(kept);
    }
  }

  /** One configuration's outcomes are told apart by their query. */
  lemma ConfigOutcomesSeparate(outcomes: seq<DurableOutcome>, config: ConfigId)
    requires Distinct(Identities(outcomes))
    ensures Separates(Filter(outcomes, OfConfig(config)), QueryLe)
  {
    var chosen := Filter(outcomes, OfConfig(config));
    FilterIdentities(outcomes, OfConfig(config));
    forall i, j | 0 <= i < |chosen| && 0 <= j < |chosen| && QueryLe(chosen[i], chosen[j])
        && QueryLe(chosen[j], chosen[i])
      ensures chosen[i] == chosen[j]
    {
      assert chosen[i] in chosen && chosen[j] in chosen;
      assert Identities(chosen)[i] == Identities(chosen)[j];
    }
  }

  lemma QueryLaws()
    ensures Total(QueryLe) && Transitive(QueryLe)
  {
  }

  /** The attempts of a configuration do not depend on the order of the outcomes. */
  lemma AttemptsIgnoreOrder(a: seq<DurableOutcome>, b: seq<DurableOutcome>, config: ConfigId)
    requires multiset(a) == multiset(b) && Distinct(Identities(a))
    ensures AttemptsOf(a, config) == AttemptsOf(b, config)
  {
    FilterPermutation(a, b, OfConfig(config));
    ConfigOutcomesSeparate(a, config);
    QueryLaws();
    SortPermutation(Filter(a, OfConfig(config)), Filter(b, OfConfig(config)), QueryLe);
  }

  /** The attempts of one configuration, each once and in the order of the queries. */
  ghost predicate AreAttempts(attempts: seq<P.Outcome>, outcomes: seq<DurableOutcome>, config: ConfigId) {
    && (forall i, j | 0 <= i < j < |attempts| :: attempts[i].query < attempts[j].query)
    && (forall a | a in attempts :: exists o :: o in outcomes && o.item.config == config && Records(o, a))
    && (forall o | o in outcomes && o.item.config == config :: exists a :: a in attempts && Records(o, a))
  }

  predicate Records(o: DurableOutcome, a: P.Outcome) {
    a.query == o.item.query && a.metrics == o.metrics && a.latency == o.latency
  }

  lemma AttemptsMean(outcomes: seq<DurableOutcome>, config: ConfigId)
    requires Distinct(Identities(outcomes))
    ensures AreAttempts(AttemptsOf(outcomes, config), outcomes, config)
  {
    hide Identities, Distinct, Filter, Sort, QueryLe, P.Queries;
    var (filtered, attempts) := (Filter(outcomes, OfConfig(config)), AttemptsOf(outcomes, config));
    var chosen := Sort(filtered, QueryLe);
    PermutationMembers(filtered, chosen);
    ChosenInOrder(outcomes, config);
    forall a | a in attempts ensures exists o :: o in outcomes && o.item.config == config && Records(o, a) {
      var i :| 0 <= i < |attempts| && attempts[i] == a;
      assert chosen[i] in chosen && Records(chosen[i], a);
    }
    forall o | o in outcomes && o.item.config == config ensures exists a :: a in attempts && Records(o, a) {
      assert o in chosen;
      var i :| 0 <= i < |chosen| && chosen[i] == o;
      assert attempts[i] in attempts && Records(o, attempts[i]);
    }
  }

  lemma ChosenInOrder(outcomes: seq<DurableOutcome>, config: ConfigId)
    requires Distinct(Identities(outcomes))
    ensures var attempts := AttemptsOf(outcomes, config);
            forall i, j | 0 <= i < j < |attempts| :: attempts[i].query < attempts[j].query
  {
    hide Identities, Filter, Sort;
    var chosen := Sort(Filter(outcomes, OfConfig(config)), QueryLe);
    QueryLaws();
    SortSorted(Filter(outcomes, OfConfig(config)), QueryLe);
    ChosenDistinct(outcomes, config);
    var attempts := AttemptsOf(outcomes, config);
    forall i, j | 0 <= i < j < |attempts| ensures attempts[i].query < attempts[j].query {
      assert QueryLe(chosen[i], chosen[j]);
      assert P.Queries(attempts)[i] != P.Queries(attempts)[j];
    }
  }

  /** A summary in terms of the attempts it summarises. */
  ghost predicate SummaryMeans(s: ConfigSummary, config: ConfigId, attempts: seq<P.Outcome>) {
    && s.config == config
    && A.IsMean(s.ndcg, RealSum(attempts, A.NdcgPart()), |A.Rated(attempts)|)
    && A.IsMean(s.recall, RealSum(attempts, A.RecallPart()), |A.Rated(attempts)|)
    && A.IsMean(s.mrr, RealSum(attempts, A.MrrPart()), |A.Rated(attempts)|)
    && A.IsMean(s.errorRate, s.failed as real, |attempts|)
    && s.completed == |A.Completed(attempts)| && s.failed == |attempts| - s.completed
    && exists ordered :: A.AreLatencies(ordered, attempts)
                         && A.IsPercentile(s.p50, ordered, 0.5) && A.IsPercentile(s.p95, ordered, 0.95)
  }

  lemma SummarizeMeans(config: ConfigId, attempts: seq<P.Outcome>)
    requires A.ValidSamples(attempts) && A.AggregateOutcomes(attempts).Ok?
    ensures SummaryMeans(Summarize(config, A.AggregateOutcomes(attempts).value), config, attempts)
  {
    hide A.AggregateOutcomes, A.IsMean, A.AreLatencies, A.IsPercentile, A.ValidSamples, RealSum;
    A.AggregateMeans(attempts);
  }

  lemma AttemptsAggregate(outcomes: seq<DurableOutcome>, run: RunId, configs: seq<ConfigId>, queries: seq<QueryId>,
                          config: ConfigId)
    requires ValidOutcomes(outcomes) && Covers(outcomes, run, configs, queries) && config in configs
    ensures A.AggregateOutcomes(AttemptsOf(outcomes, config)).Ok?
    ensures var a := A.AggregateOutcomes(AttemptsOf(outcomes, config)).value;
            A.ValidAggregate(a) && a.completed + a.failed == |ToSet(queries)|
    ensures AreAttempts(AttemptsOf(outcomes, config), outcomes, config)
    ensures SummaryMeans(Summarize(config, A.AggregateOutcomes(AttemptsOf(outcomes, config)).value), config,
                         AttemptsOf(outcomes, config))
  {
    hide AreAttempts, SummaryMeans;
    AttemptsMean(outcomes, config);
    AttemptFacts(outcomes, config);
    A.AggregateIsValid(AttemptsOf(outcomes, config));
    SummarizeMeans(config, AttemptsOf(outcomes, config));
    var attempts := AttemptsOf(outcomes, config);
    AttemptQueries(outcomes, run, configs, queries, config);
    DistinctCard(P.Queries(attempts));
  }

  lemma AttemptFacts(outcomes: seq<DurableOutcome>, config: ConfigId)
    requires ValidOutcomes(outcomes) && Distinct(Identities(outcomes))
    ensures A.ValidSamples(AttemptsOf(outcomes, config)) && Distinct(P.Queries(AttemptsOf(outcomes, config)))
  {
    var chosen := Sort(Filter(outcomes, OfConfig(config)), QueryLe);
    var attempts := AttemptsOf(outcomes, config);
    PermutationMembers(Filter(outcomes, OfConfig(config)), chosen);
    forall a | a in attempts
      ensures (a.latency.Some? ==> a.latency.value >= 0.0) && (a.metrics.Some? ==> M.ValidMetrics(a.metrics.value))
    {
      var i :| 0 <= i < |attempts| && attempts[i] == a;
      assert chosen[i] in chosen && chosen[i] in outcomes;
    }
    ChosenDistinct(outcomes, config);
  }

  lemma ChosenDistinct(outcomes: seq<DurableOutcome>, config: ConfigId)
    requires Distinct(Identities(outcomes))
    ensures Distinct(P.Queries(AttemptsOf(outcomes, config)))
  {
    var filtered := Filter(outcomes, OfConfig(config));
    var chosen := Sort(filtered, QueryLe);
    FilterIdentities(outcomes, OfConfig(config));
    ConfigOutcomesSeparate(outcomes, config);
    P.SeparatesPermutation(filtered, chosen, QueryLe);
    forall i, j | 0 <= i < j < |filtered| ensures filtered[i] != filtered[j] {
      assert Identities(filtered)[i] != Identities(filtered)[j];
    }
    DistinctPermutation(filtered, chosen);
    forall i, j | 0 <= i < j < |chosen| ensures chosen[i].item.query != chosen[j].item.query {
      assert chosen[i] != chosen[j];
      if chosen[i].item.query == chosen[j].item.query {
        assert QueryLe(chosen[i], chosen[j]) && QueryLe(chosen[j], chosen[i]);
      }
    }
  }

  lemma AttemptQueries(outcomes: seq<DurableOutcome>, run: RunId, configs: seq<ConfigId>, queries: seq<QueryId>,
                       config: ConfigId)
    requires Covers(outcomes, run, configs, queries) && config in configs
    ensures ToSet(P.Queries(AttemptsOf(outcomes, config))) == ToSet(queries)
  {
    forall q | q in P.Queries(AttemptsOf(outcomes, config)) ensures q in queries {
      ListedIsExpected(outcomes, run, configs, queries, config, q);
    }
    forall q | q in queries ensures q in P.Queries(AttemptsOf(outcomes, config)) {
      ExpectedIsListed(outcomes, run, configs, queries, config, q);
    }
  }

  lemma ListedIsExpected(outcomes: seq<DurableOutcome>, run: RunId, configs: seq<ConfigId>, queries: seq<QueryId>,
                         config: ConfigId, q: QueryId)
    requires Covers(outcomes, run, configs, queries) && q in P.Queries(AttemptsOf(outcomes, config))
    ensures q in queries
  {
    var chosen := Sort(Filter(outcomes, OfConfig(config)), QueryLe);
    PermutationMembers(Filter(outcomes, OfConfig(config)), chosen);
    var i :| 0 <= i < |chosen| && chosen[i].item.query == q;
    assert chosen[i] in chosen && chosen[i] in outcomes;
    IdentityOf(outcomes, chosen[i]);
    assert chosen[i].item in Product(configs, queries);
  }

  lemma ExpectedIsListed(outcomes: seq<DurableOutcome>, run: RunId, configs: seq<ConfigId>, queries: seq<QueryId>,
                         config: ConfigId, q: QueryId)
    requires Covers(outcomes, run, configs, queries) && config in configs && q in queries
    ensures q in P.Queries(AttemptsOf(outcomes, config))
  {
    hide Sort;
    var chosen := Sort(Filter(outcomes, OfConfig(config)), QueryLe);
    PermutationMembers(Filter(outcomes, OfConfig(config)), chosen);
    assert Item(config, q) in Product(configs, queries);
    var k :| 0 <= k < |outcomes| && Identities(outcomes)[k] == Item(config, q);
    assert outcomes[k] in outcomes && outcomes[k] in chosen;
    var i :| 0 <= i < |chosen| && chosen[i] == outcomes[k];
    assert P.Queries(AttemptsOf(outcomes, config))[i] == q;
  }

  lemma IdentityOf(outcomes: seq<DurableOutcome>, o: DurableOutcome)
    requires o in outcomes
    ensures o.item in ToSet(Identities(outcomes))
  {
    var i :| 0 <= i < |outcomes| && outcomes[i] == o;
    assert Identities(outcomes)[i] == o.item;
  }

  /** Demand exact coverage, then summarise each configuration from its durable outcomes. */
  method FinalizeDurableOutcomes(run: RunId, outcomes: seq<DurableOutcome>, configs: seq<ConfigId>,
                                 queries: seq<QueryId>)
    returns (r: Result<seq<ConfigSummary>, Error>)
    requires ValidOutcomes(outcomes)
    ensures r.Ok? <==> Covers(outcomes, run, configs, queries)
    // The first fault found: a foreign run, then a pair recorded twice, then a pair missing or foreign.
    ensures r == Err(ForeignRun) <==> exists o :: o in outcomes && o.run != run
    ensures r == Err(DuplicateIdentities) <==>
            (forall o | o in outcomes :: o.run == run) && !Distinct(Identities(outcomes))
    ensures r == Err(IncompleteCoverage) <==>
            && (forall o | o in outcomes :: o.run == run) && Distinct(Identities(outcomes))
            && ToSet(Identities(outcomes)) != Product(configs, queries)
    // Each summary is that of the configuration's own attempts.
    ensures r.Ok? ==> |r.value| == |configs| && forall c | 0 <= c < |configs| ::
      && AreAttempts(AttemptsOf(outcomes, configs[c]), outcomes, configs[c])
      && SummaryMeans(r.value[c], configs[c], AttemptsOf(outcomes, configs[c]))
    ensures r.Ok? ==> |r.value| == |configs| && forall c | 0 <= c < |configs| ::
      && A.AggregateOutcomes(AttemptsOf(outcomes, configs[c])).Ok?
      && r.value[c] == Summarize(configs[c], A.AggregateOutcomes(AttemptsOf(outcomes, configs[c])).value)
      && r.value[c].completed + r.value[c].failed == |ToSet(queries)|
  {
    hide AttemptsOf, Product, A.AggregateOutcomes, A.ValidAggregate, AreAttempts, SummaryMeans;
    for i := 0 to |outcomes|
      invariant forall k | 0 <= k < i :: outcomes[k].run == run
    {
      if outcomes[i].run != run {
        assert outcomes[i] in outcomes;
        return Err(ForeignRun);
      }
    }
    var actual := ToSet(Identities(outcomes));
    CardAtMost(Identities(outcomes));
    if |outcomes| != |actual| {
      if Distinct(Identities(outcomes)) { DistinctCard(Identities(outcomes)); }
      return Err(DuplicateIdentities);
    }
    if actual != Product(configs, queries) { return Err(IncompleteCoverage); }
    var summaries: seq<ConfigSummary> := [];
    for c := 0 to |configs|
      invariant |summaries| == c
      invariant forall k | 0 <= k < c ::
        && A.AggregateOutcomes(AttemptsOf(outcomes, configs[k])).Ok?
        && summaries[k] == Summarize(configs[k], A.AggregateOutcomes(AttemptsOf(outcomes, configs[k])).value)
        && summaries[k].completed + summaries[k].failed == |ToSet(queries)|
        && AreAttempts(AttemptsOf(outcomes, configs[k]), outcomes, configs[k])
        && SummaryMeans(summaries[k], configs[k], AttemptsOf(outcomes, configs[k]))
    {
      AttemptsAggregate(outcomes, run, configs, queries, configs[c]);
      var aggregate := A.AggregateOutcomes(AttemptsOf(outcomes, configs[c]));
      summaries := summaries + [Summarize(configs[c], aggregate.value)];
    }
    return Ok(summaries);
  }

  /** Executing the work list once, in any completion order, meets the coverage test. */
  lemma ExecutionCovers(outcomes: seq<DurableOutcome>, run: RunId, configs: seq<ConfigId>, queries: seq<QueryId>)
    requires configs != [] && Distinct(queries) && Distinct(configs) && forall o | o in outcomes :: o.run == run
    requires multiset(Identities(outcomes)) == multiset(WorkItems(queries, configs))
    ensures Covers(outcomes, run, configs, queries)
  {
    WorkItemsCoverProduct(queries, configs);
    DistinctPermutation(WorkItems(queries, configs), Identities(outcomes));
    PermutationMembers(Identities(outcomes), WorkItems(queries, configs));
    assert ToSet(Identities(outcomes)) == ToSet(WorkItems(queries, configs));
  }

  /** The summaries do not depend on the order in which outcomes were recorded. */
  lemma SummariesIgnoreOrder(a: seq<DurableOutcome>, b: seq<DurableOutcome>, run: RunId, configs: seq<ConfigId>,
                             queries: seq<QueryId>)
    requires multiset(a) == multiset(b) && Covers(a, run, configs, queries)
    ensures Covers(b, run, configs, queries)
    ensures forall c | c in configs :: AttemptsOf(b, c) == AttemptsOf(a, c)
  {
    hide AttemptsOf, Product;
    PermutationMembers(a, b);
    IdentitiesPermutation(a, b);
    DistinctPermutation(Identities(a), Identities(b));
    PermutationMembers(Identities(a), Identities(b));
    assert ToSet(Identities(a)) == ToSet(Identities(b));
    forall c | c in configs ensures AttemptsOf(b, c) == AttemptsOf(a, c) { AttemptsIgnoreOrder(a, b, c); }
  }

  lemma IdentitiesRemove(b: seq<DurableOutcome>, i: nat)
    requires i < |b|
    ensures multiset(Identities(b)) == multiset{b[i].item} + multiset(Identities(b[..i] + b[i + 1..]))
  {
    var rest := b[..i] + b[i + 1..];
    assert Identities(rest) == Identities(b)[..i] + Identities(b)[i + 1..];
    RemoveMultiset(Identities(b), i);
    assert Identities(b)[i] in multiset(Identities(b));
    assert multiset{b[i].item} <= multiset(Identities(b));
  }

  lemma {:induction false} IdentitiesPermutation(a: seq<DurableOutcome>, b: seq<DurableOutcome>)
    requires multiset(a) == multiset(b)
    ensures multiset(Identities(a)) == multiset(Identities(b))
  {
    hide Identities;
    PermutationMembers(a, b);
    if a == [] {
      assert b == [];
    } else {
      assert a[0] in b;
      var i :| 0 <= i < |b| && b[i] == a[0];
      RemoveSame(a, b, i);
      IdentitiesPermutation(a[1..], b[..i] + b[i + 1..]);
      IdentitiesRemove(b, i);
      IdentitiesRemove(a, 0);
      assert a[..0] + a[1..] == a[1..];
    }
  }

  lemma RemoveSame<T>(a: seq<T>, b: seq<T>, i: nat)
    requires a != [] && i < |b| && b[i] == a[0] && multiset(a) == multiset(b)
    ensures multiset(a[1..]) == multiset(b[..i] + b[i + 1..])
  {
    TailMultiset(a);
    RemoveMultiset(b, i);
  }

  // ----- Complete query groups

  /** Outcomes inside the run's scope, without repeated identities. */
  predicate InScope(outcomes: seq<DurableOutcome>, run: RunId, configs: seq<ConfigId>, queries: seq<QueryId>) {
    && Distinct(Identities(outcomes))
    && forall o | o in outcomes :: o.run == run && o.item.config in configs && o.item.query in queries
  }

  function Observed(outcomes: seq<DurableOutcome>, query: QueryId): set<ConfigId> {
    set o | o in outcomes && o.item.query == query :: o.item.config
  }

  function Complete(outcomes: seq<DurableOutcome>, configs: seq<ConfigId>): QueryId -> bool {
    (q: QueryId) => Observed(outcomes, q) == ToSet(configs)
  }

  /** Collect the configurations seen for each query, then count the complete groups. */
  method CompletedGroups(outcomes: seq<DurableOutcome>, configs: seq<ConfigId>, queries: seq<QueryId>)
    returns (groups: nat)
    requires forall o | o in outcomes :: o.item.query in queries
    ensures groups == CountIf(queries, Complete(outcomes, configs))
    ensures Distinct(queries) && (forall o | o in outcomes :: o.item.config in configs) ==>
              groups == |CompleteQueries(outcomes, configs, queries)|
  {
    var seen: map<QueryId, set<ConfigId>> := map q | q in queries :: {};
    for i := 0 to |outcomes|
      invariant seen.Keys == ToSet(queries)
      invariant forall q | q in queries :: seen[q] == Observed(outcomes[..i], q)
    {
      var o := outcomes[i];
      assert outcomes[..i + 1] == outcomes[..i] + [o] && o in outcomes;
      ObservedStep(outcomes[..i], o);
      seen := seen[o.item.query := seen[o.item.query] + {o.item.config}];
    }
    assert outcomes[..|outcomes|] == outcomes;
    groups := 0;
    for i := 0 to |queries|
      invariant groups == CountIf(queries[..i], Complete(outcomes, configs))
    {
      CountIfStep(queries, i, Complete(outcomes, configs));
      if seen[queries[i]] == ToSet(configs) { groups := groups + 1; }
    }
    assert queries[..|queries|] == queries;
    if Distinct(queries) && forall o | o in outcomes :: o.item.config in configs {
      GroupsAreQueries(outcomes, configs, queries);
    }
  }

  /** The queries that every configuration has an outcome for. */
  ghost function CompleteQueries(outcomes: seq<DurableOutcome>, configs: seq<ConfigId>,
                                 queries: seq<QueryId>): set<QueryId> {
    set q | q in queries && forall c | c in configs :: exists o :: o in outcomes && o.item == Item(c, q)
  }

  lemma GroupsAreQueries(outcomes: seq<DurableOutcome>, configs: seq<ConfigId>, queries: seq<QueryId>)
    requires Distinct(queries) && forall o | o in outcomes :: o.item.config in configs
    ensures CountIf(queries, Complete(outcomes, configs)) == |CompleteQueries(outcomes, configs, queries)|
  {
    hide Distinct;
    CountIfCard(queries, Complete(outcomes, configs));
    forall q | q in queries
      ensures Complete(outcomes, configs)(q) <==> q in CompleteQueries(outcomes, configs, queries)
    {
      if Complete(outcomes, configs)(q) {
        forall c | c in configs ensures exists o :: o in outcomes && o.item == Item(c, q) {
          assert c in Observed(outcomes, q);
        }
      }
      if q in CompleteQueries(outcomes, configs, queries) {
        forall c | c in configs ensures c in Observed(outcomes, q) {
          var o :| o in outcomes && o.item == Item(c, q);
        }
        assert Observed(outcomes, q) == ToSet(configs);
      }
    }
    assert Matching(queries, Complete(outcomes, configs)) == CompleteQueries(outcomes, configs, queries);
  }

  lemma ObservedStep(outcomes: seq<DurableOutcome>, o: DurableOutcome)
    ensures forall q :: Observed(outcomes + [o], q)
                        == Observed(outcomes, q) + if q == o.item.query then {o.item.config} else {}
  {
  }

  lemma {:induction false} CountIsAll<T>(s: seq<T>, p: T -> bool)
    ensures CountIf(s, p) == |s| <==> forall x | x in s :: p(x)
  {
    CountIfBounds(s, p);
    if s != [] {
      CountIsAll(s[1..], p);
      CountIfBounds(s[1..], p);
      assert s[0] in s;
      assert forall x | x in s :: x == s[0] || x in s[1..];
    }
  }

  /** All groups are complete exactly when the scoped outcomes are the full product, that is when there are
      as many outcomes as pairs. */
  lemma GroupsCompleteMeansProduct(outcomes: seq<DurableOutcome>, run: RunId, configs: seq<ConfigId>,
                                   queries: seq<QueryId>)
    requires configs != [] && Distinct(configs) && Distinct(queries) && InScope(outcomes, run, configs, queries)
    ensures CountIf(queries, Complete(outcomes, configs)) == |queries| <==> Covers(outcomes, run, configs, queries)
    ensures Covers(outcomes, run, configs, queries) <==> |outcomes| == |queries| * |configs|
  {
    CountIsAll(queries, Complete(outcomes, configs));
    WithinProduct(outcomes, run, configs, queries);
    WorkItemsCoverProduct(queries, configs);
    DistinctCard(WorkItems(queries, configs));
    DistinctCard(Identities(outcomes));
    SubsetCard(ToSet(Identities(outcomes)), Product(configs, queries));
    if Covers(outcomes, run, configs, queries) {
      forall q | q in queries
        ensures Complete(outcomes, configs)(q)
      {
        CoveredGroup(outcomes, run, configs, queries, q);
      }
    }
    if forall q | q in queries :: Complete(outcomes, configs)(q) {
      forall item | item in Product(configs, queries) ensures item in ToSet(Identities(outcomes)) {
        assert Complete(outcomes, configs)(item.query) && item.config in ToSet(configs);
        var o :| o in outcomes && o.item.query == item.query && o.item.config == item.config;
        IdentityOf(outcomes, o);
      }
      assert ToSet(Identities(outcomes)) == Product(configs, queries);
    }
  }

  lemma WithinProduct(outcomes: seq<DurableOutcome>, run: RunId, configs: seq<ConfigId>, queries: seq<QueryId>)
    requires InScope(outcomes, run, configs, queries)
    ensures ToSet(Identities(outcomes)) <= Product(configs, queries)
  {
    forall item | item in Identities(outcomes) ensures item in Product(configs, queries) {
      var i :| 0 <= i < |outcomes| && Identities(outcomes)[i] == item;
      assert outcomes[i] in outcomes;
    }
  }

  lemma CoveredGroup(outcomes: seq<DurableOutcome>, run: RunId, configs: seq<ConfigId>, queries: seq<QueryId>,
                     q: QueryId)
    requires InScope(outcomes, run, configs, queries) && Covers(outcomes, run, configs, queries) && q in queries
    ensures Observed(outcomes, q) == ToSet(configs)
  {
    forall c | c in configs ensures c in Observed(outcomes, q) {
      assert Item(c, q) in Product(configs, queries);
      var i :| 0 <= i < |outcomes| && Identities(outcomes)[i] == Item(c, q);
      assert outcomes[i] in outcomes;
    }
  }
}
