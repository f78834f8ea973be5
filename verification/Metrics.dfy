/** Per-query ranking metrics over exact reals: NDCG, recall and reciprocal rank. */
module Metrics {
  import opened Collections

  type Doc = nat

  datatype Judgment = Judgment(doc: Doc, grade: nat)

  datatype Warning = DuplicateQrel | NoPositiveQrels | DuplicateRetrieved

  datatype Conflict = Conflict(doc: Doc, prior: nat, grade: nat)

  /** Judged documents in first-seen order, and their grades. */
  datatype Grades = Grades(order: seq<Doc>, of: map<Doc, nat>)

  datatype QueryMetrics = QueryMetrics(ndcg: Option<real>, recall: Option<real>, mrr: Option<real>,
      warnings: seq<Warning>)

  datatype Cutoffs = Cutoffs(ndcg: nat, recall: nat, mrr: nat)

  // ----- Gain and discount

  function Pow2(n: nat): (r: real)
    ensures r >= 1.0
  {
    if n == 0 then 1.0 else 2.0 * Pow2(n - 1)
  }

  function Gain(grade: nat, maximum: nat): real {
    (Pow2(grade) - 1.0) / Pow2(maximum)
  }

  /** These laws leave no other function than the powers of two. */
  lemma {:induction false} Pow2Laws(a: nat, b: nat)
    ensures Pow2(a + b) == Pow2(a) * Pow2(b) && Pow2(1) == 2.0
  {
    if a > 0 {
      Pow2Laws(a - 1, b);
      assert Pow2(a + b) == 2.0 * Pow2(a - 1 + b);
    }
  }

  /** Gain is two to the grade, less one, as a share of two to the maximum. */
  lemma GainMeans(grade: nat, maximum: nat)
    ensures Gain(grade, maximum) * Pow2(maximum) == Pow2(grade) - 1.0
  {
  }

  lemma {:induction false} Pow2Increases(a: nat, b: nat)
    requires a < b
    ensures Pow2(a) < Pow2(b)
  {
    if a < b - 1 {
      Pow2Increases(a, b - 1);
    }
  }

  lemma QuotientIncreases(x: real, y: real, m: real)
    requires x < y && m > 0.0
    ensures x / m < y / m
  {
    var a, b := x / m, y / m;
    assert (b - a) * m == y - x;
  }

  /** Gain is zero for grade zero and strictly increasing. */
  lemma GainIncreases(a: nat, b: nat, maximum: nat)
    ensures Gain(0, maximum) == 0.0
    ensures a < b ==> Gain(a, maximum) < Gain(b, maximum)
    ensures Gain(a, maximum) >= 0.0
    ensures Gain(a, maximum) == Gain(b, maximum) ==> a == b
  {
    if a < b {
      Pow2Increases(a, b);
      QuotientIncreases(Pow2(a) - 1.0, Pow2(b) - 1.0, Pow2(maximum));
    }
    if b < a {
      Pow2Increases(b, a);
      QuotientIncreases(Pow2(b) - 1.0, Pow2(a) - 1.0, Pow2(maximum));
    }
    if 0 < a {
      Pow2Increases(0, a);
      QuotientIncreases(0.0, Pow2(a) - 1.0, Pow2(maximum));
    }
  }

  /** The logarithmic discount matters only through being positive and strictly decreasing in the rank. */
  ghost predicate ValidDiscount(discount: nat -> real) {
    && (forall rank: nat :: discount(rank) > 0.0)
    && (forall rank: nat, later: nat | rank < later :: discount(later) < discount(rank))
  }

  // ----- Specification

  predicate ValidGrades(grades: Grades) {
    Distinct(grades.order) && ToSet(grades.order) == grades.of.Keys
  }

  function GradeOf(grades: Grades, doc: Doc): nat {
    if doc in grades.of then grades.of[doc] else 0
  }

  /** A document is credited at its first occurrence only. */
  function Credit(ranked: seq<Doc>, grades: Grades, i: nat): nat
    requires i < |ranked|
  {
    if ranked[i] in ranked[..i] then 0 else GradeOf(grades, ranked[i])
  }

  function Credited(ranked: seq<Doc>, grades: Grades): seq<nat> {
    seq(|ranked|, i requires 0 <= i < |ranked| => Credit(ranked, grades, i))
  }

  function Positives(grades: Grades, docs: seq<Doc>): seq<nat> {
    if docs == [] then []
    else (if GradeOf(grades, docs[0]) > 0 then [GradeOf(grades, docs[0])] else []) + Positives(grades, docs[1..])
  }

  predicate GradeGe(a: nat, b: nat) {
    a >= b
  }

  function Ideal(grades: Grades): seq<nat> {
    Sort(Positives(grades, grades.order), GradeGe)
  }

  function Padded(gs: seq<nat>, i: nat): nat {
    if i < |gs| then gs[i] else 0
  }

  /** Discounted gain of the first `n` ranks; missing ranks contribute nothing. */
  function Dcg(gs: seq<nat>, n: nat, maximum: nat, discount: nat -> real): real {
    if n == 0 then 0.0 else Dcg(gs, n - 1, maximum, discount) + Discounted(Padded(gs, n - 1), n, maximum, discount)
  }

  function Discounted(grade: nat, rank: nat, maximum: nat, discount: nat -> real): real {
    Gain(grade, maximum) * discount(rank)
  }

  function PrefixGain(gs: seq<nat>, n: nat, f: nat -> real): real {
    if n == 0 then 0.0 else PrefixGain(gs, n - 1, f) + f(Padded(gs, n - 1))
  }

  /** The ranks from one to `n`. */
  function Ranks(n: nat): seq<nat> {
    seq(n, i requires 0 <= i < n => i + 1)
  }

  /** What the grade at a rank adds, before any division. */
  function RankGain(gs: seq<nat>, discount: nat -> real): nat -> real {
    (rank: nat) => if 1 <= rank <= |gs| then (Pow2(gs[rank - 1]) - 1.0) * discount(rank) else 0.0
  }

  /** The discounted gain is the sum over the ranks of two to the grade less one, discounted, as a share of
      two to the maximum. */
  lemma {:induction false} DcgMeans(gs: seq<nat>, n: nat, maximum: nat, discount: nat -> real)
    ensures Scaled(Dcg(gs, n, maximum, discount), Pow2(maximum), RealSum(Ranks(n), RankGain(gs, discount)))
  {
    hide Scaled, Pow2;
    NothingScaled(Pow2(maximum));
    if n > 0 {
      hide Dcg, Gain, RankGain, Discounted;
      DcgMeans(gs, n - 1, maximum, discount);
      var added := Discounted(Padded(gs, n - 1), n, maximum, discount);
      assert Ranks(n) == Ranks(n - 1) + [n];
      RealSumAppend(Ranks(n - 1), [n], RankGain(gs, discount));
      OneTerm(n, RankGain(gs, discount));
      hide RealSum, Ranks, Padded;
      DiscountedMeans(gs, n, maximum, discount);
      DcgStep(gs, n, maximum, discount);
      SumScaled(Dcg(gs, n - 1, maximum, discount), added, Pow2(maximum), RealSum(Ranks(n - 1), RankGain(gs, discount)),
                RankGain(gs, discount)(n));
    } else {
      assert Ranks(0) == [];
    }
  }

  lemma OneTerm(x: nat, f: nat -> real)
    ensures RealSum([x], f) == f(x)
  {
  }

  lemma DcgStep(gs: seq<nat>, n: nat, maximum: nat, discount: nat -> real)
    requires n > 0
    ensures Dcg(gs, n, maximum, discount)
            == Dcg(gs, n - 1, maximum, discount) + Discounted(Padded(gs, n - 1), n, maximum, discount)
  {
  }

  lemma DiscountedMeans(gs: seq<nat>, n: nat, maximum: nat, discount: nat -> real)
    requires n > 0
    ensures Scaled(Discounted(Padded(gs, n - 1), n, maximum, discount), Pow2(maximum), RankGain(gs, discount)(n))
  {
    hide Gain, Pow2;
    var g := Padded(gs, n - 1);
    GainMeans(g, maximum);
    GainMeans(0, maximum);
    GainIncreases(0, 0, maximum);
    Exchange(Gain(g, maximum), discount(n), Pow2(maximum));
    Exchange(0.0, discount(n), Pow2(maximum));
    RankGainMeans(gs, n, discount);
  }

  lemma Exchange(gain: real, discount: real, scale: real)
    ensures gain * discount * scale == (gain * scale) * discount
  {
  }

  lemma RankGainMeans(gs: seq<nat>, rank: nat, discount: nat -> real)
    requires rank > 0
    ensures RankGain(gs, discount)(rank) == (Pow2(Padded(gs, rank - 1)) - 1.0) * discount(rank)
  {
    assert Pow2(0) == 1.0;
  }

  predicate Scaled(x: real, scale: real, product: real) {
    x * scale == product
  }

  lemma NothingScaled(scale: real)
    ensures Scaled(0.0, scale, 0.0)
  {
  }

  lemma SumScaled(x: real, y: real, scale: real, a: real, b: real)
    requires Scaled(x, scale, a) && Scaled(y, scale, b)
    ensures Scaled(x + y, scale, a + b)
  {
  }

  // ----- The ideal order dominates every credited prefix

  function SeenValue(ranked: seq<Doc>, grades: Grades, f: nat -> real): Doc -> real {
    (doc: Doc) => if doc in ranked then f(GradeOf(grades, doc)) else 0.0
  }

  lemma SeenStep(ranked: seq<Doc>, grades: Grades, f: nat -> real, k: nat)
    requires ValidGrades(grades) && f(0) == 0.0 && k < |ranked|
    ensures RealSum(grades.order, SeenValue(ranked[..k + 1], grades, f))
            == RealSum(grades.order, SeenValue(ranked[..k], grades, f)) + f(Credit(ranked, grades, k))
  {
    var x := ranked[k];
    var before, after := SeenValue(ranked[..k], grades, f), SeenValue(ranked[..k + 1], grades, f);
    assert ranked[..k + 1] == ranked[..k] + [x];
    if x in grades.order {
      assert x in ToSet(grades.order);
      RealSumDiffers(grades.order, before, after, x);
    } else {
      assert x !in ToSet(grades.order);
      RealSumMonotone(grades.order, before, after);
    }
  }

  /** The credited values of a prefix are those of the distinct judged documents it contains. */
  lemma {:induction false} CreditedIsSeen(ranked: seq<Doc>, grades: Grades, f: nat -> real, k: nat)
    requires ValidGrades(grades) && f(0) == 0.0
    ensures PrefixGain(Credited(ranked, grades), k, f)
            == RealSum(grades.order, SeenValue(ranked[..if k <= |ranked| then k else |ranked|], grades, f))
  {
    if k == 0 {
      RealSumMonotone(grades.order, SeenValue([], grades, f), _ => 0.0);
      ZeroRealSum(grades.order);
      assert ranked[..0] == [];
    } else {
      CreditedIsSeen(ranked, grades, f, k - 1);
      if k <= |ranked| { SeenStep(ranked, grades, f, k - 1); }
    }
  }

  lemma {:induction false} ZeroRealSum<T>(s: seq<T>)
    ensures RealSum(s, _ => 0.0) == 0.0
  {
    if s != [] { ZeroRealSum(s[1..]); }
  }

  lemma {:induction false} PositivesSum(grades: Grades, docs: seq<Doc>, f: nat -> real)
    requires f(0) == 0.0
    ensures RealSum(Positives(grades, docs), f) == RealSum(docs, doc => f(GradeOf(grades, doc)))
  {
    if docs != [] {
      PositivesSum(grades, docs[1..], f);
      var head := if GradeOf(grades, docs[0]) > 0 then [GradeOf(grades, docs[0])] else [];
      RealSumAppend(head, Positives(grades, docs[1..]), f);
      assert RealSum(head, f) == f(GradeOf(grades, docs[0]));
    }
  }

  lemma IdealFacts(grades: Grades)
    requires ValidGrades(grades)
    ensures var ideal := Ideal(grades);
            && SortedBy(ideal, GradeGe)
            && (forall g | g in ideal :: g > 0)
            && (ideal != [] <==> exists doc :: doc in grades.of && grades.of[doc] > 0)
  {
    hide Positives, Sort, GradeGe;
    GradeLaws();
    SortSorted(Positives(grades, grades.order), GradeGe);
    PermutationMembers(Positives(grades, grades.order), Ideal(grades));
    PositivesMembers(grades, grades.order);
    var ideal := Ideal(grades);
    assert |ideal| > 0 ==> ideal[0] in ideal;
    forall doc | doc in grades.of && grades.of[doc] > 0 ensures GradeOf(grades, doc) in ideal {
      assert doc in ToSet(grades.order);
    }
    forall doc | doc in grades.order ensures doc in grades.of {
      assert doc in ToSet(grades.order);
    }
  }

  /** Every positive grade occurs as often as documents carry it, highest first. */
  ghost predicate IsIdeal(ideal: seq<nat>, grades: Grades) {
    && (forall i, j | 0 <= i < j < |ideal| :: ideal[i] >= ideal[j])
    && (forall g: nat | g > 0 :: multiset(ideal)[g] == |CarryGrade(grades, g)|)
    && 0 !in ideal
  }

  ghost function CarryGrade(grades: Grades, g: nat): set<Doc> {
    set doc | doc in grades.of && grades.of[doc] == g
  }

  lemma {:induction false} PositivesCount(grades: Grades, docs: seq<Doc>, g: nat)
    requires g > 0
    ensures multiset(Positives(grades, docs))[g] == CountIf(docs, Carries(grades, g))
  {
    if docs != [] {
      PositivesCount(grades, docs[1..], g);
      assert docs == [docs[0]] + docs[1..];
    }
  }

  function Carries(grades: Grades, g: nat): Doc -> bool {
    (doc: Doc) => GradeOf(grades, doc) == g
  }

  lemma IdealMeans(grades: Grades)
    requires ValidGrades(grades)
    ensures IsIdeal(Ideal(grades), grades)
  {
    IdealFacts(grades);
    forall g: nat | g > 0 ensures multiset(Ideal(grades))[g] == |CarryGrade(grades, g)| {
      PositivesCount(grades, grades.order, g);
      CountIfCard(grades.order, Carries(grades, g));
      forall doc: Doc ensures doc in grades.order <==> doc in grades.of {
        assert doc in grades.order <==> doc in ToSet(grades.order);
      }
      assert Matching(grades.order, Carries(grades, g)) == CarryGrade(grades, g);
    }
    forall i, j | 0 <= i < j < |Ideal(grades)| ensures Ideal(grades)[i] >= Ideal(grades)[j] {
      assert GradeGe(Ideal(grades)[i], Ideal(grades)[j]);
    }
  }

  /** Each retrieved document has its own grade at its first place, and nothing is left for a repeat. */
  ghost predicate IsCredited(credited: seq<nat>, ranked: seq<Doc>, grades: Grades) {
    && |credited| == |ranked|
    && forall i | 0 <= i < |ranked| ::
         credited[i] == if ranked[i] in grades.of && forall k | 0 <= k < i :: ranked[k] != ranked[i]
                        then grades.of[ranked[i]] else 0
  }

  lemma CreditedMeans(ranked: seq<Doc>, grades: Grades)
    ensures IsCredited(Credited(ranked, grades), ranked, grades)
  {
  }

  lemma GradeLaws()
    ensures Total(GradeGe) && Transitive(GradeGe)
  {
  }

  lemma {:induction false} PositivesMembers(grades: Grades, docs: seq<Doc>)
    ensures forall g | g in Positives(grades, docs) :: g > 0 && exists doc :: doc in docs && GradeOf(grades, doc) == g
    ensures forall doc | doc in docs && GradeOf(grades, doc) > 0 :: GradeOf(grades, doc) in Positives(grades, docs)
  {
    if docs != [] {
      PositivesMembers(grades, docs[1..]);
      forall g | g in Positives(grades, docs) ensures g > 0 && exists doc :: doc in docs && GradeOf(grades, doc) == g {
        if g in Positives(grades, docs[1..]) {
          var doc :| doc in docs[1..] && GradeOf(grades, doc) == g;
          assert doc in docs;
        } else {
          assert docs[0] in docs;
        }
      }
      forall doc | doc in docs && GradeOf(grades, doc) > 0 ensures GradeOf(grades, doc) in Positives(grades, docs) {
        if doc != docs[0] { assert doc in docs[1..]; }
      }
    }
  }

  /** Gain in excess of a threshold, never negative. */
  function Excess(threshold: nat, maximum: nat): nat -> real {
    (g: nat) => if g > threshold then Gain(g, maximum) - Gain(threshold, maximum) else 0.0
  }

  lemma ExcessNonNegative(threshold: nat, maximum: nat, g: nat)
    ensures Excess(threshold, maximum)(g) >= 0.0
    ensures Excess(threshold, maximum)(g) >= Gain(g, maximum) - Gain(threshold, maximum)
    ensures g >= threshold ==> Excess(threshold, maximum)(g) == Gain(g, maximum) - Gain(threshold, maximum)
  {
    GainIncreases(threshold, g, maximum);
    GainIncreases(g, threshold, maximum);
  }

  /** All excess of the judged documents bounds the excess of any credited prefix. */
  lemma PrefixWithinAll(ranked: seq<Doc>, grades: Grades, threshold: nat, maximum: nat, k: nat)
    requires ValidGrades(grades)
    ensures PrefixGain(Credited(ranked, grades), k, Excess(threshold, maximum))
              <= RealSum(Ideal(grades), Excess(threshold, maximum))
  {
    var f := Excess(threshold, maximum);
    var prefix := ranked[..if k <= |ranked| then k else |ranked|];
    CreditedIsSeen(ranked, grades, f, k);
    forall doc | doc in grades.order ensures SeenValue(prefix, grades, f)(doc) <= f(GradeOf(grades, doc)) {
      ExcessNonNegative(threshold, maximum, GradeOf(grades, doc));
    }
    RealSumMonotone(grades.order, SeenValue(prefix, grades, f), doc => f(GradeOf(grades, doc)));
    PositivesSum(grades, grades.order, f);
    RealSumPermutation(Positives(grades, grades.order), Ideal(grades), f);
  }

  function GainOf(maximum: nat): nat -> real {
    (g: nat) => Gain(g, maximum)
  }

  /** A product, named so that proofs can treat it as a value. */
  function Times(x: real, y: real): real {
    x * y
  }

  lemma TimesStep(k: nat, x: real)
    requires k > 0
    ensures Times(k as real, x) == Times((k - 1) as real, x) + x
  {
    assert (k - 1) as real == k as real - 1.0;
  }

  lemma {:induction false} ExcessShift(gs: seq<nat>, k: nat, threshold: nat, maximum: nat)
    ensures PrefixGain(gs, k, Excess(threshold, maximum)) >= PrefixGain(gs, k, GainOf(maximum)) - Times(k as real,
              Gain(threshold, maximum))
    ensures (forall i: nat | i < k :: Padded(gs, i) >= threshold) ==>
      PrefixGain(gs, k, Excess(threshold, maximum))
          == PrefixGain(gs, k, GainOf(maximum)) - Times(k as real, Gain(threshold, maximum))
  {
    if k > 0 {
      ExcessShift(gs, k - 1, threshold, maximum);
      ExcessNonNegative(threshold, maximum, Padded(gs, k - 1));
      TimesStep(k, Gain(threshold, maximum));
      hide Times, Gain, Excess;
    }
  }

  /** Beyond a prefix that holds every element above the threshold there is no excess. */
  lemma {:induction false} PrefixIsAll(gs: seq<nat>, k: nat, threshold: nat, maximum: nat)
    requires forall i | k <= i < |gs| :: gs[i] <= threshold
    ensures PrefixGain(gs, k, Excess(threshold, maximum)) == RealSum(gs, Excess(threshold, maximum))
  {
    var f := Excess(threshold, maximum);
    var n := if k <= |gs| then k else |gs|;
    PrefixTake(gs, n, f);
    assert gs == gs[..n] + gs[n..];
    RealSumAppend(gs[..n], gs[n..], f);
    RealSumMonotone(gs[n..], f, _ => 0.0);
    ZeroRealSum(gs[n..]);
    PrefixBeyond(gs, k, f);
  }

  lemma {:induction false} PrefixTake(gs: seq<nat>, n: nat, f: nat -> real)
    requires n <= |gs|
    ensures PrefixGain(gs, n, f) == RealSum(gs[..n], f)
  {
    if n > 0 {
      PrefixTake(gs, n - 1, f);
      assert gs[..n] == gs[..n - 1] + [gs[n - 1]];
      RealSumAppend(gs[..n - 1], [gs[n - 1]], f);
      assert RealSum([gs[n - 1]], f) == f(gs[n - 1]);
    }
  }

  lemma {:induction false} PrefixBeyond(gs: seq<nat>, k: nat, f: nat -> real)
    requires f(0) == 0.0
    ensures k >= |gs| ==> PrefixGain(gs, k, f) == PrefixGain(gs, |gs|, f)
    decreases k
  {
    if k > |gs| { PrefixBeyond(gs, k - 1, f); }
  }

  /** At every cutoff, the ideal order collects at least as much undiscounted gain. */
  lemma IdealDominates(ranked: seq<Doc>, grades: Grades, maximum: nat, k: nat)
    requires ValidGrades(grades)
    ensures PrefixGain(Credited(ranked, grades), k, GainOf(maximum)) <= PrefixGain(Ideal(grades), k, GainOf(maximum))
  {
    var ideal := Ideal(grades);
    var threshold := if k == 0 then 0 else Padded(ideal, k - 1);
    if k > 0 {
      IdealFacts(grades);
      PrefixWithinAll(ranked, grades, threshold, maximum, k);
      assert forall i | k <= i < |ideal| :: GradeGe(ideal[k - 1], ideal[i]);
      PrefixIsAll(ideal, k, threshold, maximum);
      forall i: nat | i < k ensures Padded(ideal, i) >= threshold {
        if i < k - 1 < |ideal| { assert GradeGe(ideal[i], ideal[k - 1]); }
      }
      ExcessShift(ideal, k, threshold, maximum);
      ExcessShift(Credited(ranked, grades), k, threshold, maximum);
    }
  }

  // ----- Summation by parts

  function Lead(a: seq<nat>, b: seq<nat>, n: nat, maximum: nat): real {
    PrefixGain(b, n, GainOf(maximum)) - PrefixGain(a, n, GainOf(maximum))
  }

  function Behind(a: seq<nat>, b: seq<nat>, n: nat, maximum: nat, discount: nat -> real): real {
    Dcg(b, n, maximum, discount) - Dcg(a, n, maximum, discount)
  }

  /** A dominated order has no more discounted gain, by at least the last discount times the last lead. */
  lemma {:induction false} DiscountedLead(a: seq<nat>, b: seq<nat>, n: nat, maximum: nat, discount: nat -> real)
    requires ValidDiscount(discount) && forall k: nat | k <= n :: Lead(a, b, k, maximum) >= 0.0
    ensures Behind(a, b, n, maximum, discount) >= Times(Lead(a, b, n, maximum), discount(n))
    ensures Behind(a, b, n, maximum, discount) == Times(Lead(a, b, n, maximum), discount(n)) ==>
      forall k: nat | k < n :: Lead(a, b, k, maximum) == 0.0
  {
    if n > 0 {
      DiscountedLead(a, b, n - 1, maximum, discount);
      var gain := Gain(Padded(b, n - 1), maximum) - Gain(Padded(a, n - 1), maximum);
      LeadStep(a, b, n, maximum, discount, gain);
      ByParts(Behind(a, b, n - 1, maximum, discount), Lead(a, b, n - 1, maximum), gain, discount(n - 1), discount(n));
      hide Times, Behind, Lead;
    }
  }

  lemma LeadStep(a: seq<nat>, b: seq<nat>, n: nat, maximum: nat, discount: nat -> real, gain: real)
    requires n > 0 && gain == Gain(Padded(b, n - 1), maximum) - Gain(Padded(a, n - 1), maximum)
    ensures Lead(a, b, n, maximum) == Lead(a, b, n - 1, maximum) + gain
    ensures Behind(a, b, n, maximum, discount) == Behind(a, b, n - 1, maximum, discount) + Times(gain, discount(n))
  {
  }

  /** One step of the summation by parts. */
  lemma ByParts(sum: real, lead: real, gain: real, discount: real, later: real)
    requires sum >= Times(lead, discount) && lead >= 0.0 && later < discount
    ensures sum + Times(gain, later) >= Times(lead + gain, later)
    ensures sum + Times(gain, later) == Times(lead + gain, later) ==> sum == Times(lead, discount) && lead == 0.0
  {
    var step := discount - later;
    assert lead * discount == lead * step + lead * later;
    assert (lead + gain) * later == lead * later + gain * later;
    PositiveProduct(lead, step);
  }

  lemma {:induction false} EqualPrefixes(a: seq<nat>, b: seq<nat>, n: nat, maximum: nat, discount: nat -> real)
    requires forall k: nat | k < n :: Padded(a, k) == Padded(b, k)
    ensures Dcg(a, n, maximum, discount) == Dcg(b, n, maximum, discount)
  {
    if n > 0 { EqualPrefixes(a, b, n - 1, maximum, discount); }
  }

  lemma {:induction false} DcgNonNegative(gs: seq<nat>, n: nat, maximum: nat, discount: nat -> real)
    requires ValidDiscount(discount)
    ensures 0.0 <= Dcg(gs, n, maximum, discount)
    ensures n > 0 && Padded(gs, 0) > 0 ==> 0.0 < Dcg(gs, n, maximum, discount)
  {
    if n > 0 {
      DcgNonNegative(gs, n - 1, maximum, discount);
      GainIncreases(Padded(gs, n - 1), 0, maximum);
      GainIncreases(0, Padded(gs, n - 1), maximum);
    }
  }

  predicate Judged(grades: Grades) {
    exists doc :: doc in grades.of && grades.of[doc] > 0
  }

  /** The credited grades of the first `n` ranks are the ideal grades padded with zeros. */
  ghost predicate IdealOrder(ranked: seq<Doc>, grades: Grades, n: nat) {
    forall k: nat | k < n :: Padded(Credited(ranked, grades), k) == Padded(Ideal(grades), k)
  }

  /** DCG lies between zero and the ideal DCG, which is positive, and reaches it exactly for the ideal order. */
  lemma NdcgBound(ranked: seq<Doc>, grades: Grades, n: nat, maximum: nat, discount: nat -> real)
    requires ValidGrades(grades) && Judged(grades) && n > 0 && ValidDiscount(discount)
    ensures var dcg := Dcg(Credited(ranked, grades), n, maximum, discount);
            var ideal := Dcg(Ideal(grades), n, maximum, discount);
            && 0.0 <= dcg <= ideal && 0.0 < ideal
            && (dcg == ideal <==> IdealOrder(ranked, grades, n))
  {
    var a, b := Credited(ranked, grades), Ideal(grades);
    IdealFacts(grades);
    DcgNonNegative(a, n, maximum, discount);
    DcgNonNegative(b, n, maximum, discount);
    assert b[0] in b;
    DcgDominated(ranked, grades, n, maximum, discount);
    hide Dcg, ValidDiscount, Credited, Ideal;
    if IdealOrder(ranked, grades, n) { EqualPrefixes(a, b, n, maximum, discount); }
  }

  lemma DcgDominated(ranked: seq<Doc>, grades: Grades, n: nat, maximum: nat, discount: nat -> real)
    requires ValidGrades(grades) && ValidDiscount(discount)
    ensures Dcg(Credited(ranked, grades), n, maximum, discount) <= Dcg(Ideal(grades), n, maximum, discount)
    ensures Dcg(Credited(ranked, grades), n, maximum, discount) == Dcg(Ideal(grades), n, maximum, discount) ==>
      IdealOrder(ranked, grades, n)
  {
    hide Dcg, Credited, Ideal, Distinct, Sort;
    var a, b := Credited(ranked, grades), Ideal(grades);
    forall k: nat | k <= n ensures Lead(a, b, k, maximum) >= 0.0 { IdealDominates(ranked, grades, maximum, k); }
    DiscountedLead(a, b, n, maximum, discount);
    PositiveProduct(Lead(a, b, n, maximum), discount(n));
    if Dcg(a, n, maximum, discount) == Dcg(b, n, maximum, discount) {
      NoLeadMeansEqual(a, b, n, maximum, discount);
    }
  }

  lemma PositiveProduct(x: real, y: real)
    requires x >= 0.0 && y > 0.0
    ensures x == 0.0 || x * y > 0.0
  {
  }

  lemma NoLeadMeansEqual(a: seq<nat>, b: seq<nat>, n: nat, maximum: nat, discount: nat -> real)
    requires ValidDiscount(discount) && forall k: nat | k <= n :: Lead(a, b, k, maximum) >= 0.0
    requires Dcg(a, n, maximum, discount) == Dcg(b, n, maximum, discount)
    ensures forall k: nat | k < n :: Padded(a, k) == Padded(b, k)
  {
    DiscountedLead(a, b, n, maximum, discount);
    var lead := Lead(a, b, n, maximum);
    PositiveProduct(lead, discount(n));
    forall k: nat | k < n ensures Padded(a, k) == Padded(b, k) {
      assert Lead(a, b, k, maximum) == 0.0 && Lead(a, b, k + 1, maximum) == 0.0;
      GainIncreases(Padded(a, k), Padded(b, k), maximum);
    }
  }

  // ----- Repeats never help

  function Shifted(s: seq<nat>, place: nat, i: nat): nat {
    if i < place then Padded(s, i) else if i == place then 0 else Padded(s, i - 1)
  }

  /** `later` is `s` with a zero inserted at `place`. */
  ghost predicate ZeroInserted(s: seq<nat>, later: seq<nat>, place: nat) {
    forall i: nat :: Padded(later, i) == Shifted(s, place, i)
  }

  lemma LaterDiscount(g: nat, n: nat, maximum: nat, discount: nat -> real)
    requires ValidDiscount(discount) && n > 0
    ensures Discounted(0, n, maximum, discount) == 0.0
    ensures 0.0 <= Discounted(g, n, maximum, discount) <= Discounted(g, n - 1, maximum, discount)
  {
    GainIncreases(g, 0, maximum);
  }

  /** An inserted zero pushes later grades to smaller discounts. */
  lemma {:induction false} InsertZero(s: seq<nat>, later: seq<nat>, place: nat, n: nat, maximum: nat,
                                      discount: nat -> real)
    requires ValidDiscount(discount) && ZeroInserted(s, later, place)
    ensures n <= place ==> Dcg(later, n, maximum, discount) == Dcg(s, n, maximum, discount)
    ensures n > place ==> Dcg(later, n, maximum, discount) <= Dcg(s, n - 1, maximum, discount)
    ensures Dcg(later, n, maximum, discount) <= Dcg(s, n, maximum, discount)
  {
    if n > 0 {
      InsertZero(s, later, place, n - 1, maximum, discount);
      LaterDiscount(Padded(s, n - 1), n, maximum, discount);
      hide Discounted, ValidDiscount;
      if n - 1 > place {
        LaterDiscount(Padded(s, n - 2), n, maximum, discount);
      }
    }
  }

  /** The ranking with a repeat of `ranked[i]` inserted at a later place `j`. */
  function WithRepeat(ranked: seq<Doc>, i: nat, j: nat): seq<Doc>
    requires i < j <= |ranked|
  {
    ranked[..j] + [ranked[i]] + ranked[j..]
  }

  lemma RepeatCredit(ranked: seq<Doc>, grades: Grades, i: nat, j: nat, k: nat)
    requires i < j <= |ranked| && k <= |ranked|
    ensures var repeated := WithRepeat(ranked, i, j);
            Credit(repeated, grades, k)
            == if k < j then Credit(ranked, grades, k) else if k == j then 0 else Credit(ranked, grades, k - 1)
  {
    var repeated := WithRepeat(ranked, i, j);
    if k <= j {
      assert repeated[..k] == ranked[..k];
      assert k == j ==> repeated[k] == ranked[..k][i];
    } else {
      assert repeated[..k] == ranked[..j] + [ranked[i]] + ranked[j..k - 1];
      assert ranked[..k - 1] == ranked[..j] + ranked[j..k - 1];
      assert ranked[i] == ranked[..j][i];
    }
  }

  lemma RepeatCredits(ranked: seq<Doc>, grades: Grades, i: nat, j: nat)
    requires i < j <= |ranked|
    ensures ZeroInserted(Credited(ranked, grades), Credited(WithRepeat(ranked, i, j), grades), j)
  {
    var c, r := Credited(ranked, grades), Credited(WithRepeat(ranked, i, j), grades);
    forall k: nat ensures Padded(r, k) == Shifted(c, j, k) {
      if k <= |ranked| { RepeatCredit(ranked, grades, i, j, k); }
    }
  }

  function RetrievedRelevant(ranked: seq<Doc>, grades: Grades, cutoff: nat): set<Doc> {
    set doc | doc in grades.of && grades.of[doc] > 0 && doc in ranked[..if cutoff <= |ranked| then cutoff else |ranked|]
  }

  function Relevant(grades: Grades): set<Doc> {
    set doc | doc in grades.of && grades.of[doc] > 0
  }

  /** One-based rank of the first relevant document within the cutoff, or zero. */
  function FirstRelevant(ranked: seq<Doc>, grades: Grades, cutoff: nat): nat {
    if ranked == [] || cutoff == 0 then 0
    else if GradeOf(grades, ranked[0]) > 0 then 1
    else
      var later := FirstRelevant(ranked[1..], grades, cutoff - 1);
      if later == 0 then 0 else later + 1
  }

  function Reciprocal(rank: nat): real {
    if rank == 0 then 0.0 else 1.0 / rank as real
  }

  lemma {:induction false} FirstRelevantMeans(ranked: seq<Doc>, grades: Grades, cutoff: nat)
    ensures var r := FirstRelevant(ranked, grades, cutoff);
            && r <= cutoff && r <= |ranked|
            && (r > 0 ==>
                  && GradeOf(grades, ranked[r - 1]) > 0
                  && forall k | 0 <= k < r - 1 :: GradeOf(grades, ranked[k]) == 0)
            && (r == 0 ==> forall k | 0 <= k < |ranked| && k < cutoff :: GradeOf(grades, ranked[k]) == 0)
  {
    if ranked != [] && cutoff > 0 && GradeOf(grades, ranked[0]) == 0 {
      FirstRelevantMeans(ranked[1..], grades, cutoff - 1);
      assert forall k | 1 <= k < |ranked| :: ranked[k] == ranked[1..][k - 1];
    }
  }

  lemma InverseDecreases(u: real, v: real, x: real, y: real)
    requires 0.0 < x < y && u * x == 1.0 && v * y == 1.0
    ensures 0.0 < v < u
  {
    assert v > 0.0;
    assert v * x < v * y;
    assert (u - v) * x > 0.0;
  }

  lemma ReciprocalDecreases(a: nat, b: nat)
    requires a > 0 && (b == 0 || b >= a)
    ensures Reciprocal(b) <= Reciprocal(a)
    ensures 0.0 <= Reciprocal(b) && Reciprocal(a) <= 1.0
  {
    if b > a {
      InverseDecreases(1.0 / a as real, 1.0 / b as real, a as real, b as real);
    }
  }

  lemma RepeatFirstRelevant(ranked: seq<Doc>, grades: Grades, i: nat, j: nat, cutoff: nat)
    requires i < j <= |ranked|
    ensures Reciprocal(FirstRelevant(WithRepeat(ranked, i, j), grades, cutoff))
              <= Reciprocal(FirstRelevant(ranked, grades, cutoff))
  {
    var repeated := WithRepeat(ranked, i, j);
    FirstRelevantMeans(ranked, grades, cutoff);
    FirstRelevantMeans(repeated, grades, cutoff);
    var before, after := FirstRelevant(ranked, grades, cutoff), FirstRelevant(repeated, grades, cutoff);
    if after > 0 {
      // The first relevant place of the longer ranking is not the inserted one.
      assert repeated[i] == ranked[i] == repeated[j];
      var place := if after - 1 < j then after - 1 else after - 2;
      assert ranked[place] == repeated[after - 1];
      assert 0 < before <= after;
      ReciprocalDecreases(before, after);
    }
  }

  /** Repeating a retrieved document later in the ranking never raises any of the three metrics. */
  lemma RepeatsNeverHelp(ranked: seq<Doc>, grades: Grades, i: nat, j: nat, cutoffs: Cutoffs, maximum: nat,
                         discount: nat -> real)
    requires ValidGrades(grades) && i < j <= |ranked| && ValidDiscount(discount)
    ensures var repeated := WithRepeat(ranked, i, j);
            && Dcg(Credited(repeated, grades), cutoffs.ndcg, maximum, discount)
                <= Dcg(Credited(ranked, grades), cutoffs.ndcg, maximum, discount)
            && |RetrievedRelevant(repeated, grades, cutoffs.recall)|
                <= |RetrievedRelevant(ranked, grades, cutoffs.recall)|
            && Reciprocal(FirstRelevant(repeated, grades, cutoffs.mrr))
                <= Reciprocal(FirstRelevant(ranked, grades, cutoffs.mrr))
  {
    var c, repeated := Credited(ranked, grades), WithRepeat(ranked, i, j);
    RepeatCredits(ranked, grades, i, j);
    InsertZero(c, Credited(repeated, grades), j, cutoffs.ndcg, maximum, discount);
    RepeatFirstRelevant(ranked, grades, i, j, cutoffs.mrr);
    RepeatRetrieves(ranked, grades, i, j, cutoffs.recall);
    SubsetCard(RetrievedRelevant(repeated, grades, cutoffs.recall), RetrievedRelevant(ranked, grades, cutoffs.recall));
  }

  lemma RepeatRetrieves(ranked: seq<Doc>, grades: Grades, i: nat, j: nat, cutoff: nat)
    requires i < j <= |ranked|
    ensures RetrievedRelevant(WithRepeat(ranked, i, j), grades, cutoff) <= RetrievedRelevant(ranked, grades, cutoff)
  {
    var repeated := WithRepeat(ranked, i, j);
    forall doc | doc in RetrievedRelevant(repeated, grades, cutoff)
      ensures doc in RetrievedRelevant(ranked, grades, cutoff)
    {
      var k :| 0 <= k < |repeated| && k < cutoff && repeated[k] == doc;
      var place := if k < j then k else if k == j then i else k - 1;
      assert ranked[place] == doc && place < cutoff;
      assert ranked[..if cutoff <= |ranked| then cutoff else |ranked|][place] == doc;
    }
  }

  // ----- The evaluation loops

  predicate Consistent(judgments: seq<Judgment>) {
    forall i, j | 0 <= i < |judgments| && 0 <= j < |judgments| && judgments[i].doc == judgments[j].doc ::
      judgments[i].grade == judgments[j].grade
  }

  function Docs(judgments: seq<Judgment>): seq<Doc> {
    seq(|judgments|, i requires 0 <= i < |judgments| => judgments[i].doc)
  }

  /** Documents judged more than once. */
  function Repeated(docs: seq<Doc>): set<Doc> {
    set j | 0 <= j < |docs| && docs[j] in docs[..j] :: docs[j]
  }

  /** What the normalisation has established about the judgments read so far. */
  ghost predicate Coalesced(judgments: seq<Judgment>, grades: Grades) {
    && ValidGrades(grades)
    && grades.of.Keys == ToSet(Docs(judgments))
    && (forall judgment | judgment in judgments ::
        judgment.doc in grades.of && grades.of[judgment.doc] == judgment.grade)
  }

  function Extend(grades: Grades, judgment: Judgment): Grades {
    Grades(if judgment.doc in grades.of then grades.order else grades.order + [judgment.doc],
           grades.of[judgment.doc := judgment.grade])
  }

  lemma CoalescedStep(judgments: seq<Judgment>, grades: Grades, judgment: Judgment)
    requires Coalesced(judgments, grades)
    requires judgment.doc in grades.of ==> grades.of[judgment.doc] == judgment.grade
    ensures Coalesced(judgments + [judgment], Extend(grades, judgment))
    ensures judgment.doc in grades.of <==> judgment.doc in Docs(judgments)
    ensures Docs(judgments + [judgment]) == Docs(judgments) + [judgment.doc]
  {
    assert Docs(judgments + [judgment]) == Docs(judgments) + [judgment.doc];
    assert ToSet(Docs(judgments + [judgment])) == ToSet(Docs(judgments)) + {judgment.doc};
    var extended := Extend(grades, judgment);
    if judgment.doc !in grades.of {
      assert judgment.doc !in ToSet(grades.order);
      assert ToSet(extended.order) == ToSet(grades.order) + {judgment.doc};
    }
  }

  lemma PriorJudgment(judgments: seq<Judgment>, grades: Grades, doc: Doc)
    requires Coalesced(judgments, grades) && doc in grades.of
    ensures Judgment(doc, grades.of[doc]) in judgments
  {
    assert doc in ToSet(Docs(judgments));
    var i :| 0 <= i < |judgments| && Docs(judgments)[i] == doc;
    assert judgments[i] in judgments;
  }

  lemma CoalescedConsistent(judgments: seq<Judgment>, grades: Grades)
    requires Coalesced(judgments, grades)
    ensures Consistent(judgments)
  {
    forall i, j | 0 <= i < |judgments| && 0 <= j < |judgments| && judgments[i].doc == judgments[j].doc
      ensures judgments[i].grade == judgments[j].grade
    {
      assert judgments[i] in judgments && judgments[j] in judgments;
    }
  }

  /** Coalesce identical judgments, with one warning per repeated document; refuse contradictory ones. */
  method NormalizeJudgments(judgments: seq<Judgment>) returns (r: Result<(Grades, seq<Warning>), Conflict>)
    ensures r.Ok? <==> Consistent(judgments)
    ensures r.Ok? ==>
      && Coalesced(judgments, r.value.0)
      && |r.value.1| == |Repeated(Docs(judgments))| && Repeated(Docs(judgments)) == JudgedAgain(judgments)
      && (forall w | w in r.value.1 :: w == DuplicateQrel)
    ensures r.Err? ==>
      && r.error.prior != r.error.grade
      && Judgment(r.error.doc, r.error.prior) in judgments && Judgment(r.error.doc, r.error.grade) in judgments
  {
    var grades := Grades([], map[]);
    var warnings: seq<Warning>, warned: set<Doc> := [], {};
    assert Docs([]) == [] && Coalesced([], grades) by { assert ToSet<Doc>([]) == {}; }
    for i := 0 to |judgments|
      invariant Progress(judgments[..i], grades, warnings, warned)
    {
      hide Progress;
      assert judgments[..i + 1] == judgments[..i] + [judgments[i]];
      var conflict;
      grades, warnings, warned, conflict := Coalesce(judgments[..i], grades, warnings, warned, judgments[i]);
      if conflict.Some? {
        Contradiction(judgments, Judgment(conflict.value.doc, conflict.value.prior), judgments[i]);
        return Err(conflict.value);
      }
    }
    assert judgments[..|judgments|] == judgments;
    RepeatedMeans(judgments);
    CoalescedConsistent(judgments, grades);
    return Ok((grades, warnings));
  }

  ghost predicate Progress(judgments: seq<Judgment>, grades: Grades, warnings: seq<Warning>, warned: set<Doc>) {
    && Coalesced(judgments, grades)
    && warned == Repeated(Docs(judgments)) && |warnings| == |warned|
    && (forall w | w in warnings :: w == DuplicateQrel)
  }

  /** One judgment: note it, coalesce it, or report the contradiction with an earlier one. */
  method Coalesce(ghost seen: seq<Judgment>, grades: Grades, warnings: seq<Warning>, warned: set<Doc>,
                  judgment: Judgment)
    returns (newGrades: Grades, newWarnings: seq<Warning>, newWarned: set<Doc>, conflict: Option<Conflict>)
    requires Progress(seen, grades, warnings, warned)
    ensures conflict.None? ==> Progress(seen + [judgment], newGrades, newWarnings, newWarned)
    ensures conflict.Some? ==>
      && conflict.value.doc == judgment.doc && conflict.value.prior != conflict.value.grade == judgment.grade
      && Judgment(judgment.doc, conflict.value.prior) in seen
  {
    newGrades, newWarnings, newWarned, conflict := grades, warnings, warned, None;
    hide Coalesced, Repeated, Docs;
    if judgment.doc in grades.of && grades.of[judgment.doc] != judgment.grade {
      PriorJudgment(seen, grades, judgment.doc);
      conflict := Some(Conflict(judgment.doc, grades.of[judgment.doc], judgment.grade));
      return;
    }
    CoalescedStep(seen, grades, judgment);
    RepeatedAppend(Docs(seen), judgment.doc);
    if judgment.doc in grades.of && judgment.doc !in warned {
      newWarnings := warnings + [DuplicateQrel];
      newWarned := warned + {judgment.doc};
    }
    newGrades := Extend(grades, judgment);
  }

  lemma Contradiction(judgments: seq<Judgment>, a: Judgment, b: Judgment)
    requires a in judgments && b in judgments && a.doc == b.doc && a.grade != b.grade
    ensures !Consistent(judgments)
  {
    var i :| 0 <= i < |judgments| && judgments[i] == a;
    var j :| 0 <= j < |judgments| && judgments[j] == b;
  }

  /** The documents that two different judgments name. */
  ghost function JudgedAgain(judgments: seq<Judgment>): set<Doc> {
    set i, j | 0 <= i < j < |judgments| && judgments[i].doc == judgments[j].doc :: judgments[j].doc
  }

  lemma RepeatedMeans(judgments: seq<Judgment>)
    ensures Repeated(Docs(judgments)) == JudgedAgain(judgments)
  {
    var docs := Docs(judgments);
    forall doc ensures doc in Repeated(docs) <==> doc in JudgedAgain(judgments) {
      if doc in Repeated(docs) {
        var j :| 0 <= j < |docs| && docs[j] in docs[..j] && docs[j] == doc;
        var i :| 0 <= i < j && docs[..j][i] == docs[j];
        assert judgments[i].doc == judgments[j].doc;
      }
      if doc in JudgedAgain(judgments) {
        var i, j :| 0 <= i < j < |judgments| && judgments[i].doc == judgments[j].doc && judgments[j].doc == doc;
        assert docs[..j][i] == docs[j];
      }
    }
  }

  lemma RepeatedAppend(docs: seq<Doc>, doc: Doc)
    ensures Repeated(docs + [doc]) == Repeated(docs) + if doc in docs then {doc} else {}
  {
    assert (docs + [doc])[..|docs|] == docs && (docs + [doc])[..|docs| + 1] == docs + [doc];
    RepeatedStep(docs + [doc], |docs|);
  }

  lemma RepeatedStep(docs: seq<Doc>, i: nat)
    requires i < |docs|
    ensures Repeated(docs[..i + 1]) == Repeated(docs[..i]) + if docs[i] in docs[..i] then {docs[i]} else {}
  {
    var shorter, longer := docs[..i], docs[..i + 1];
    forall j | 0 <= j < i ensures longer[..j] == shorter[..j] {}
    assert longer[..i] == shorter;
    forall doc
      ensures doc in Repeated(longer) <==> doc in Repeated(shorter) + if docs[i] in shorter then {docs[i]} else {}
    {
      if doc in Repeated(shorter) {
        var j :| 0 <= j < |shorter| && shorter[j] in shorter[..j] && shorter[j] == doc;
        assert longer[j] in longer[..j];
      }
      if doc in Repeated(longer) {
        var j :| 0 <= j < |longer| && longer[j] in longer[..j] && longer[j] == doc;
        if j < i { assert shorter[j] in shorter[..j]; }
      }
    }
  }

  predicate InUnit(x: real) {
    0.0 <= x <= 1.0
  }

  /** What the metric record itself demands of its values. */
  predicate ValidMetrics(m: QueryMetrics) {
    && (m.ndcg.None? <==> m.recall.None?) && (m.recall.None? <==> m.mrr.None?)
    && (m.ndcg.None? <==> NoPositiveQrels in m.warnings)
    && (m.ndcg.Some? ==> InUnit(m.ndcg.value) && InUnit(m.recall.value) && InUnit(m.mrr.value))
  }

  /** Largest positive grade. */
  method MaximumGrade(positives: seq<nat>) returns (maximum: nat)
    requires positives != []
    ensures maximum in positives && forall g | g in positives :: g <= maximum
  {
    maximum := positives[0];
    for i := 1 to |positives|
      invariant maximum in positives && forall k | 0 <= k < i :: positives[k] <= maximum
    {
      if positives[i] > maximum { maximum := positives[i]; }
    }
  }

  /** Give each retrieved document its grade, and a repeat of an earlier one nothing. */
  method CreditRanking(ranked: seq<Doc>, grades: Grades) returns (credited: seq<nat>, repeats: bool)
    ensures credited == Credited(ranked, grades) && IsCredited(credited, ranked, grades)
    ensures repeats <==> !Distinct(ranked)
  {
    var seen: set<Doc> := {};
    credited, repeats := [], false;
    for i := 0 to |ranked|
      invariant seen == ToSet(ranked[..i]) && |credited| == i
      invariant forall k | 0 <= k < i :: credited[k] == Credit(ranked, grades, k)
      invariant repeats <==> !Distinct(ranked[..i])
    {
      assert ranked[..i + 1] == ranked[..i] + [ranked[i]];
      if ranked[i] in seen {
        var k :| 0 <= k < i && ranked[k] == ranked[i];
        assert ranked[..i + 1][k] == ranked[..i + 1][i];
        credited, repeats := credited + [0], true;
      } else {
        seen := seen + {ranked[i]};
        credited := credited + [GradeOf(grades, ranked[i])];
        if repeats { NotDistinctExtends(ranked, i); }
      }
    }
    assert ranked[..|ranked|] == ranked;
    assert credited == Credited(ranked, grades);
    CreditedMeans(ranked, grades);
  }

  lemma NotDistinctExtends(ranked: seq<Doc>, i: nat)
    requires i < |ranked| && !Distinct(ranked[..i])
    ensures !Distinct(ranked[..i + 1])
  {
    var a, b :| 0 <= a < b < i && ranked[..i][a] == ranked[..i][b];
    assert ranked[..i + 1][a] == ranked[..i + 1][b];
  }

  /** Accumulate the discounted gain of the first `n` ranks, skipping grade zero. */
  method DiscountedGain(gs: seq<nat>, n: nat, maximum: nat, discount: nat -> real) returns (total: real)
    ensures total == Dcg(gs, n, maximum, discount)
  {
    total := 0.0;
    for i := 0 to n
      invariant total == Dcg(gs, i, maximum, discount)
    {
      if i >= |gs| {
        DcgBeyond(gs, i, n, maximum, discount);
        return;
      }
      if gs[i] > 0 { total := total + Gain(gs[i], maximum) * discount(i + 1); }
    }
  }

  lemma {:induction false} DcgBeyond(gs: seq<nat>, i: nat, n: nat, maximum: nat, discount: nat -> real)
    requires |gs| <= i <= n
    ensures Dcg(gs, n, maximum, discount) == Dcg(gs, i, maximum, discount)
  {
    if i < n { DcgBeyond(gs, i, n - 1, maximum, discount); }
  }

  method FindFirstRelevant(ranked: seq<Doc>, relevant: set<Doc>, cutoff: nat) returns (rank: nat)
    ensures rank <= cutoff && rank <= |ranked|
    ensures rank > 0 ==> ranked[rank - 1] in relevant && forall k | 0 <= k < rank - 1 :: ranked[k] !in relevant
    ensures rank == 0 ==> forall k | 0 <= k < |ranked| && k < cutoff :: ranked[k] !in relevant
  {
    rank := 0;
    while rank < cutoff && rank < |ranked|
      invariant rank <= cutoff && rank <= |ranked|
      invariant forall k | 0 <= k < rank :: ranked[k] !in relevant
    {
      rank := rank + 1;
      if ranked[rank - 1] in relevant { return; }
    }
    rank := 0;
  }

  lemma RankUnique(ranked: seq<Doc>, grades: Grades, cutoff: nat, rank: nat)
    requires rank <= cutoff && rank <= |ranked|
    requires rank > 0 ==>
               ranked[rank - 1] in Relevant(grades) && forall k | 0 <= k < rank - 1 :: ranked[k] !in Relevant(grades)
    requires rank == 0 ==> forall k | 0 <= k < |ranked| && k < cutoff :: ranked[k] !in Relevant(grades)
    ensures rank == FirstRelevant(ranked, grades, cutoff)
  {
    FirstRelevantMeans(ranked, grades, cutoff);
    var r := FirstRelevant(ranked, grades, cutoff);
    if rank > 0 && r > 0 {
      assert GradeOf(grades, ranked[r - 1]) > 0 && GradeOf(grades, ranked[rank - 1]) > 0;
    }
  }

  lemma FractionInUnit(part: real, whole: real)
    requires 0.0 <= part <= whole && whole > 0.0
    ensures InUnit(part / whole)
    ensures part / whole == 1.0 <==> part == whole
  {
    var q := part / whole;
    assert q * whole == part;
    var rest := 1.0 - q;
    assert rest * whole == whole - part;
    SignOfProduct(q, whole);
    SignOfProduct(rest, whole);
  }

  lemma SignOfProduct(x: real, y: real)
    requires y > 0.0
    ensures x > 0.0 <==> x * y > 0.0
    ensures x < 0.0 <==> x * y < 0.0
  {
  }

  // ----- The metrics without a division

  predicate Positive(grades: Grades, doc: Doc) {
    doc in grades.of && grades.of[doc] > 0
  }

  /** NDCG times the ideal discounted gain is the discounted gain of the ranking. */
  ghost predicate StatesNdcg(ndcg: real, credited: seq<nat>, ideal: seq<nat>, n: nat, discount: nat -> real) {
    ndcg * RealSum(Ranks(n), RankGain(ideal, discount)) == RealSum(Ranks(n), RankGain(credited, discount))
  }

  /** Recall times the relevant documents is the number of those within the cutoff. */
  ghost predicate StatesRecall(recall: real, ranked: seq<Doc>, grades: Grades, cutoff: nat) {
    recall * |set doc | doc in grades.of && Positive(grades, doc)| as real
      == |set k | 0 <= k < |ranked| && k < cutoff && Positive(grades, ranked[k]) :: ranked[k]| as real
  }

  /** The reciprocal rank times the rank of the first relevant document is one. */
  ghost predicate StatesMrr(mrr: real, ranked: seq<Doc>, grades: Grades, cutoff: nat) {
    && (forall k | 0 <= k < |ranked| && k < cutoff && Positive(grades, ranked[k])
                   && forall i | 0 <= i < k :: !Positive(grades, ranked[i]) :: mrr * (k + 1) as real == 1.0)
    && ((forall k | 0 <= k < |ranked| && k < cutoff :: !Positive(grades, ranked[k])) ==> mrr == 0.0)
  }

  lemma RatioScaled(q: real, x: real, y: real, scale: real, bigX: real, bigY: real)
    requires y != 0.0 && q == x / y && x * scale == bigX && y * scale == bigY
    ensures q * bigY == bigX
  {
    assert q * y == x;
    assert q * (y * scale) == (q * y) * scale;
  }

  lemma ReciprocalMeans(rank: nat)
    requires rank > 0
    ensures Reciprocal(rank) * rank as real == 1.0
  {
  }

  lemma MeasuresState(m: QueryMetrics, ranked: seq<Doc>, grades: Grades, cutoffs: Cutoffs, maximum: nat,
                      discount: nat -> real)
    requires m.ndcg.Some? && Measures(m, ranked, grades, cutoffs, maximum, discount)
    ensures StatesNdcg(m.ndcg.value, Credited(ranked, grades), Ideal(grades), cutoffs.ndcg, discount)
    ensures StatesRecall(m.recall.value, ranked, grades, cutoffs.recall)
    ensures StatesMrr(m.mrr.value, ranked, grades, cutoffs.mrr)
  {
    hide StatesMrr, StatesRecall, StatesNdcg, Dcg, Credited, Ideal, FirstRelevant, Reciprocal, RetrievedRelevant,
      Relevant;
    NdcgStated(m, ranked, grades, cutoffs, maximum, discount);
    RecallStated(m, ranked, grades, cutoffs, maximum, discount);
    MrrStated(ranked, grades, cutoffs.mrr);
  }

  lemma NdcgStated(m: QueryMetrics, ranked: seq<Doc>, grades: Grades, cutoffs: Cutoffs, maximum: nat,
                   discount: nat -> real)
    requires m.ndcg.Some? && Measures(m, ranked, grades, cutoffs, maximum, discount)
    ensures StatesNdcg(m.ndcg.value, Credited(ranked, grades), Ideal(grades), cutoffs.ndcg, discount)
  {
    hide Dcg, Credited, Ideal, FirstRelevant, RetrievedRelevant, Relevant, Reciprocal, Pow2, RealSum;
    var dcg := Dcg(Credited(ranked, grades), cutoffs.ndcg, maximum, discount);
    var ideal := Dcg(Ideal(grades), cutoffs.ndcg, maximum, discount);
    DcgMeans(Credited(ranked, grades), cutoffs.ndcg, maximum, discount);
    DcgMeans(Ideal(grades), cutoffs.ndcg, maximum, discount);
    RatioScaled(m.ndcg.value, dcg, ideal, Pow2(maximum),
                RealSum(Ranks(cutoffs.ndcg), RankGain(Credited(ranked, grades), discount)),
                RealSum(Ranks(cutoffs.ndcg), RankGain(Ideal(grades), discount)));
  }

  lemma RecallStated(m: QueryMetrics, ranked: seq<Doc>, grades: Grades, cutoffs: Cutoffs, maximum: nat,
                     discount: nat -> real)
    requires m.ndcg.Some? && Measures(m, ranked, grades, cutoffs, maximum, discount)
    ensures StatesRecall(m.recall.value, ranked, grades, cutoffs.recall)
  {
    hide Dcg, Credited, Ideal, FirstRelevant, Reciprocal;
    var within := ranked[..if cutoffs.recall <= |ranked| then cutoffs.recall else |ranked|];
    var stated := set k | 0 <= k < |ranked| && k < cutoffs.recall && Positive(grades, ranked[k]) :: ranked[k];
    forall doc ensures doc in RetrievedRelevant(ranked, grades, cutoffs.recall) <==> doc in stated {
      if doc in stated {
        var k :| 0 <= k < |ranked| && k < cutoffs.recall && Positive(grades, ranked[k]) && ranked[k] == doc;
        assert within[k] == doc;
      }
      if doc in RetrievedRelevant(ranked, grades, cutoffs.recall) {
        var k :| 0 <= k < |within| && within[k] == doc;
        assert ranked[k] == doc;
      }
    }
    assert RetrievedRelevant(ranked, grades, cutoffs.recall) == stated;
    assert Relevant(grades) == set doc | doc in grades.of && Positive(grades, doc);
  }

  lemma MrrStated(ranked: seq<Doc>, grades: Grades, cutoff: nat)
    ensures StatesMrr(Reciprocal(FirstRelevant(ranked, grades, cutoff)), ranked, grades, cutoff)
  {
    hide FirstRelevant, Reciprocal;
    var rank := FirstRelevant(ranked, grades, cutoff);
    FirstRelevantMeans(ranked, grades, cutoff);
    assert forall doc :: Positive(grades, doc) <==> GradeOf(grades, doc) > 0;
    if rank > 0 {
      ReciprocalMeans(rank);
      assert Positive(grades, ranked[rank - 1]);
    }
    NoRank();
  }

  lemma NoRank()
    ensures Reciprocal(0) == 0.0
  {
  }

  /** What the metrics of a ranking are, for consistent judgments. */
  ghost predicate Measures(m: QueryMetrics, ranked: seq<Doc>, grades: Grades, cutoffs: Cutoffs, maximum: nat,
                           discount: nat -> real) {
    && (m.ndcg.Some? <==> Judged(grades))
    && (m.ndcg.Some? ==>
      && m.recall.Some? && m.mrr.Some?
      && Dcg(Ideal(grades), cutoffs.ndcg, maximum, discount) > 0.0 && |Relevant(grades)| > 0
      && m.ndcg.value == Dcg(Credited(ranked, grades), cutoffs.ndcg, maximum, discount)
          / Dcg(Ideal(grades), cutoffs.ndcg, maximum, discount)
      && m.recall.value == |RetrievedRelevant(ranked, grades, cutoffs.recall)| as real / |Relevant(grades)| as real
      && m.mrr.value == Reciprocal(FirstRelevant(ranked, grades, cutoffs.mrr))
      && (DuplicateRetrieved in m.warnings <==> !Distinct(ranked)))
  }

  /** The metrics of one ranking, or the contradiction between two judgments. */
  method EvaluateRanking(ranked: seq<Doc>, judgments: seq<Judgment>, cutoffs: Cutoffs, discount: nat -> real)
    returns (r: Result<QueryMetrics, Conflict>, ghost grades: Grades, ghost maximum: nat)
    requires cutoffs.ndcg > 0 && ValidDiscount(discount)
    ensures r.Ok? <==> Consistent(judgments)
    ensures r.Ok? ==>
      && Coalesced(judgments, grades) && ValidMetrics(r.value)
      && Measures(r.value, ranked, grades, cutoffs, maximum, discount)
      // The three values, and the order they are measured against, in terms of the ranking and the grades.
      && (r.value.ndcg.Some? <==> exists judgment :: judgment in judgments && judgment.grade > 0)
      && IsIdeal(Ideal(grades), grades) && IsCredited(Credited(ranked, grades), ranked, grades)
      && (r.value.ndcg.Some? ==>
            && StatesNdcg(r.value.ndcg.value, Credited(ranked, grades), Ideal(grades), cutoffs.ndcg, discount)
            && StatesRecall(r.value.recall.value, ranked, grades, cutoffs.recall)
            && StatesMrr(r.value.mrr.value, ranked, grades, cutoffs.mrr))
      // One warning for each document judged again, and one more for the other two findings.
      && WarningsFit(r.value, |JudgedAgain(judgments)|, !Distinct(ranked))
      && (Judged(grades) ==> forall g | g in Ideal(grades) :: g <= maximum)
      && (Judged(grades) ==> maximum in Ideal(grades))
      && (r.value.ndcg == Some(1.0) <==> Judged(grades) && IdealOrder(ranked, grades, cutoffs.ndcg))
  {
    hide Ideal, Credited, Measures, StatesNdcg, StatesRecall, StatesMrr, IsIdeal, IsCredited, IdealOrder, Coalesced,
      JudgedAgain, Distinct, ValidDiscount, Consistent, Docs, Repeated, Judged;
    grades, maximum := Grades([], map[]), 0;
    var normalized := NormalizeJudgments(judgments);
    if normalized.Err? { return Err(normalized.error), grades, maximum; }
    var (known, warnings) := normalized.value;
    grades := known;
    var positives := Positives(known, known.order);
    CoalescedValid(judgments, known);
    IdealMeans(known);
    CreditedMeans(ranked, known);
    JudgedMeans(judgments, known);
    PositivesEmpty(known);
    if positives == [] {
      OnlyDuplicates(warnings, [NoPositiveQrels]);
      NothingMeasured(warnings + [NoPositiveQrels], ranked, known, cutoffs, maximum, discount);
      return Ok(QueryMetrics(None, None, None, warnings + [NoPositiveQrels])), grades, maximum;
    }
    var top := MaximumGrade(positives);
    IdealSame(known);
    PermutationMembers(positives, Ideal(known));
    maximum := top;
    var m := MeasureRanking(ranked, known, top, cutoffs, discount, warnings);
    MeasuresState(m, ranked, known, cutoffs, maximum, discount);
    r := Ok(m);
  }

  lemma CoalescedValid(judgments: seq<Judgment>, grades: Grades)
    requires Coalesced(judgments, grades)
    ensures ValidGrades(grades)
  {
  }

  lemma NothingMeasured(warnings: seq<Warning>, ranked: seq<Doc>, grades: Grades, cutoffs: Cutoffs, maximum: nat,
                        discount: nat -> real)
    requires NoPositiveQrels in warnings
    ensures ValidMetrics(QueryMetrics(None, None, None, warnings))
    ensures Measures(QueryMetrics(None, None, None, warnings), ranked, grades, cutoffs, maximum, discount) <==>
            !Judged(grades)
  {
    hide Dcg, Ideal, Credited;
  }

  lemma IdealSame(grades: Grades)
    ensures multiset(Ideal(grades)) == multiset(Positives(grades, grades.order))
  {
  }

  /** How often the judgments repeat a document, and whether the ranking does or nothing is positive. */
  predicate WarningsFit(m: QueryMetrics, again: nat, repeats: bool) {
    && multiset(m.warnings)[DuplicateQrel] == again
    && multiset(m.warnings)[DuplicateRetrieved] == (if m.ndcg.Some? && repeats then 1 else 0)
    && multiset(m.warnings)[NoPositiveQrels] == (if m.ndcg.None? then 1 else 0)
  }

  lemma {:induction false} OnlyDuplicates(warnings: seq<Warning>, more: seq<Warning>)
    requires forall w | w in warnings :: w == DuplicateQrel
    ensures multiset(warnings + more)[DuplicateQrel] == |warnings| + multiset(more)[DuplicateQrel]
    ensures multiset(warnings + more)[DuplicateRetrieved] == multiset(more)[DuplicateRetrieved]
    ensures multiset(warnings + more)[NoPositiveQrels] == multiset(more)[NoPositiveQrels]
  {
    if warnings == [] {
      assert warnings + more == more;
    } else {
      assert warnings[0] in warnings && forall w | w in warnings[1..] :: w in warnings;
      OnlyDuplicates(warnings[1..], more);
      assert warnings + more == [warnings[0]] + (warnings[1..] + more);
    }
  }

  lemma JudgedMeans(judgments: seq<Judgment>, grades: Grades)
    requires Coalesced(judgments, grades)
    ensures Judged(grades) <==> exists judgment :: judgment in judgments && judgment.grade > 0
  {
    if Judged(grades) {
      var doc :| doc in grades.of && grades.of[doc] > 0;
      PriorJudgment(judgments, grades, doc);
    }
  }

  lemma PositivesEmpty(grades: Grades)
    requires ValidGrades(grades)
    ensures Positives(grades, grades.order) == [] <==> !Judged(grades)
    ensures Judged(grades) <==> Ideal(grades) != []
  {
    IdealFacts(grades);
  }

  method MeasureRanking(ranked: seq<Doc>, grades: Grades, maximum: nat, cutoffs: Cutoffs, discount: nat -> real,
                        before: seq<Warning>)
    returns (m: QueryMetrics)
    requires ValidGrades(grades) && Judged(grades) && cutoffs.ndcg > 0 && ValidDiscount(discount)
    requires forall w | w in before :: w == DuplicateQrel
    ensures ValidMetrics(m) && m.ndcg.Some? && Measures(m, ranked, grades, cutoffs, maximum, discount)
    ensures WarningsFit(m, |before|, !Distinct(ranked))
    ensures m.ndcg == Some(1.0) <==> IdealOrder(ranked, grades, cutoffs.ndcg)
  {
    hide Dcg, Credited, Ideal, FirstRelevant, RetrievedRelevant, Relevant, IdealOrder, ValidDiscount, Distinct,
        ValidGrades;
    var credited, repeats := CreditRanking(ranked, grades);
    var dcg := DiscountedGain(credited, cutoffs.ndcg, maximum, discount);
    var ideal := DiscountedGain(Ideal(grades), cutoffs.ndcg, maximum, discount);
    NdcgBound(ranked, grades, cutoffs.ndcg, maximum, discount);
    FractionInUnit(dcg, ideal);
    var relevant := Relevant(grades);
    var retrieved := RetrievedRelevant(ranked, grades, cutoffs.recall);
    RetrievedWithin(ranked, grades, cutoffs.recall);
    FractionInUnit(|retrieved| as real, |relevant| as real);
    var rank := FindFirstRelevant(ranked, relevant, cutoffs.mrr);
    RankUnique(ranked, grades, cutoffs.mrr, rank);
    ReciprocalPositive(rank);
    m := QueryMetrics(Some(dcg / ideal), Some(|retrieved| as real / |relevant| as real), Some(Reciprocal(rank)),
                      before + if repeats then [DuplicateRetrieved] else []);
    OnlyDuplicates(before, if repeats then [DuplicateRetrieved] else []);
  }

  lemma ReciprocalPositive(rank: nat)
    ensures InUnit(Reciprocal(rank))
  {
    if rank > 0 { ReciprocalDecreases(rank, 0); FractionInUnit(1.0, rank as real); }
  }

  lemma RetrievedWithin(ranked: seq<Doc>, grades: Grades, cutoff: nat)
    requires Judged(grades)
    ensures |RetrievedRelevant(ranked, grades, cutoff)| <= |Relevant(grades)| && |Relevant(grades)| > 0
  {
    SubsetCard(RetrievedRelevant(ranked, grades, cutoff), Relevant(grades));
    var doc :| doc in grades.of && grades.of[doc] > 0;
    assert doc in Relevant(grades);
  }
}
