/** Qualified reciprocal-rank fusion: the fused list, the target's worst-case membership, and the facts
    that the evidence contract accepts. */
module Rrf {
  import opened Collections
  import opened Scores

  datatype Inputs = Inputs(bm25Weight: real, annWeight: real, rankConstant: nat, cutoff: nat)

  predicate ValidInputs(inputs: Inputs) {
    inputs.bm25Weight > 0.0 && inputs.annWeight > 0.0 && inputs.rankConstant >= 1 && inputs.cutoff >= 1
  }

  function Share(weight: real, constant: nat, rank: nat): real
    requires constant >= 1
  {
    weight / (constant + rank) as real
  }

  /** Fused documents in first-seen order, their scores, and their rank in each list. */
  datatype Fusion = Fusion(docs: seq<Doc>, totals: map<Doc, real>, bm25: map<Doc, nat>, ann: map<Doc, nat>)

  function RankIn(rows: seq<Row>, doc: Doc): Option<nat> {
    if rows == [] then None
    else if rows[|rows| - 1].doc == doc then Some(rows[|rows| - 1].rank)
    else RankIn(rows[..|rows| - 1], doc)
  }

  function Contribution(rank: Option<nat>, weight: real, constant: nat): real
    requires constant >= 1
  {
    if rank.Some? then Share(weight, constant, rank.value) else 0.0
  }

  function ExpectedScore(bm25: Option<nat>, ann: Option<nat>, inputs: Inputs): real
    requires inputs.rankConstant >= 1
  {
    Contribution(bm25, inputs.bm25Weight, inputs.rankConstant)
        + Contribution(ann, inputs.annWeight, inputs.rankConstant)
  }

  function Found(ranks: map<Doc, nat>, doc: Doc): Option<nat> {
    if doc in ranks then Some(ranks[doc]) else None
  }

  /** A fusion of some rows of each list. */
  ghost predicate Fuses(fusion: Fusion, bm25: seq<Row>, ann: seq<Row>, inputs: Inputs)
    requires inputs.rankConstant >= 1
  {
    && Distinct(fusion.docs) && ToSet(fusion.docs) == fusion.totals.Keys == Docs(bm25) + Docs(ann)
    && (forall doc: Doc :: Found(fusion.bm25, doc) == RankIn(bm25, doc))
    && (forall doc: Doc :: Found(fusion.ann, doc) == RankIn(ann, doc))
    && (forall doc | doc in fusion.totals ::
        fusion.totals[doc] == ExpectedScore(RankIn(bm25, doc), RankIn(ann, doc), inputs))
  }

  lemma {:induction false} RankInMeans(rows: seq<Row>, doc: Doc)
    ensures RankIn(rows, doc).Some? <==> doc in Docs(rows)
  {
    if rows != [] {
      var rest, last := rows[..|rows| - 1], rows[|rows| - 1];
      RankInMeans(rest, doc);
      assert rows == rest + [last];
      assert Docs(rows) == Docs(rest) + {last.doc};
    }
  }

  lemma DocsStep(rows: seq<Row>, row: Row)
    ensures Docs(rows + [row]) == Docs(rows) + {row.doc}
    ensures (rows + [row])[..|rows|] == rows
    ensures forall doc: Doc :: RankIn(rows + [row], doc) == if doc == row.doc then Some(row.rank) else RankIn(rows, doc)
  {
    assert (rows + [row])[..|rows|] == rows;
  }

  function AddTotal(fusion: Fusion, doc: Doc, part: real): Fusion {
    if doc in fusion.totals then fusion.(totals := fusion.totals[doc := fusion.totals[doc] + part])
    else fusion.(docs := fusion.docs + [doc], totals := fusion.totals[doc := part])
  }

  lemma AddTotalDocs(fusion: Fusion, doc: Doc, part: real)
    requires Distinct(fusion.docs) && ToSet(fusion.docs) == fusion.totals.Keys
    ensures var added := AddTotal(fusion, doc, part);
            Distinct(added.docs) && ToSet(added.docs) == added.totals.Keys == fusion.totals.Keys + {doc}
  {
    if doc !in fusion.totals {
      assert doc !in ToSet(fusion.docs);
      assert ToSet(fusion.docs + [doc]) == ToSet(fusion.docs) + {doc};
    }
  }

  function AddBm25(fusion: Fusion, row: Row, inputs: Inputs): Fusion
    requires inputs.rankConstant >= 1
  {
    var added := AddTotal(fusion, row.doc, Share(inputs.bm25Weight, inputs.rankConstant, row.rank));
    added.(bm25 := added.bm25[row.doc := row.rank])
  }

  function AddAnn(fusion: Fusion, row: Row, inputs: Inputs): Fusion
    requires inputs.rankConstant >= 1
  {
    var added := AddTotal(fusion, row.doc, Share(inputs.annWeight, inputs.rankConstant, row.rank));
    added.(ann := added.ann[row.doc := row.rank])
  }

  /** The fusion of two lists: first the rows of one, then those of the other. */
  function Fused(bm25: seq<Row>, ann: seq<Row>, inputs: Inputs): Fusion
    requires inputs.rankConstant >= 1
  {
    if ann != [] then AddAnn(Fused(bm25, ann[..|ann| - 1], inputs), ann[|ann| - 1], inputs)
    else if bm25 != [] then AddBm25(Fused(bm25[..|bm25| - 1], [], inputs), bm25[|bm25| - 1], inputs)
    else Fusion([], map[], map[], map[])
  }

  lemma FuseBm25Step(fusion: Fusion, rows: seq<Row>, row: Row, inputs: Inputs)
    requires inputs.rankConstant >= 1 && Fuses(fusion, rows, [], inputs) && row.doc !in Docs(rows)
    ensures Fuses(AddBm25(fusion, row, inputs), rows + [row], [], inputs)
  {
    DocsStep(rows, row);
    AddTotalDocs(fusion, row.doc, Share(inputs.bm25Weight, inputs.rankConstant, row.rank));
    assert Docs([]) == {};
  }

  lemma FuseAnnStep(fusion: Fusion, bm25: seq<Row>, rows: seq<Row>, row: Row, inputs: Inputs)
    requires inputs.rankConstant >= 1 && Fuses(fusion, bm25, rows, inputs) && row.doc !in Docs(rows)
    ensures Fuses(AddAnn(fusion, row, inputs), bm25, rows + [row], inputs)
  {
    hide Share, RankIn, Distinct, ToSet;
    DocsStep(rows, row);
    RankInMeans(bm25, row.doc);
    RankInMeans(rows, row.doc);
    AddTotalDocs(fusion, row.doc, Share(inputs.annWeight, inputs.rankConstant, row.rank));
  }

  predicate Unrepeated(rows: seq<Row>) {
    forall a, b | 0 <= a < b < |rows| :: rows[a].doc != rows[b].doc
  }

  /** Fused scores are the weighted reciprocal ranks, and the remembered ranks are those of each list. */
  lemma {:induction false} FusedFuses(bm25: seq<Row>, ann: seq<Row>, inputs: Inputs)
    requires inputs.rankConstant >= 1 && Unrepeated(bm25) && Unrepeated(ann)
    ensures Fuses(Fused(bm25, ann, inputs), bm25, ann, inputs)
    ensures ReciprocalRanks(Fused(bm25, ann, inputs).totals, bm25, ann, inputs)
    ensures Remembers(Fused(bm25, ann, inputs).bm25, bm25) && Remembers(Fused(bm25, ann, inputs).ann, ann)
    decreases |ann|, |bm25|
  {
    hide Fuses, AddAnn, AddBm25, ReciprocalRanks, Remembers;
    if ann != [] {
      var i := |ann| - 1;
      NewRow(ann, i);
      FusedFuses(bm25, ann[..i], inputs);
      FuseAnnStep(Fused(bm25, ann[..i], inputs), bm25, ann[..i], ann[i], inputs);
      assert ann[..i] + [ann[i]] == ann;
    } else if bm25 != [] {
      var i := |bm25| - 1;
      NewRow(bm25, i);
      FusedFuses(bm25[..i], [], inputs);
      FuseBm25Step(Fused(bm25[..i], [], inputs), bm25[..i], bm25[i], inputs);
      assert bm25[..i] + [bm25[i]] == bm25;
    } else {
      FusedNothing(inputs);
    }
    ScoresByRank(Fused(bm25, ann, inputs), bm25, ann, inputs);
  }

  lemma FusedNothing(inputs: Inputs)
    requires inputs.rankConstant >= 1
    ensures Fuses(Fused([], [], inputs), [], [], inputs)
  {
    assert Docs([]) == {} && ToSet<Doc>([]) == {};
  }

  /** The score of a document that one list holds at this rank. */
  predicate OneShare(score: real, weight: real, constant: nat, rank: nat) {
    score * (constant + rank) as real == weight
  }

  /** The score of a document that both lists hold, with the divisions multiplied out. */
  predicate TwoShares(score: real, inputs: Inputs, bm25Rank: nat, annRank: nat) {
    var (d, e) := ((inputs.rankConstant + bm25Rank) as real, (inputs.rankConstant + annRank) as real);
    score * d * e == inputs.bm25Weight * e + inputs.annWeight * d
  }

  /** The fused scores by the ranks at which the lists hold a document. */
  ghost predicate ReciprocalRanks(totals: map<Doc, real>, bm25: seq<Row>, ann: seq<Row>, inputs: Inputs) {
    && totals.Keys == Docs(bm25) + Docs(ann)
    && (forall row | row in bm25 && row.doc !in Docs(ann) ::
          OneShare(totals[row.doc], inputs.bm25Weight, inputs.rankConstant, row.rank))
    && (forall row | row in ann && row.doc !in Docs(bm25) ::
          OneShare(totals[row.doc], inputs.annWeight, inputs.rankConstant, row.rank))
    && (forall a, b | a in bm25 && b in ann && a.doc == b.doc ::
          TwoShares(totals[a.doc], inputs, a.rank, b.rank))
  }

  /** The remembered ranks are those of the rows. */
  ghost predicate Remembers(ranks: map<Doc, nat>, rows: seq<Row>) {
    ranks.Keys == Docs(rows) && forall row | row in rows :: ranks[row.doc] == row.rank
  }

  lemma ShareMeans(weight: real, constant: nat, rank: nat)
    requires constant >= 1
    ensures Share(weight, constant, rank) * (constant + rank) as real == weight
  {
  }

  lemma BothShares(x: real, y: real, d: real, e: real, w: real, v: real)
    requires x * d == w && y * e == v
    ensures (x + y) * d * e == w * e + v * d
  {
    assert (x + y) * d * e == (x * d) * e + (y * e) * d;
  }

  lemma {:induction false} RankInAt(rows: seq<Row>, row: Row)
    requires Unrepeated(rows) && row in rows
    ensures RankIn(rows, row.doc) == Some(row.rank)
  {
    var rest, last := rows[..|rows| - 1], rows[|rows| - 1];
    assert rows == rest + [last];
    if row != last { RankInAt(rest, row); }
  }

  lemma ScoresByRank(fusion: Fusion, bm25: seq<Row>, ann: seq<Row>, inputs: Inputs)
    requires inputs.rankConstant >= 1 && Unrepeated(bm25) && Unrepeated(ann) && Fuses(fusion, bm25, ann, inputs)
    ensures ReciprocalRanks(fusion.totals, bm25, ann, inputs)
    ensures Remembers(fusion.bm25, bm25) && Remembers(fusion.ann, ann)
  {
    RanksByRow(bm25);
    RanksByRow(ann);
    RememberedRanks(fusion.bm25, bm25);
    RememberedRanks(fusion.ann, ann);
    hide ExpectedScore, Unrepeated, Remembers, RankIn, OneShare, TwoShares;
    forall doc: Doc { ExpectedMeans(RankIn(bm25, doc), RankIn(ann, doc), inputs); }
  }

  lemma ExpectedMeans(bm25: Option<nat>, ann: Option<nat>, inputs: Inputs)
    requires inputs.rankConstant >= 1
    ensures var score := ExpectedScore(bm25, ann, inputs);
      && (bm25.Some? && ann.None? ==> OneShare(score, inputs.bm25Weight, inputs.rankConstant, bm25.value))
      && (ann.Some? && bm25.None? ==> OneShare(score, inputs.annWeight, inputs.rankConstant, ann.value))
      && (bm25.Some? && ann.Some? ==> TwoShares(score, inputs, bm25.value, ann.value))
  {
    hide Share;
    var k := inputs.rankConstant;
    if bm25.Some? { ShareMeans(inputs.bm25Weight, k, bm25.value); }
    if ann.Some? { ShareMeans(inputs.annWeight, k, ann.value); }
    if bm25.Some? && ann.Some? {
      BothShares(Share(inputs.bm25Weight, k, bm25.value), Share(inputs.annWeight, k, ann.value),
                 (k + bm25.value) as real, (k + ann.value) as real, inputs.bm25Weight, inputs.annWeight);
    }
  }

  lemma RememberedRanks(ranks: map<Doc, nat>, rows: seq<Row>)
    requires Unrepeated(rows) && forall doc: Doc :: Found(ranks, doc) == RankIn(rows, doc)
    ensures Remembers(ranks, rows)
  {
    RanksByRow(rows);
    forall doc: Doc ensures doc in ranks <==> doc in Docs(rows) { assert Found(ranks, doc) == RankIn(rows, doc); }
    forall row | row in rows ensures ranks[row.doc] == row.rank {
      assert Found(ranks, row.doc) == RankIn(rows, row.doc);
    }
  }

  lemma RanksByRow(rows: seq<Row>)
    requires Unrepeated(rows)
    ensures forall row | row in rows :: RankIn(rows, row.doc) == Some(row.rank)
    ensures forall doc: Doc :: RankIn(rows, doc).Some? <==> doc in Docs(rows)
  {
    forall row | row in rows ensures RankIn(rows, row.doc) == Some(row.rank) { RankInAt(rows, row); }
    forall doc: Doc ensures RankIn(rows, doc).Some? <==> doc in Docs(rows) { RankInMeans(rows, doc); }
  }

  /** The second list holds the document no worse than the first does. */
  ghost predicate NoWorse(before: seq<Row>, after: seq<Row>, doc: Doc) {
    forall row | row in before && row.doc == doc ::
      exists other :: other in after && other.doc == doc && other.rank <= row.rank
  }

  /** Moreover it holds the document at a smaller rank, or newly. */
  ghost predicate Improves(before: seq<Row>, after: seq<Row>, doc: Doc) {
    && NoWorse(before, after, doc)
    && exists other :: other in after && other.doc == doc && forall row | row in before && row.doc == doc ::
                         other.rank < row.rank
  }

  lemma ShareDecreases(weight: real, constant: nat, low: nat, high: nat)
    requires constant >= 1 && weight > 0.0 && low <= high
    ensures Share(weight, constant, low) >= Share(weight, constant, high) > 0.0
    ensures low < high ==> Share(weight, constant, low) > Share(weight, constant, high)
  {
    var x, y, d, e := Share(weight, constant, low), Share(weight, constant, high), (constant + low) as real,
      (constant + high) as real;
    ShareMeans(weight, constant, low);
    ShareMeans(weight, constant, high);
    ProductSign(x, d);
    ProductSign(y, e);
    assert (x - y) * d == y * (e - d);
    if low < high {
      ProductSign(y, e - d);
      ProductSign(x - y, d);
    }
  }

  lemma PartImproves(before: seq<Row>, after: seq<Row>, doc: Doc, weight: real, constant: nat)
    requires constant >= 1 && weight > 0.0 && Unrepeated(before) && Unrepeated(after) && NoWorse(before, after, doc)
    ensures Contribution(RankIn(before, doc), weight, constant) <= Contribution(RankIn(after, doc), weight, constant)
    ensures Improves(before, after, doc) ==>
      Contribution(RankIn(before, doc), weight, constant) < Contribution(RankIn(after, doc), weight, constant)
  {
    hide Share;
    RanksByRow(before);
    RanksByRow(after);
    forall r: nat { ShareDecreases(weight, constant, r, r); }
    forall row, other | row in before && other in after && other.rank <= row.rank {
      ShareDecreases(weight, constant, other.rank, row.rank);
    }
  }

  /** A document that neither list holds worse, and one list better, scores strictly higher. */
  lemma BetterRankScoresHigher(bm25: seq<Row>, ann: seq<Row>, bm25After: seq<Row>, annAfter: seq<Row>, inputs: Inputs,
                               doc: Doc)
    requires ValidInputs(inputs) && Unrepeated(bm25) && Unrepeated(ann) && Unrepeated(bm25After) && Unrepeated(annAfter)
    requires NoWorse(bm25, bm25After, doc) && NoWorse(ann, annAfter, doc)
    requires Improves(bm25, bm25After, doc) || Improves(ann, annAfter, doc)
    ensures TotalOf(Fused(bm25, ann, inputs), doc) < TotalOf(Fused(bm25After, annAfter, inputs), doc)
  {
    hide NoWorse, Improves, Contribution, Fused;
    FusedFuses(bm25, ann, inputs);
    FusedFuses(bm25After, annAfter, inputs);
    PartImproves(bm25, bm25After, doc, inputs.bm25Weight, inputs.rankConstant);
    PartImproves(ann, annAfter, doc, inputs.annWeight, inputs.rankConstant);
    TotalExpected(Fused(bm25, ann, inputs), bm25, ann, inputs, doc);
    TotalExpected(Fused(bm25After, annAfter, inputs), bm25After, annAfter, inputs, doc);
  }

  lemma TotalExpected(fusion: Fusion, bm25: seq<Row>, ann: seq<Row>, inputs: Inputs, doc: Doc)
    requires inputs.rankConstant >= 1 && Fuses(fusion, bm25, ann, inputs)
    ensures TotalOf(fusion, doc) == Contribution(RankIn(bm25, doc), inputs.bm25Weight, inputs.rankConstant)
                                    + Contribution(RankIn(ann, doc), inputs.annWeight, inputs.rankConstant)
  {
    RankInMeans(bm25, doc);
    RankInMeans(ann, doc);
  }

  lemma NewRow(rows: seq<Row>, i: nat)
    requires i < |rows| && forall a, b | 0 <= a < b < |rows| :: rows[a].doc != rows[b].doc
    ensures rows[i].doc !in Docs(rows[..i]) && rows[..i + 1] == rows[..i] + [rows[i]]
  {
  }

  /** Accumulate both lists' reciprocal-rank shares and remember the ranks. */
  method Fuse(bm25: seq<Row>, ann: seq<Row>, inputs: Inputs) returns (fusion: Fusion)
    requires inputs.rankConstant >= 1
    ensures fusion == Fused(bm25, ann, inputs)
    ensures Unrepeated(bm25) && Unrepeated(ann) ==>
              && Fuses(fusion, bm25, ann, inputs) && ReciprocalRanks(fusion.totals, bm25, ann, inputs)
              && Remembers(fusion.bm25, bm25) && Remembers(fusion.ann, ann)
  {
    hide Fuses, Share, ReciprocalRanks, Remembers;
    var docs: seq<Doc>, totals: map<Doc, real> := [], map[];
    var bm25Ranks: map<Doc, nat>, annRanks: map<Doc, nat> := map[], map[];
    for i := 0 to |bm25|
      invariant Fusion(docs, totals, bm25Ranks, annRanks) == Fused(bm25[..i], [], inputs)
    {
      var (doc, part) := (bm25[i].doc, Share(inputs.bm25Weight, inputs.rankConstant, bm25[i].rank));
      assert bm25[..i + 1][..i] == bm25[..i];
      if doc !in totals { docs := docs + [doc]; }
      totals := totals[doc := if doc in totals then totals[doc] + part else part];
      bm25Ranks := bm25Ranks[doc := bm25[i].rank];
    }
    assert bm25[..|bm25|] == bm25 && ann[..0] == [];
    for i := 0 to |ann|
      invariant Fusion(docs, totals, bm25Ranks, annRanks) == Fused(bm25, ann[..i], inputs)
    {
      var (doc, part) := (ann[i].doc, Share(inputs.annWeight, inputs.rankConstant, ann[i].rank));
      assert ann[..i + 1][..i] == ann[..i];
      if doc !in totals { docs := docs + [doc]; }
      totals := totals[doc := if doc in totals then totals[doc] + part else part];
      annRanks := annRanks[doc := ann[i].rank];
    }
    assert ann[..|ann|] == ann;
    fusion := Fusion(docs, totals, bm25Ranks, annRanks);
    if Unrepeated(bm25) && Unrepeated(ann) { FusedFuses(bm25, ann, inputs); }
  }

  /** Every fused score is positive. */
  lemma FusedPositive(fusion: Fusion, bm25: seq<Row>, ann: seq<Row>, inputs: Inputs, doc: Doc)
    requires ValidInputs(inputs) && Fuses(fusion, bm25, ann, inputs) && doc in fusion.totals
    ensures fusion.totals[doc] > 0.0
  {
    RankInMeans(bm25, doc);
    RankInMeans(ann, doc);
    ShareBounds(RankIn(bm25, doc), inputs.bm25Weight, inputs.rankConstant);
    ShareBounds(RankIn(ann, doc), inputs.annWeight, inputs.rankConstant);
  }

  lemma ShareBounds(rank: Option<nat>, weight: real, constant: nat)
    requires weight > 0.0 && constant >= 1
    ensures Contribution(rank, weight, constant) >= 0.0
    ensures rank.Some? ==> Contribution(rank, weight, constant) > 0.0
  {
    if rank.Some? {
      var q, d := Share(weight, constant, rank.value), (constant + rank.value) as real;
      assert q * d == weight;
      ProductSign(q, d);
    }
  }

  lemma ProductSign(q: real, d: real)
    requires d > 0.0
    ensures q > 0.0 <==> q * d > 0.0
  {
  }

  // ----- The target's place

  function TotalOf(fusion: Fusion, doc: Doc): real {
    if doc in fusion.totals then fusion.totals[doc] else 0.0
  }

  predicate Higher(score: real, target: real) {
    score > target && !Close(score, target)
  }

  function IsHigher(fusion: Fusion, target: real): Doc -> bool {
    (doc: Doc) => Higher(TotalOf(fusion, doc), target)
  }

  function IsTied(fusion: Fusion, target: real): Doc -> bool {
    (doc: Doc) => Close(TotalOf(fusion, doc), target)
  }

  function IsAhead(fusion: Fusion, target: real): Doc -> bool {
    (doc: Doc) => Higher(TotalOf(fusion, doc), target) || Close(TotalOf(fusion, doc), target)
  }

  function StrictlyHigher(fusion: Fusion, target: real): nat {
    CountIf(fusion.docs, IsHigher(fusion, target))
  }

  function TiedCount(fusion: Fusion, target: real): nat {
    CountIf(fusion.docs, IsTied(fusion, target))
  }

  predicate Present(fusion: Fusion, target: Doc, cutoff: nat) {
    && target in fusion.totals
    && var t := TotalOf(fusion, target);
       (|fusion.docs| <= cutoff || StrictlyHigher(fusion, t) + TiedCount(fusion, t) <= cutoff)
  }

  lemma {:induction false} AheadCount(fusion: Fusion, target: real, docs: seq<Doc>)
    ensures CountIf(docs, IsAhead(fusion, target))
              == CountIf(docs, IsHigher(fusion, target)) + CountIf(docs, IsTied(fusion, target))
  {
    if docs != [] { AheadCount(fusion, target, docs[1..]); }
  }

  /** The first alternative of the membership test is redundant: a list that fits the cutoff meets the other
      one. The converse fails. */
  lemma ShortListCounts(fusion: Fusion, target: Doc, cutoff: nat)
    ensures |fusion.docs| <= cutoff ==>
              StrictlyHigher(fusion, TotalOf(fusion, target)) + TiedCount(fusion, TotalOf(fusion, target)) <= cutoff
    ensures target in fusion.totals ==>
              (Present(fusion, target, cutoff) <==>
               StrictlyHigher(fusion, TotalOf(fusion, target)) + TiedCount(fusion, TotalOf(fusion, target)) <= cutoff)
  {
    AheadCount(fusion, TotalOf(fusion, target), fusion.docs);
    CountIfBounds(fusion.docs, IsAhead(fusion, TotalOf(fusion, target)));
  }

  /** An order of the fused documents that respects every clear difference from the target. */
  ghost predicate Admissible(order: seq<Doc>, fusion: Fusion, target: Doc) {
    && multiset(order) == multiset(fusion.docs)
    && (forall i, j | 0 <= i < j < |order| && order[j] == target :: IsAhead(fusion, TotalOf(fusion, target))(order[i]))
    && (forall i, j | 0 <= i < j < |order| && order[i] == target ::
        !IsHigher(fusion, TotalOf(fusion, target))(order[j]))
  }

  /** In any admissible order, everything in front of the target is ahead of it or tied with it. */
  lemma AdmissiblePosition(order: seq<Doc>, fusion: Fusion, target: Doc, i: nat)
    requires Admissible(order, fusion, target) && i < |order| && order[i] == target
    ensures i < StrictlyHigher(fusion, TotalOf(fusion, target)) + TiedCount(fusion, TotalOf(fusion, target))
  {
    var ahead := IsAhead(fusion, TotalOf(fusion, target));
    CloseSymmetric(TotalOf(fusion, target), 0.0);
    CloseSymmetric(TotalOf(fusion, target), TotalOf(fusion, target));
    forall doc | doc in order[..i + 1] ensures ahead(doc) {
      var k :| 0 <= k <= i && order[k] == doc;
    }
    CountIfBounds(order[..i + 1], ahead);
    assert order == order[..i + 1] + order[i + 1..];
    CountIfAppend(order[..i + 1], order[i + 1..], ahead);
    CountIfPermutation(order, fusion.docs, ahead);
    AheadCount(fusion, TotalOf(fusion, target), fusion.docs);
  }

  // The order that puts every tied score in front of the target.

  function IsTiedOther(fusion: Fusion, target: Doc): Doc -> bool {
    (doc: Doc) => doc != target && Close(TotalOf(fusion, doc), TotalOf(fusion, target))
  }

  function IsBehind(fusion: Fusion, target: Doc): Doc -> bool {
    (doc: Doc) => doc != target && !Higher(TotalOf(fusion, doc), TotalOf(fusion, target))
        && !Close(TotalOf(fusion, doc), TotalOf(fusion, target))
  }

  function WorstFront(fusion: Fusion, target: Doc, docs: seq<Doc>): seq<Doc> {
    Filter(docs, IsHigher(fusion, TotalOf(fusion, target))) + Filter(docs, IsTiedOther(fusion, target))
  }

  function WorstOrder(fusion: Fusion, target: Doc): seq<Doc> {
    WorstFront(fusion, target, fusion.docs) + [target] + Filter(fusion.docs, IsBehind(fusion, target))
  }

  function Own(target: Doc, docs: seq<Doc>): multiset<Doc> {
    if target in docs then multiset{target} else multiset{}
  }

  lemma Shuffle(front: multiset<Doc>, own: multiset<Doc>, behind: multiset<Doc>, all: multiset<Doc>, x: multiset<Doc>,
                longFront: multiset<Doc>, one: multiset<Doc>, longBehind: multiset<Doc>)
    requires front + own + behind == all
    requires longFront + one + longBehind == x + front + behind
    ensures longFront + (one + own) + longBehind == x + all
  {
    assert longFront + (one + own) + longBehind == (longFront + one + longBehind) + own;
    assert x + front + behind + own == x + (front + own + behind);
  }

  lemma {:induction false} WorstParts(fusion: Fusion, target: Doc, docs: seq<Doc>)
    requires Distinct(docs)
    ensures multiset(WorstFront(fusion, target, docs)) + Own(target, docs)
              + multiset(Filter(docs, IsBehind(fusion, target))) == multiset(docs)
  {
    if docs != [] {
      var x, rest := docs[0], docs[1..];
      WorstParts(fusion, target, rest);
      assert docs == [x] + rest && x !in rest;
      PartsStep(fusion, target, x, rest);
    }
  }

  lemma PartsStep(fusion: Fusion, target: Doc, x: Doc, rest: seq<Doc>)
    requires x !in rest
    requires multiset(WorstFront(fusion, target, rest)) + Own(target, rest)
               + multiset(Filter(rest, IsBehind(fusion, target)))
             == multiset(rest)
    ensures multiset(WorstFront(fusion, target, [x] + rest)) + Own(target, [x] + rest)
            + multiset(Filter([x] + rest, IsBehind(fusion, target))) == multiset([x] + rest)
  {
    hide WorstFront, Filter, IsBehind;
    var docs := [x] + rest;
    WorstStep(fusion, target, x, rest);
    Shuffle(multiset(WorstFront(fusion, target, rest)), Own(target, rest),
        multiset(Filter(rest, IsBehind(fusion, target))),
            multiset(rest), multiset{x}, multiset(WorstFront(fusion, target, docs)), Own(target, [x]),
            multiset(Filter(docs, IsBehind(fusion, target))));
    assert Own(target, docs) == Own(target, [x]) + Own(target, rest);
  }

  lemma {:induction false} WorstLength(fusion: Fusion, target: Doc, docs: seq<Doc>)
    requires Distinct(docs)
    ensures |WorstFront(fusion, target, docs)| + |Own(target, docs)|
            == CountIf(docs, IsHigher(fusion, TotalOf(fusion, target)))
                + CountIf(docs, IsTied(fusion, TotalOf(fusion, target)))
  {
    if docs != [] {
      var x, rest := docs[0], docs[1..];
      WorstLength(fusion, target, rest);
      assert docs == [x] + rest && x !in rest;
      WorstStep(fusion, target, x, rest);
      AheadStep(fusion, target, x, rest);
      hide WorstFront, CountIf;
    }
  }

  lemma AheadStep(fusion: Fusion, target: Doc, x: Doc, rest: seq<Doc>)
    ensures var t := TotalOf(fusion, target);
            CountIf([x] + rest, IsHigher(fusion, t)) + CountIf([x] + rest, IsTied(fusion, t))
            == CountIf(rest, IsHigher(fusion, t)) + CountIf(rest, IsTied(fusion, t))
               + if IsAhead(fusion, t)(x) then 1 else 0
    ensures x == target ==> IsAhead(fusion, TotalOf(fusion, target))(x)
  {
    assert ([x] + rest)[1..] == rest;
    CloseSymmetric(TotalOf(fusion, target), TotalOf(fusion, target));
  }

  lemma WorstStep(fusion: Fusion, target: Doc, x: Doc, rest: seq<Doc>)
    ensures var front, behind := WorstFront(fusion, target, [x] + rest), Filter([x] + rest, IsBehind(fusion, target));
            multiset(front) + Own(target, [x]) + multiset(behind)
            == multiset{x} + multiset(WorstFront(fusion, target, rest))
                + multiset(Filter(rest, IsBehind(fusion, target)))
    ensures |WorstFront(fusion, target, [x] + rest)|
            == |WorstFront(fusion, target, rest)|
               + if x != target && IsAhead(fusion, TotalOf(fusion, target))(x) then 1 else 0
  {
    var higher, tied, behind := IsHigher(fusion, TotalOf(fusion, target)), IsTiedOther(fusion, target),
                                         IsBehind(fusion, target);
    CloseSymmetric(TotalOf(fusion, target), TotalOf(fusion, target));
    FilterCons(x, rest, higher);
    FilterCons(x, rest, tied);
    FilterCons(x, rest, behind);
    OnePart(fusion, target, x);
    hide Filter, IsHigher, IsTiedOther, IsBehind, IsAhead, TotalOf;
  }

  lemma OnePart(fusion: Fusion, target: Doc, x: Doc)
    ensures var higher, tied, behind := IsHigher(fusion, TotalOf(fusion, target))(x), IsTiedOther(fusion, target)(x),
              IsBehind(fusion, target)(x);
            && !(higher && tied) && !(higher && behind) && !(tied && behind)
            && (x == target <==> !higher && !tied && !behind)
            && (x != target && IsAhead(fusion, TotalOf(fusion, target))(x) <==> higher || tied)
  {
    CloseSymmetric(TotalOf(fusion, target), TotalOf(fusion, target));
  }

  lemma FilterCons<T(!new)>(x: T, rest: seq<T>, p: T -> bool)
    ensures Filter([x] + rest, p) == (if p(x) then [x] else []) + Filter(rest, p)
  {
    assert ([x] + rest)[1..] == rest;
  }

  lemma WorstPermutation(fusion: Fusion, target: Doc)
    requires Distinct(fusion.docs) && target in fusion.docs
    ensures var order, n := WorstOrder(fusion, target), |WorstFront(fusion, target, fusion.docs)|;
            && multiset(order) == multiset(fusion.docs) && Distinct(order)
            && n < |order| && order[n] == target
            && n == StrictlyHigher(fusion, TotalOf(fusion, target)) + TiedCount(fusion, TotalOf(fusion, target)) - 1
  {
    var front, behind := WorstFront(fusion, target, fusion.docs), Filter(fusion.docs, IsBehind(fusion, target));
    WorstParts(fusion, target, fusion.docs);
    WorstLength(fusion, target, fusion.docs);
    hide WorstFront, Filter, CountIf;
    assert multiset(WorstOrder(fusion, target)) == multiset(front) + multiset{target} + multiset(behind);
    DistinctPermutation(fusion.docs, WorstOrder(fusion, target));
  }

  lemma WorstAdmissible(fusion: Fusion, target: Doc)
    requires Distinct(fusion.docs) && target in fusion.docs
    ensures Admissible(WorstOrder(fusion, target), fusion, target)
  {
    var order, front := WorstOrder(fusion, target), WorstFront(fusion, target, fusion.docs);
    var behind := Filter(fusion.docs, IsBehind(fusion, target));
    WorstPermutation(fusion, target);
    var n := |front|;
    forall i, j | 0 <= i < j < |order| && order[j] == target
      ensures IsAhead(fusion, TotalOf(fusion, target))(order[i])
    {
      assert j == n;
      assert order[i] == front[i] && order[i] in front;
    }
    forall i, j | 0 <= i < j < |order| && order[i] == target
      ensures !IsHigher(fusion, TotalOf(fusion, target))(order[j])
    {
      assert i == n;
      assert order[j] == behind[j - n - 1] && order[j] in behind;
      assert IsBehind(fusion, target)(order[j]);
    }
  }

  /** `target_present` is exactly membership of the first `cutoff` places in every admissible order. */
  lemma PresentMeansWorstCase(fusion: Fusion, target: Doc, cutoff: nat)
    requires Distinct(fusion.docs) && ToSet(fusion.docs) == fusion.totals.Keys
    ensures Present(fusion, target, cutoff) <==>
      && target in fusion.totals
      && forall order: seq<Doc>, i: nat | Admissible(order, fusion, target) && i < |order| && order[i] == target ::
          i < cutoff
  {
    if target in fusion.totals {
      assert target in ToSet(fusion.docs);
      var t := TotalOf(fusion, target);
      forall order: seq<Doc>, i: nat | Admissible(order, fusion, target) && i < |order| && order[i] == target
        ensures i < |fusion.docs| && i < StrictlyHigher(fusion, t) + TiedCount(fusion, t)
      {
        AdmissiblePosition(order, fusion, target, i);
        PermutationMembers(order, fusion.docs);
      }
      WorstAdmissible(fusion, target);
      WorstPermutation(fusion, target);
    }
  }

  // ----- The boundary of the fused list

  function Values(fusion: Fusion, docs: seq<Doc>): seq<real> {
    seq(|docs|, i requires 0 <= i < |docs| => TotalOf(fusion, docs[i]))
  }

  predicate RealGe(a: real, b: real) {
    a >= b
  }

  function Ordered(fusion: Fusion): seq<real> {
    Sort(Values(fusion, fusion.docs), RealGe)
  }

  function Boundary(fusion: Fusion, cutoff: nat): Option<real>
    requires cutoff >= 1
  {
    if |Ordered(fusion)| >= cutoff then Some(Ordered(fusion)[cutoff - 1]) else None
  }

  lemma {:induction false} CountValues(fusion: Fusion, docs: seq<Doc>, p: real -> bool, q: Doc -> bool)
    requires forall doc: Doc :: q(doc) == p(TotalOf(fusion, doc))
    ensures CountIf(Values(fusion, docs), p) == CountIf(docs, q)
  {
    if docs != [] {
      assert Values(fusion, docs)[1..] == Values(fusion, docs[1..]);
      CountValues(fusion, docs[1..], p, q);
    }
  }

  /** Fewer than `cutoff` scores exceed the boundary and at least `cutoff` reach it. */
  lemma BoundaryCounts(fusion: Fusion, cutoff: nat, above: Doc -> bool, reaching: Doc -> bool)
    requires cutoff >= 1 && Boundary(fusion, cutoff).Some?
    requires forall doc: Doc :: above(doc) == (TotalOf(fusion, doc) > Boundary(fusion, cutoff).value)
    requires forall doc: Doc :: reaching(doc) == (TotalOf(fusion, doc) >= Boundary(fusion, cutoff).value)
    ensures CountIf(fusion.docs, above) < cutoff <= CountIf(fusion.docs, reaching)
  {
    var b, ordered, values := Boundary(fusion, cutoff).value, Ordered(fusion), Values(fusion, fusion.docs);
    var over, atLeast := (x: real) => x > b, (x: real) => x >= b;
    SortSorted(values, RealGe);
    CountValues(fusion, fusion.docs, over, above);
    CountValues(fusion, fusion.docs, atLeast, reaching);
    CountIfPermutation(values, ordered, over);
    CountIfPermutation(values, ordered, atLeast);
    SortedCounts(ordered, cutoff, over, atLeast);
  }

  lemma SortedCounts(ordered: seq<real>, cutoff: nat, over: real -> bool, atLeast: real -> bool)
    requires SortedBy(ordered, RealGe) && 1 <= cutoff <= |ordered|
    requires forall x :: over(x) == (x > ordered[cutoff - 1])
    requires forall x :: atLeast(x) == (x >= ordered[cutoff - 1])
    ensures CountIf(ordered, over) < cutoff <= CountIf(ordered, atLeast)
  {
    forall i | cutoff - 1 <= i < |ordered| ensures !over(ordered[i]) {
      assert i > cutoff - 1 ==> RealGe(ordered[cutoff - 1], ordered[i]);
    }
    CountWithin(ordered, cutoff - 1, over);
    forall i | 0 <= i < cutoff ensures atLeast(ordered[i]) {
      assert i < cutoff - 1 ==> RealGe(ordered[i], ordered[cutoff - 1]);
    }
    CountReaches(ordered, cutoff, atLeast);
  }

  lemma CountWithin<T>(s: seq<T>, n: nat, p: T -> bool)
    requires n <= |s| && forall i | n <= i < |s| :: !p(s[i])
    ensures CountIf(s, p) <= n
  {
    assert s == s[..n] + s[n..];
    CountIfAppend(s[..n], s[n..], p);
    CountIfBounds(s[..n], p);
    CountIfBounds(s[n..], p);
  }

  lemma CountReaches<T>(s: seq<T>, n: nat, p: T -> bool)
    requires n <= |s| && forall i | 0 <= i < n :: p(s[i])
    ensures CountIf(s, p) >= n
  {
    assert s == s[..n] + s[n..];
    CountIfAppend(s[..n], s[n..], p);
    CountIfBounds(s[..n], p);
  }

  ghost predicate NonNegative(fusion: Fusion) {
    forall doc: Doc :: TotalOf(fusion, doc) >= 0.0
  }

  /** A present target is never clearly below the boundary. */
  lemma PresentReachesBoundary(fusion: Fusion, target: Doc, cutoff: nat)
    requires cutoff >= 1 && NonNegative(fusion) && target in fusion.docs && Boundary(fusion, cutoff).Some?
    requires StrictlyHigher(fusion, TotalOf(fusion, target)) + TiedCount(fusion, TotalOf(fusion, target)) <= cutoff
    ensures TotalOf(fusion, target) >= Boundary(fusion, cutoff).value
              || Close(TotalOf(fusion, target), Boundary(fusion, cutoff).value)
  {
    var t, b := TotalOf(fusion, target), Boundary(fusion, cutoff).value;
    if t < b && !Close(t, b) {
      CloseSymmetric(t, b);
      var above, reaching := (doc: Doc) => TotalOf(fusion, doc) > b, (doc: Doc) => TotalOf(fusion, doc) >= b;
      BoundaryCounts(fusion, cutoff, above, reaching);
      forall doc | doc in fusion.docs && reaching(doc)
        ensures IsHigher(fusion, t)(doc)
      {
        ClearlyAbove(t, b, TotalOf(fusion, doc));
      }
      CountIfMonotone(fusion.docs, reaching, IsHigher(fusion, t));
      CloseSymmetric(t, t);
      assert IsTied(fusion, t)(target);
      CountIfBounds(fusion.docs, IsTied(fusion, t));
    }
  }

  /** An absent member of the union is never clearly above the boundary. */
  lemma AbsentBelowBoundary(fusion: Fusion, target: Doc, cutoff: nat)
    requires cutoff >= 1 && NonNegative(fusion) && target in fusion.docs && Boundary(fusion, cutoff).Some?
    requires StrictlyHigher(fusion, TotalOf(fusion, target)) + TiedCount(fusion, TotalOf(fusion, target)) > cutoff
    ensures TotalOf(fusion, target) <= Boundary(fusion, cutoff).value
              || Close(TotalOf(fusion, target), Boundary(fusion, cutoff).value)
  {
    var t, b := TotalOf(fusion, target), Boundary(fusion, cutoff).value;
    if t > b && !Close(t, b) {
      CloseSymmetric(t, b);
      var above, reaching := (doc: Doc) => TotalOf(fusion, doc) > b, (doc: Doc) => TotalOf(fusion, doc) >= b;
      BoundaryCounts(fusion, cutoff, above, reaching);
      forall doc | doc in fusion.docs && IsAhead(fusion, t)(doc) ensures above(doc) {
        if TotalOf(fusion, doc) <= b { ClearlyBelow(TotalOf(fusion, doc), b, t); }
      }
      CountIfMonotone(fusion.docs, IsAhead(fusion, t), above);
      AheadCount(fusion, t, fusion.docs);
    }
  }

  // ----- The evidence and what its contract accepts

  datatype Evidence = Evidence(
    scope: Scope,
    filter: Option<FilterResult>,
    bm25Rank: Option<nat>,
    annRank: Option<nat>,
    inputs: Inputs,
    returnedCount: nat,
    targetPresent: bool,
    targetRank: Option<nat>,
    targetScore: real,
    boundary: Option<real>,
    relation: Relation,
    certainty: Certainty)

  /** The contract's own derivation; it raises when an absent target is clearly above the boundary. */
  function DeriveRelation(e: Evidence): Option<Relation> {
    if e.targetPresent then Some(TargetPresent)
    else if e.boundary.None? || Close(e.targetScore, e.boundary.value) then Some(NotObservable)
    else if e.targetScore > e.boundary.value then None
    else Some(OutsideCandidates)
  }

  predicate HasInput(e: Evidence) {
    e.bm25Rank.Some? || e.annRank.Some?
  }

  predicate ValidEvidence(e: Evidence) {
    && ValidInputs(e.inputs)
    && (e.scope == NoFilterCounterfactual ==> e.filter == None)
    && (e.filter == Some(NotMatched) ==> !HasInput(e) && !e.targetPresent)
    && e.targetScore >= 0.0 && (e.boundary.Some? ==> e.boundary.value > 0.0)
    && (e.targetPresent ==> e.targetRank.Some? && 1 <= e.targetRank.value <= e.returnedCount && HasInput(e))
    && (!e.targetPresent ==> e.targetRank == None)
    && (!e.targetPresent && e.returnedCount < e.inputs.cutoff ==> !HasInput(e))
    && Close(e.targetScore, ExpectedScore(e.bm25Rank, e.annRank, e.inputs))
    && e.returnedCount <= e.inputs.cutoff && (e.boundary.Some? <==> e.returnedCount == e.inputs.cutoff)
    && (e.targetPresent && e.boundary.Some? ==>
        !(e.targetScore < e.boundary.value && !Close(e.targetScore, e.boundary.value)))
    && DeriveRelation(e) == Some(e.relation)
    && e.certainty == CertaintyOf(e.relation, e.scope)
  }

  function Min(a: nat, b: nat): nat {
    if a < b then a else b
  }

  /** The fused count fits the two lists it was fused from. */
  predicate WithinUnion(e: Evidence, bm25Count: nat, annCount: nat) {
    && Min(e.inputs.cutoff, if bm25Count < annCount then annCount else bm25Count) <= e.returnedCount
    && e.returnedCount + (if e.bm25Rank.Some? && e.annRank.Some? then 1 else 0) <= bm25Count + annCount
    && e.returnedCount <= e.inputs.cutoff
  }

  /** The evidence repeats what the fused rows say about the target. */
  predicate Agrees(e: Evidence, fusion: Fusion, inputs: Inputs, scope: Scope, target: Doc)
    requires inputs.cutoff >= 1
  {
    var t := TotalOf(fusion, target);
    && e.scope == scope && e.inputs == inputs
    && e.bm25Rank == Found(fusion.bm25, target) && e.annRank == Found(fusion.ann, target)
    && e.returnedCount == Min(|fusion.docs|, inputs.cutoff)
    && e.targetPresent == Present(fusion, target, inputs.cutoff)
    && e.targetRank == (if e.targetPresent then Some(StrictlyHigher(fusion, t) + 1) else None)
    && Close(e.targetScore, t)
    && (e.boundary.Some? <==> Boundary(fusion, inputs.cutoff).Some?)
    && (e.boundary.Some? ==> Close(e.boundary.value, Boundary(fusion, inputs.cutoff).value))
  }

  /** Where a list holds the target, if it does. */
  ghost predicate StandsAt(rows: seq<Row>, doc: Doc, rank: Option<nat>) {
    if rank.Some? then exists row :: row in rows && row.doc == doc && row.rank == rank.value else doc !in Docs(rows)
  }

  ghost function Above(totals: map<Doc, real>, b: real): set<Doc> {
    set doc | doc in totals && totals[doc] > b
  }

  ghost function Reaching(totals: map<Doc, real>, b: real): set<Doc> {
    set doc | doc in totals && totals[doc] >= b
  }

  /** The score at the cutoff: fewer documents than the cutoff exceed it, and at least that many reach it. */
  ghost predicate IsBoundary(totals: map<Doc, real>, cutoff: nat, b: real) {
    |Above(totals, b)| < cutoff <= |Reaching(totals, b)|
  }

  ghost function HigherDocs(totals: map<Doc, real>, score: real): set<Doc> {
    set doc | doc in totals && totals[doc] > score && !Close(totals[doc], score)
  }

  ghost function TiedDocs(totals: map<Doc, real>, score: real): set<Doc> {
    set doc | doc in totals && Close(totals[doc], score)
  }

  ghost function ScoreIn(totals: map<Doc, real>, doc: Doc): real {
    if doc in totals then totals[doc] else 0.0
  }

  /** What the evidence says, counted on the fused scores alone. */
  ghost predicate StatesFacts(e: Evidence, scope: Scope, bm25: seq<Row>, ann: seq<Row>, inputs: Inputs, target: Doc,
                              totals: map<Doc, real>) {
    var score := ScoreIn(totals, target);
    && e.scope == scope && e.inputs == inputs
    && StandsAt(bm25, target, e.bm25Rank) && StandsAt(ann, target, e.annRank)
    && e.returnedCount == (if |totals.Keys| < inputs.cutoff then |totals.Keys| else inputs.cutoff)
    && (e.targetPresent <==>
          target in totals && |HigherDocs(totals, score)| + |TiedDocs(totals, score)| <= inputs.cutoff)
    && e.targetRank == (if e.targetPresent then Some(|HigherDocs(totals, score)| + 1) else None)
    && Close(e.targetScore, score)
    && (e.boundary.Some? <==> inputs.cutoff <= |totals.Keys|)
    && (e.boundary.Some? ==> exists b :: IsBoundary(totals, inputs.cutoff, b) && Close(e.boundary.value, b))
  }

  lemma PlaceCounts(fusion: Fusion, t: real)
    requires Distinct(fusion.docs) && ToSet(fusion.docs) == fusion.totals.Keys
    ensures |fusion.docs| == |fusion.totals.Keys|
    ensures StrictlyHigher(fusion, t) == |HigherDocs(fusion.totals, t)|
    ensures TiedCount(fusion, t) == |TiedDocs(fusion.totals, t)|
  {
    hide Close;
    DistinctCard(fusion.docs);
    DocsOfTotals(fusion);
    CountIfCard(fusion.docs, IsHigher(fusion, t));
    CountIfCard(fusion.docs, IsTied(fusion, t));
    assert HigherDocs(fusion.totals, t) == Matching(fusion.docs, IsHigher(fusion, t));
    assert TiedDocs(fusion.totals, t) == Matching(fusion.docs, IsTied(fusion, t));
  }

  lemma DocsOfTotals(fusion: Fusion)
    requires ToSet(fusion.docs) == fusion.totals.Keys
    ensures forall doc: Doc :: doc in fusion.docs <==> doc in fusion.totals
  {
    forall doc: Doc ensures doc in fusion.docs <==> doc in fusion.totals {
      assert doc in fusion.docs <==> doc in ToSet(fusion.docs);
    }
  }

  /** The counts determine the boundary. */
  lemma BoundaryIsUnique(fusion: Fusion, cutoff: nat, b: real)
    requires cutoff >= 1 && Distinct(fusion.docs) && ToSet(fusion.docs) == fusion.totals.Keys
    requires Boundary(fusion, cutoff).Some?
    ensures IsBoundary(fusion.totals, cutoff, b) <==> b == Boundary(fusion, cutoff).value
  {
    hide Boundary;
    var (own, totals) := (Boundary(fusion, cutoff).value, fusion.totals);
    var above, reaching := (doc: Doc) => TotalOf(fusion, doc) > own, (doc: Doc) => TotalOf(fusion, doc) >= own;
    BoundaryCounts(fusion, cutoff, above, reaching);
    DocsOfTotals(fusion);
    CountIfCard(fusion.docs, above);
    CountIfCard(fusion.docs, reaching);
    assert Above(totals, own) == Matching(fusion.docs, above);
    assert Reaching(totals, own) == Matching(fusion.docs, reaching);
    if b < own {
      SubsetCard(Reaching(totals, own), Above(totals, b));
    } else if own < b {
      SubsetCard(Reaching(totals, b), Above(totals, own));
    }
  }

  lemma PlacesMean(rows: seq<Row>, ranks: map<Doc, nat>, doc: Doc, rank: Option<nat>)
    requires Unrepeated(rows) && Remembers(ranks, rows)
    ensures StandsAt(rows, doc, rank) <==> rank == Found(ranks, doc)
  {
    if doc in ranks {
      var row :| row in rows && row.doc == doc;
    }
  }

  /** Repeating the fused rows is stating the facts. */
  lemma AgreesStatesFacts(e: Evidence, fusion: Fusion, bm25: seq<Row>, ann: seq<Row>, inputs: Inputs, scope: Scope,
                          target: Doc)
    requires ValidInputs(inputs) && Unrepeated(bm25) && Unrepeated(ann) && Fuses(fusion, bm25, ann, inputs)
    ensures Agrees(e, fusion, inputs, scope, target) <==>
            StatesFacts(e, scope, bm25, ann, inputs, target, fusion.totals)
  {
    hide Close, Unrepeated, ToSet, Distinct, StandsAt, IsBoundary, Remembers, ReciprocalRanks, HigherDocs, TiedDocs,
      Docs, Found, StrictlyHigher, TiedCount, Ordered, Boundary, RankIn, ExpectedScore;
    ScoresByRank(fusion, bm25, ann, inputs);
    PlacesMean(bm25, fusion.bm25, target, e.bm25Rank);
    PlacesMean(ann, fusion.ann, target, e.annRank);
    PlaceCounts(fusion, TotalOf(fusion, target));
    ShortListCounts(fusion, target, inputs.cutoff);
    BoundaryStated(fusion, inputs.cutoff, e.boundary);
  }

  lemma BoundaryStated(fusion: Fusion, cutoff: nat, stated: Option<real>)
    requires cutoff >= 1 && Distinct(fusion.docs) && ToSet(fusion.docs) == fusion.totals.Keys
    ensures Boundary(fusion, cutoff).Some? <==> cutoff <= |fusion.docs|
    ensures Boundary(fusion, cutoff).Some? && stated.Some? ==>
      (Close(stated.value, Boundary(fusion, cutoff).value) <==>
       exists b :: IsBoundary(fusion.totals, cutoff, b) && Close(stated.value, b))
  {
    hide Close, IsBoundary, Boundary;
    BoundaryExists(fusion, cutoff);
    if Boundary(fusion, cutoff).Some? {
      forall b { BoundaryIsUnique(fusion, cutoff, b); }
    }
  }

  lemma BoundaryExists(fusion: Fusion, cutoff: nat)
    requires cutoff >= 1
    ensures Boundary(fusion, cutoff).Some? <==> |fusion.docs| >= cutoff
  {
    PermutationMembers(Values(fusion, fusion.docs), Ordered(fusion));
  }

  method CountAhead(fusion: Fusion, target: real) returns (higher: nat, tied: nat)
    ensures higher == StrictlyHigher(fusion, target) && tied == TiedCount(fusion, target)
  {
    higher, tied := 0, 0;
    for i := 0 to |fusion.docs|
      invariant higher == CountIf(fusion.docs[..i], IsHigher(fusion, target))
      invariant tied == CountIf(fusion.docs[..i], IsTied(fusion, target))
    {
      CountIfStep(fusion.docs, i, IsHigher(fusion, target));
      CountIfStep(fusion.docs, i, IsTied(fusion, target));
      var score := TotalOf(fusion, fusion.docs[i]);
      if score > target && !Close(score, target) { higher := higher + 1; }
      if Close(score, target) { tied := tied + 1; }
    }
    assert fusion.docs[..|fusion.docs|] == fusion.docs;
  }

  lemma FusionNonNegative(fusion: Fusion, bm25: seq<Row>, ann: seq<Row>, inputs: Inputs)
    requires ValidInputs(inputs) && Fuses(fusion, bm25, ann, inputs)
    ensures NonNegative(fusion)
    ensures forall doc | doc in fusion.docs :: TotalOf(fusion, doc) > 0.0
    ensures forall doc: Doc :: doc in fusion.docs <==> doc in Docs(bm25) + Docs(ann)
  {
    forall doc: Doc ensures doc in fusion.docs <==> doc in ToSet(fusion.docs) {}
    forall doc | doc in fusion.totals
      ensures fusion.totals[doc] > 0.0
    {
      FusedPositive(fusion, bm25, ann, inputs, doc);
    }
  }

  lemma BoundaryPositive(fusion: Fusion, cutoff: nat)
    requires cutoff >= 1 && forall doc | doc in fusion.docs :: TotalOf(fusion, doc) > 0.0
    ensures Boundary(fusion, cutoff).Some? <==> |fusion.docs| >= cutoff
    ensures Boundary(fusion, cutoff).Some? ==> Boundary(fusion, cutoff).value > 0.0
  {
    PermutationMembers(Values(fusion, fusion.docs), Ordered(fusion));
    if Boundary(fusion, cutoff).Some? {
      var b := Boundary(fusion, cutoff).value;
      assert b in Values(fusion, fusion.docs);
      var i :| 0 <= i < |fusion.docs| && Values(fusion, fusion.docs)[i] == b;
      assert fusion.docs[i] in fusion.docs;
    }
  }

  /** A present target's rank fits the returned list. */
  lemma RankFits(fusion: Fusion, target: Doc, cutoff: nat)
    requires Present(fusion, target, cutoff) && target in fusion.docs
    ensures StrictlyHigher(fusion, TotalOf(fusion, target)) + TiedCount(fusion, TotalOf(fusion, target))
              <= Min(|fusion.docs|, cutoff)
    ensures TiedCount(fusion, TotalOf(fusion, target)) >= 1
  {
    var t := TotalOf(fusion, target);
    CloseSymmetric(t, t);
    assert IsTied(fusion, t)(target);
    CountIfBounds(fusion.docs, IsTied(fusion, t));
    AheadCount(fusion, t, fusion.docs);
    CountIfBounds(fusion.docs, IsAhead(fusion, t));
  }

  lemma UnionCounts(fusion: Fusion, bm25: seq<Row>, ann: seq<Row>, inputs: Inputs, target: Doc)
    requires inputs.rankConstant >= 1 && Ranked(bm25) && Ranked(ann) && Fuses(fusion, bm25, ann, inputs)
    ensures |bm25| <= |fusion.docs| && |ann| <= |fusion.docs|
    ensures |fusion.docs| + (if RankIn(bm25, target).Some? && RankIn(ann, target).Some? then 1 else 0) <= |bm25| + |ann|
  {
    DocsCard(bm25);
    DocsCard(ann);
    DistinctCard(fusion.docs);
    SubsetCard(Docs(bm25), Docs(bm25) + Docs(ann));
    SubsetCard(Docs(ann), Docs(bm25) + Docs(ann));
    RankInMeans(bm25, target);
    RankInMeans(ann, target);
    assert |Docs(bm25) + Docs(ann)| + |Docs(bm25) * Docs(ann)| == |bm25| + |ann|;
    if target in Docs(bm25) && target in Docs(ann) {
      SubsetCard({target}, Docs(bm25) * Docs(ann));
    }
  }

  /** Every evidence that repeats the fused facts exactly passes the contract, whose derivation never
      raises on it. */
  lemma AgreementIsValid(e: Evidence, fusion: Fusion, bm25: seq<Row>, ann: seq<Row>, target: Doc)
    requires ValidInputs(e.inputs) && Fuses(fusion, bm25, ann, e.inputs)
    requires Agrees(e, fusion, e.inputs, e.scope, target)
    requires e.targetScore == TotalOf(fusion, target) && e.boundary == Boundary(fusion, e.inputs.cutoff)
    requires e.scope == NoFilterCounterfactual ==> e.filter == None
    requires e.filter == Some(NotMatched) ==> !HasInput(e)
    requires e.relation == (if e.targetPresent then TargetPresent
                            else if e.boundary.None? || Close(e.targetScore, e.boundary.value) then NotObservable
                            else OutsideCandidates)
    requires e.certainty == CertaintyOf(e.relation, e.scope)
    ensures ValidEvidence(e)
  {
    var t, cutoff := TotalOf(fusion, target), e.inputs.cutoff;
    FusionNonNegative(fusion, bm25, ann, e.inputs);
    BoundaryPositive(fusion, cutoff);
    RankInMeans(bm25, target);
    RankInMeans(ann, target);
    CloseSymmetric(t, t);
    assert Found(fusion.bm25, target) == RankIn(bm25, target) && Found(fusion.ann, target) == RankIn(ann, target);
    assert t == ExpectedScore(e.bm25Rank, e.annRank, e.inputs);
    if target in fusion.docs {
      if e.targetPresent {
        RankFits(fusion, target, cutoff);
        if e.boundary.Some? { PresentReachesBoundary(fusion, target, cutoff); }
      } else if e.boundary.Some? {
        AbsentBelowBoundary(fusion, target, cutoff);
      }
    }
  }

  /** Membership that no admissible order of tied scores can overturn. */
  ghost predicate WorstCasePresent(bm25: seq<Row>, ann: seq<Row>, fusion: Fusion, target: Doc, cutoff: nat) {
    && target in Docs(bm25) + Docs(ann)
    && forall order: seq<Doc>, i: nat | Admissible(order, fusion, target) && i < |order| && order[i] == target ::
        i < cutoff
  }

  lemma WorstCase(fusion: Fusion, bm25: seq<Row>, ann: seq<Row>, inputs: Inputs, target: Doc)
    requires ValidInputs(inputs) && Fuses(fusion, bm25, ann, inputs)
    ensures Present(fusion, target, inputs.cutoff) <==> WorstCasePresent(bm25, ann, fusion, target, inputs.cutoff)
  {
    PresentMeansWorstCase(fusion, target, inputs.cutoff);
  }

  /** The boundary, rank and membership facts of one fused list, computed as the diagnostics do. */
  method TargetFacts(fusion: Fusion, inputs: Inputs, target: Doc)
    returns (score: real, boundary: Option<real>, returned: nat, present: bool, rank: Option<nat>)
    requires inputs.cutoff >= 1
    ensures score == TotalOf(fusion, target) && boundary == Boundary(fusion, inputs.cutoff)
    ensures returned == Min(|fusion.docs|, inputs.cutoff)
    ensures present == Present(fusion, target, inputs.cutoff)
    ensures rank == if present then Some(StrictlyHigher(fusion, score) + 1) else None
  {
    var ordered := Ordered(fusion);
    returned := Min(|ordered|, inputs.cutoff);
    boundary := if |ordered| >= inputs.cutoff then Some(ordered[inputs.cutoff - 1]) else None;
    score := TotalOf(fusion, target);
    var higher, tied := CountAhead(fusion, score);
    present := target in fusion.totals && (|ordered| <= inputs.cutoff || higher + tied <= inputs.cutoff);
    rank := if present then Some(higher + 1) else None;
  }

  /** Build the evidence of one scope from its two candidate lists. */
  method BuildEvidence(scope: Scope, root: Option<FilterResult>, bm25: seq<Row>, ann: seq<Row>, inputs: Inputs,
                       target: Doc)
    returns (r: Result<Evidence, Rejection>)
    requires ValidInputs(inputs) && Ranked(bm25) && Ranked(ann)
    ensures r.Err? <==> scope == StoredQuery && root == Some(NotMatched) && target in Docs(bm25) + Docs(ann)
    ensures ReciprocalRanks(Fused(bm25, ann, inputs).totals, bm25, ann, inputs)
    ensures r.Ok? ==>
      && StatesFacts(r.value, scope, bm25, ann, inputs, target, Fused(bm25, ann, inputs).totals)
      && r.value.targetScore == ScoreIn(Fused(bm25, ann, inputs).totals, target)
      && (r.value.boundary.Some? ==>
            IsBoundary(Fused(bm25, ann, inputs).totals, inputs.cutoff, r.value.boundary.value))
      && r.value.filter == (if scope == StoredQuery then root else None)
      && StatesRelation(r.value) && StatesCertainty(r.value.relation, scope, r.value.certainty)
    ensures r.Ok? ==>
      && ValidEvidence(r.value) && Agrees(r.value, Fused(bm25, ann, inputs), inputs, scope, target)
      && WithinUnion(r.value, |bm25|, |ann|)
      && (r.value.targetPresent <==> WorstCasePresent(bm25, ann, Fused(bm25, ann, inputs), target, inputs.cutoff))
  {
    hide Fused, ValidEvidence, WorstCasePresent, TotalOf, ScoreIn, Present, StrictlyHigher, Boundary, Distinct,
      ReciprocalRanks, Remembers, StatesFacts, IsBoundary, StatesRelation, StatesCertainty;
    var fused := Fuse(bm25, ann, inputs);
    RankInMeans(bm25, target);
    RankInMeans(ann, target);
    var bm25Rank, annRank := Found(fused.bm25, target), Found(fused.ann, target);
    if scope == StoredQuery && root == Some(NotMatched) && (bm25Rank.Some? || annRank.Some?) {
      return Err(InvalidRrf);
    }
    UnionCounts(fused, bm25, ann, inputs, target);
    WorstCase(fused, bm25, ann, inputs, target);
    FusionNonNegative(fused, bm25, ann, inputs);
    var e := AssembleEvidence(scope, if scope == StoredQuery then root else None, fused, bm25, ann, inputs, target);
    AgreesStatesFacts(e, fused, bm25, ann, inputs, scope, target);
    ExactFacts(fused, bm25, ann, inputs, target);
    return Ok(e);
  }

  lemma ExactFacts(fusion: Fusion, bm25: seq<Row>, ann: seq<Row>, inputs: Inputs, target: Doc)
    requires ValidInputs(inputs) && Fuses(fusion, bm25, ann, inputs)
    ensures TotalOf(fusion, target) == ScoreIn(fusion.totals, target)
    ensures Boundary(fusion, inputs.cutoff).Some? ==>
              IsBoundary(fusion.totals, inputs.cutoff, Boundary(fusion, inputs.cutoff).value)
  {
    if Boundary(fusion, inputs.cutoff).Some? {
      BoundaryIsUnique(fusion, inputs.cutoff, Boundary(fusion, inputs.cutoff).value);
    }
  }

  /** What the membership, the score and the boundary let one conclude. */
  predicate StatesRelation(e: Evidence) {
    && (e.relation == TargetPresent <==> e.targetPresent)
    && (e.relation == OutsideCandidates <==>
          !e.targetPresent && e.boundary.Some? && !Close(e.targetScore, e.boundary.value))
    && (e.relation == NotObservable <==>
          !e.targetPresent && (e.boundary.Some? ==> Close(e.targetScore, e.boundary.value)))
  }

  method AssembleEvidence(scope: Scope, filter: Option<FilterResult>, fusion: Fusion, ghost bm25: seq<Row>,
                          ghost ann: seq<Row>, inputs: Inputs, target: Doc)
    returns (e: Evidence)
    requires ValidInputs(inputs) && Fuses(fusion, bm25, ann, inputs)
    requires scope == NoFilterCounterfactual ==> filter == None
    requires filter == Some(NotMatched) ==> Found(fusion.bm25, target) == None && Found(fusion.ann, target) == None
    ensures e.inputs == inputs && ValidEvidence(e) && Agrees(e, fusion, inputs, scope, target)
    ensures e.targetScore == TotalOf(fusion, target) && e.boundary == Boundary(fusion, inputs.cutoff)
    ensures e.filter == filter && StatesRelation(e) && StatesCertainty(e.relation, scope, e.certainty)
  {
    hide Fuses, Close, TotalOf, Present, StrictlyHigher, Boundary, ValidEvidence;
    var score, boundary, returned, present, rank := TargetFacts(fusion, inputs, target);
    var relation := if present then TargetPresent
                    else if boundary.None? || Close(score, boundary.value) then NotObservable else OutsideCandidates;
    e := Evidence(scope, filter, Found(fusion.bm25, target), Found(fusion.ann, target), inputs, returned, present, rank,
                  score, boundary, relation, CertaintyOf(relation, scope));
    CloseSymmetric(score, score);
    if boundary.Some? { CloseSymmetric(boundary.value, boundary.value); }
    AgreementIsValid(e, fusion, bm25, ann, target);
  }

  /** The independent recomputation: any evidence it lets through states the worst-case membership. */
  method CrossCheck(e: Evidence, bm25: seq<Row>, ann: seq<Row>, inputs: Inputs, scope: Scope, target: Doc)
    returns (ok: bool)
    requires ValidInputs(inputs) && Ranked(bm25) && Ranked(ann)
    ensures ok <==> Agrees(e, Fused(bm25, ann, inputs), inputs, scope, target)
    ensures ReciprocalRanks(Fused(bm25, ann, inputs).totals, bm25, ann, inputs)
    ensures ok <==> StatesFacts(e, scope, bm25, ann, inputs, target, Fused(bm25, ann, inputs).totals)
    ensures ok ==> (e.targetPresent <==> WorstCasePresent(bm25, ann, Fused(bm25, ann, inputs), target, inputs.cutoff))
  {
    hide Close, TotalOf, WorstCasePresent, Ordered, Present, StrictlyHigher, Boundary, Found, Fuses, Fused,
      ReciprocalRanks, Remembers, StatesFacts;
    var fused := Fuse(bm25, ann, inputs);
    var score, boundary, returned, present, rank := TargetFacts(fused, inputs, target);
    WorstCase(fused, bm25, ann, inputs, target);
    AgreesStatesFacts(e, fused, bm25, ann, inputs, scope, target);
    ok := e.scope == scope && e.inputs == inputs
          && e.bm25Rank == Found(fused.bm25, target) && e.annRank == Found(fused.ann, target)
          && e.returnedCount == returned && e.targetPresent == present && e.targetRank == rank
          && Close(e.targetScore, score)
          && e.boundary.Some? == boundary.Some?
          && (boundary.Some? ==> Close(e.boundary.value, boundary.value));
  }
}
