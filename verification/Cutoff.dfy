/** Candidate cutoff evidence: validation of one candidate list, the relation inferred for the target, and
    the soundness of that inference. */
module Cutoff {
  import opened Collections
  import opened Scores

  datatype Signal = Bm25 | Ann

  datatype Failure = Invalid(reason: Rejection) | ContractViolation

  datatype Evidence = Evidence(
    scope: Scope,
    filter: Option<FilterResult>,
    signal: Signal,
    requestedLimit: nat,
    returnedCount: nat,
    targetPresent: bool,
    targetRank: Option<nat>,
    targetScore: Option<real>,
    directScore: real,
    boundary: Option<real>,
    relation: Relation,
    certainty: Certainty)

  // ----- One candidate list

  predicate Ordered(signal: Signal, rows: seq<Row>) {
    forall i, j | 0 <= i < j < |rows| ::
      if signal == Bm25 then rows[i].score >= rows[j].score else rows[i].score <= rows[j].score
  }

  predicate ValidRows(signal: Signal, rows: seq<Row>, limit: nat) {
    && |rows| <= limit && Ranked(rows) && Ordered(signal, rows)
    && (forall row | row in rows :: row.score >= 0.0 && (signal == Bm25 ==> row.score > 0.0))
  }

  function TargetRow(rows: seq<Row>, target: Doc): Option<Row> {
    if rows == [] then None
    else if rows[|rows| - 1].doc == target then Some(rows[|rows| - 1])
    else TargetRow(rows[..|rows| - 1], target)
  }

  lemma {:induction false} TargetRowMeans(rows: seq<Row>, target: Doc)
    ensures TargetRow(rows, target).Some? <==> target in Docs(rows)
    ensures TargetRow(rows, target).Some? ==>
              TargetRow(rows, target).value in rows && TargetRow(rows, target).value.doc == target
  {
    if rows != [] {
      TargetRowMeans(rows[..|rows| - 1], target);
      assert rows == rows[..|rows| - 1] + [rows[|rows| - 1]];
    }
  }

  /** Scan the rows once: contiguous ranks, unique documents, ordered scores; remember the target's row. */
  method ScanRows(signal: Signal, rows: seq<Row>, limit: nat, target: Doc, available: bool)
    returns (r: Result<Option<Row>, Rejection>)
    ensures r.Ok? <==> ValidRows(signal, rows, limit) && (available || target !in Docs(rows))
    ensures r.Ok? ==> r.value == TargetRow(rows, target)
  {
    if |rows| > limit { return Err(InvalidCandidates); }
    var seen: set<Doc>, found: Option<Row> := {}, None;
    for i := 0 to |rows|
      invariant seen == Docs(rows[..i]) && found == TargetRow(rows[..i], target)
      invariant ValidRows(signal, rows[..i], limit)
    {
      var row := rows[i];
      assert rows[..i + 1] == rows[..i] + [row];
      if row.rank != i + 1 || row.doc in seen || row.score < 0.0 || (signal == Bm25 && row.score == 0.0)
         || (i > 0 && if signal == Bm25 then row.score > rows[i - 1].score else row.score < rows[i - 1].score) {
        PrefixRefuses(signal, rows, limit, i);
        return Err(InvalidCandidates);
      }
      RowExtends(signal, rows, limit, i);
      seen := seen + {row.doc};
      if row.doc == target { found := Some(row); }
    }
    assert rows[..|rows|] == rows;
    TargetRowMeans(rows, target);
    if !available && found.Some? { return Err(InvalidCandidates); }
    return Ok(found);
  }

  lemma RowExtends(signal: Signal, rows: seq<Row>, limit: nat, i: nat)
    requires i < |rows| <= limit && ValidRows(signal, rows[..i], limit)
    requires rows[i].rank == i + 1 && rows[i].doc !in Docs(rows[..i]) && rows[i].score >= 0.0
    requires signal == Bm25 ==> rows[i].score > 0.0
    requires i > 0 ==> if signal == Bm25 then rows[i].score <= rows[i - 1].score else rows[i].score >= rows[i - 1].score
    ensures ValidRows(signal, rows[..i + 1], limit)
  {
    var prefix, longer := rows[..i], rows[..i + 1];
    assert longer == prefix + [rows[i]];
    OrderExtends(signal, prefix, rows[i]);
    RankExtends(prefix, rows[i]);
  }

  lemma RankExtends(prefix: seq<Row>, row: Row)
    requires Ranked(prefix) && row.rank == |prefix| + 1 && row.doc !in Docs(prefix)
    ensures Ranked(prefix + [row])
  {
    assert forall k | 0 <= k < |prefix| :: prefix[k] in prefix;
  }

  lemma OrderExtends(signal: Signal, prefix: seq<Row>, row: Row)
    requires Ordered(signal, prefix)
    requires |prefix| > 0 ==>
               if signal == Bm25 then row.score <= prefix[|prefix| - 1].score
                   else row.score >= prefix[|prefix| - 1].score
    ensures Ordered(signal, prefix + [row])
  {
  }

  lemma PrefixRefuses(signal: Signal, rows: seq<Row>, limit: nat, i: nat)
    requires i < |rows|
    requires rows[i].rank != i + 1 || rows[i].doc in Docs(rows[..i]) || rows[i].score < 0.0
               || (signal == Bm25 && rows[i].score == 0.0)
             || (i > 0 && if signal == Bm25 then rows[i].score > rows[i - 1].score
                 else rows[i].score < rows[i - 1].score)
    ensures !ValidRows(signal, rows, limit)
  {
    assert rows[i] in rows;
    if rows[i].doc in Docs(rows[..i]) {
      var row :| row in rows[..i] && row.doc == rows[i].doc;
      var k :| 0 <= k < i && rows[k] == row;
    }
  }

  // ----- The contract

  predicate Ineligible(scope: Scope, filter: Option<FilterResult>) {
    scope == StoredQuery && (filter == Some(NotMatched) || filter == Some(FilterNotObservable))
  }

  /** The contract's derivation; it raises when an absent eligible target scores above a full boundary. */
  function DeriveRelation(e: Evidence): Option<Relation> {
    if e.targetPresent then Some(TargetPresent)
    else if e.signal == Bm25 && e.directScore == 0.0 then Some(NoLexicalScore)
    else if e.boundary.None? || Close(e.directScore, e.boundary.value) then Some(NotObservable)
    else if e.signal == Bm25 then
      if e.directScore > e.boundary.value then if Ineligible(e.scope, e.filter) then Some(NotObservable) else None
      else Some(OutsideCandidates)
    else if e.directScore < e.boundary.value then
      Some(if Ineligible(e.scope, e.filter) then NotObservable else AnnCandidateMiss)
    else Some(OutsideCandidates)
  }

  predicate ValidScore(score: real, signal: Signal, direct: bool) {
    score >= 0.0 && (!direct && signal == Bm25 ==> score > 0.0)
  }

  predicate ValidEvidence(e: Evidence) {
    && (e.scope == NoFilterCounterfactual ==> e.filter == None)
    && e.returnedCount <= e.requestedLimit
    && ValidScore(e.directScore, e.signal, true)
    && (e.targetScore.Some? ==> ValidScore(e.targetScore.value, e.signal, false))
    && (e.boundary.Some? ==> ValidScore(e.boundary.value, e.signal, false))
    && (if e.targetPresent then
          && e.filter != Some(NotMatched)
          && e.targetRank.Some? && e.targetScore.Some? && e.targetRank.value <= e.returnedCount
          && Close(e.targetScore.value, e.directScore)
          && !(e.signal == Bm25 && e.directScore == 0.0)
        else e.targetRank == None && e.targetScore == None)
    && (e.boundary.Some? <==> e.returnedCount == e.requestedLimit)
    && (e.targetPresent && e.boundary.Some? ==>
          || Close(e.targetScore.value, e.boundary.value)
          || if e.signal == Bm25 then e.targetScore.value >= e.boundary.value
              else e.targetScore.value <= e.boundary.value)
    && DeriveRelation(e) == Some(e.relation)
    && e.certainty == CertaintyOf(e.relation, e.scope)
  }

  // ----- The builder

  function CandidateRelation(signal: Signal, direct: real, present: bool, boundary: Option<real>): Option<Relation> {
    if present then Some(TargetPresent)
    else if signal == Bm25 && direct == 0.0 then Some(NoLexicalScore)
    else if boundary.None? || Close(direct, boundary.value) then Some(NotObservable)
    else if signal == Bm25 then if direct > boundary.value then None else Some(OutsideCandidates)
    else if direct < boundary.value then Some(AnnCandidateMiss)
    else Some(OutsideCandidates)
  }

  predicate Beats(signal: Signal, direct: real, boundary: real) {
    if signal == Bm25 then direct > boundary else direct < boundary
  }

  /** An absent, eligible target with a lexical score clearly above a full BM25 boundary. */
  predicate Contradictory(scope: Scope, filter: Option<FilterResult>, signal: Signal, rows: seq<Row>, limit: nat,
                          target: Doc, direct: real) {
    && target !in Docs(rows) && signal == Bm25 && direct > 0.0 && !Ineligible(scope, filter)
    && |rows| == limit && |rows| > 0 && !Close(direct, rows[|rows| - 1].score) && direct > rows[|rows| - 1].score
  }

  /** The target's own row disagrees with its direct score, or appears although the filter excludes it. */
  predicate Misplaced(filter: Option<FilterResult>, rows: seq<Row>, target: Doc, direct: real) {
    && TargetRow(rows, target).Some?
    && (!Close(TargetRow(rows, target).value.score, direct) || filter == Some(NotMatched))
  }

  /** A listed BM25 target whose direct score is zero, which only the tolerance lets through to the contract. */
  predicate ZeroListed(signal: Signal, rows: seq<Row>, target: Doc, direct: real) {
    signal == Bm25 && direct == 0.0 && target in Docs(rows)
  }

  /** Build the evidence of one validated list. It is refused exactly for a contradictory or misplaced
      target, and the contract rejects what was built exactly for a listed zero-score BM25 target. */
  method CandidateEvidence(scope: Scope, root: Option<FilterResult>, signal: Signal, rows: seq<Row>, limit: nat,
                           target: Doc, direct: real)
    returns (r: Result<Evidence, Failure>)
    requires ValidRows(signal, rows, limit) && limit > 0 && direct >= 0.0
    ensures var filter := if scope == StoredQuery then root else None;
      && (r == Err(Invalid(InvalidCandidates)) <==>
            Misplaced(filter, rows, target, direct)
                || Contradictory(scope, filter, signal, rows, limit, target, direct))
      && (r == Err(ContractViolation) <==>
          !Misplaced(filter, rows, target, direct) && ZeroListed(signal, rows, target, direct))
      && (r.Ok? ==> ValidEvidence(r.value))
      && (r.Ok? ==> r.value.filter == filter && r.value.scope == scope && r.value.signal == signal)
      && (r.Ok? ==> r.value.directScore == direct && r.value.returnedCount == |rows| && r.value.requestedLimit == limit)
      && (r.Ok? ==> (r.value.targetPresent <==> target in Docs(rows)))
      // The target's rank and score are those of its one listed row, which stands at that rank.
      && (r.Ok? && target in Docs(rows) ==>
            && r.value.targetRank.Some? && 0 < r.value.targetRank.value <= |rows|
            && rows[r.value.targetRank.value - 1].doc == target
            && r.value.targetScore == Some(rows[r.value.targetRank.value - 1].score))
      && (r.Ok? && target !in Docs(rows) ==> r.value.targetRank == None && r.value.targetScore == None)
      && (r.Ok? ==> r.value.boundary == if |rows| == limit then Some(rows[|rows| - 1].score) else None)
      // What follows from the list, the score of its last row, and the filter.
      && (r.Ok? ==> (r.value.relation == TargetPresent <==> target in Docs(rows)))
      && (r.Ok? ==> (r.value.relation == NoLexicalScore <==> target !in Docs(rows) && signal == Bm25 && direct == 0.0))
      && (r.Ok? ==> (r.value.relation == OutsideCandidates <==>
            && target !in Docs(rows) && |rows| == limit && !Close(direct, rows[|rows| - 1].score)
            && if signal == Bm25 then 0.0 < direct < rows[|rows| - 1].score else rows[|rows| - 1].score < direct))
      && (r.Ok? ==> (r.value.relation == AnnCandidateMiss <==>
            && target !in Docs(rows) && signal == Ann && |rows| == limit
            && !Close(direct, rows[|rows| - 1].score) && direct < rows[|rows| - 1].score
            && !(scope == StoredQuery && (root == Some(NotMatched) || root == Some(FilterNotObservable)))))
      && (r.Ok? ==> StatesCertainty(r.value.relation, scope, r.value.certainty))
  {
    hide Docs, TargetRow;
    var row := TargetRow(rows, target);
    TargetRowMeans(rows, target);
    if row.Some? && !Close(row.value.score, direct) { return Err(Invalid(InvalidCandidates)); }
    var filter := if scope == StoredQuery then root else None;
    if filter == Some(NotMatched) && row.Some? { return Err(Invalid(InvalidCandidates)); }
    var boundary := if |rows| == limit then Some(rows[|rows| - 1].score) else None;
    var ineligible := Ineligible(scope, filter) && row.None?;
    var override := ineligible && boundary.Some? && !Close(direct, boundary.value)
        && Beats(signal, direct, boundary.value);
    var relation := if override then Some(NotObservable) else CandidateRelation(signal, direct, row.Some?, boundary);
    if relation.None? { return Err(Invalid(InvalidCandidates)); }
    var e := Evidence(scope, filter, signal, limit, |rows|, row.Some?,
                      if row.Some? then Some(row.value.rank) else None,
                      if row.Some? then Some(row.value.score) else None,
                      direct, boundary, relation.value, CertaintyOf(relation.value, scope));
    if row.Some? {
      var k :| 0 <= k < |rows| && rows[k] == row.value;
      assert rows[|rows| - 1] in rows;
    }
    return if ValidEvidence(e) then Ok(e) else Err(ContractViolation);
  }

  /** The tolerance does let such a target through. */
  lemma ZeroScoreCanBeListed()
    ensures exists rows: seq<Row>, target: Doc ::
              ValidRows(Bm25, rows, 1) && ZeroListed(Bm25, rows, target, 0.0) && !Misplaced(None, rows, target, 0.0)
  {
    var rows := [Row(7, 1, ABS)];
    assert rows[0] in rows && TargetRow(rows, 7) == Some(rows[0]);
    assert ValidRows(Bm25, rows, 1) && ZeroListed(Bm25, rows, 7, 0.0) && !Misplaced(None, rows, 7, 0.0);
  }

  // ----- Soundness of the inference

  /** `rows` are the best `limit` eligible documents: every row is eligible with its true value, and an
      eligible document that is left out beats no row and is left out only by a full list. A lexical list
      ranks documents with a positive score only. */
  ghost predicate ExactBest(signal: Signal, rows: seq<Row>, limit: nat, eligible: set<Doc>, value: Doc -> real) {
    && (forall row | row in rows :: row.doc in eligible && row.score == value(row.doc))
    && (forall doc | doc in eligible && doc !in Docs(rows) && (signal == Bm25 ==> value(doc) > 0.0) ::
          |rows| == limit && forall row | row in rows :: !Beats(signal, value(doc), row.score))
  }

  /** For an exact lexical list and an eligible target the derivation never raises, and each relation says
      where the target really is. */
  lemma LexicalInferenceSound(e: Evidence, rows: seq<Row>, eligible: set<Doc>, value: Doc -> real, target: Doc)
    requires e.signal == Bm25 && e.requestedLimit > 0 && ValidRows(Bm25, rows, e.requestedLimit)
    requires ExactBest(Bm25, rows, e.requestedLimit, eligible, value) && target in eligible
    requires e.directScore == value(target) >= 0.0 && e.targetPresent == (target in Docs(rows))
               && e.returnedCount == |rows|
    requires e.boundary == if |rows| == e.requestedLimit then Some(rows[|rows| - 1].score) else None
    ensures DeriveRelation(e).Some?
    ensures DeriveRelation(e) == Some(TargetPresent) <==> target in Docs(rows)
    ensures DeriveRelation(e) == Some(NoLexicalScore) <==> target !in Docs(rows) && value(target) == 0.0
    ensures DeriveRelation(e) == Some(OutsideCandidates) ==>
      |rows| == e.requestedLimit && forall row | row in rows :: value(target) < row.score
    ensures DeriveRelation(e) == Some(NotObservable) ==>
              |rows| == e.requestedLimit && Close(value(target), rows[|rows| - 1].score)
  {
    if !e.targetPresent && e.directScore > 0.0 {
      var last := rows[|rows| - 1];
      assert last in rows && !Beats(Bm25, value(target), last.score);
      CloseSymmetric(e.directScore, last.score);
      forall row | row in rows ensures last.score <= row.score {
        var k :| 0 <= k < |rows| && rows[k] == row;
      }
    }
  }

  /** A candidate miss is concluded only when the returned list is not the exact nearest neighbours of the
      query among the eligible documents. */
  lemma CandidateMissSound(e: Evidence, rows: seq<Row>, eligible: set<Doc>, value: Doc -> real, target: Doc)
    requires e.signal == Ann && e.requestedLimit > 0 && ValidRows(Ann, rows, e.requestedLimit)
    requires target in eligible && e.directScore == value(target) && e.targetPresent == (target in Docs(rows))
    requires e.boundary == if |rows| == e.requestedLimit then Some(rows[|rows| - 1].score) else None
    ensures DeriveRelation(e) == Some(AnnCandidateMiss) ==>
      !ExactBest(Ann, rows, e.requestedLimit, eligible, value) && target !in Docs(rows)
          && value(target) < rows[|rows| - 1].score
    ensures DeriveRelation(e) == Some(OutsideCandidates) ==> forall row | row in rows :: value(target) > row.score
  {
    if DeriveRelation(e) == Some(AnnCandidateMiss) {
      assert rows[|rows| - 1] in rows && Beats(Ann, value(target), rows[|rows| - 1].score);
    }
    if DeriveRelation(e) == Some(OutsideCandidates) {
      CloseSymmetric(e.directScore, e.boundary.value);
      forall row | row in rows ensures value(target) > row.score {
        var k :| 0 <= k < |rows| && rows[k] == row;
      }
    }
  }
}
