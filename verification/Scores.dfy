/** Scores of ranked candidate lists over exact reals, and their tolerance. */
module Scores {
  import opened Collections

  type Doc = nat

  datatype Row = Row(doc: Doc, rank: nat, score: real)

  datatype Scope = StoredQuery | NoFilterCounterfactual

  /** What the stored filter says about the target, if there is one. */
  datatype FilterResult = Matched | NotMatched | FilterNotObservable

  datatype Relation = TargetPresent | OutsideCandidates | AnnCandidateMiss | NoLexicalScore | NotObservable

  datatype Certainty = Observed | Counterfactual | Insufficient

  datatype Rejection = InvalidCandidates | InvalidRrf

  const REL := 0.000000000001
  const ABS := 0.000000000000001

  function Abs(x: real): real {
    if x < 0.0 then -x else x
  }

  function Max(x: real, y: real): real {
    if x < y then y else x
  }

  /** Relative or absolute tolerance, whichever is larger. */
  predicate Close(a: real, b: real) {
    Abs(a - b) <= Max(REL * Max(Abs(a), Abs(b)), ABS)
  }

  /** Two values are close when they differ by at most 1e-15, or by at most 1e-12 of the size of one of them. */
  lemma CloseMeans(a: real, b: real)
    ensures var d := if a < b then b - a else a - b;
            Close(a, b) <==> d <= 0.000000000000001
                             || d <= a * 0.000000000001 || d <= -a * 0.000000000001
                             || d <= b * 0.000000000001 || d <= -b * 0.000000000001
  {
  }

  /** Moving further up from a clearly lower value stays clear. */
  lemma ClearlyAbove(low: real, high: real, higher: real)
    requires 0.0 <= low < high <= higher && !Close(high, low)
    ensures !Close(higher, low)
  {
  }

  /** Moving further down from a clearly higher value stays clear. */
  lemma ClearlyBelow(lower: real, low: real, high: real)
    requires 0.0 <= lower <= low < high && !Close(low, high)
    ensures !Close(lower, high)
  {
  }

  lemma CloseSymmetric(a: real, b: real)
    ensures Close(a, b) <==> Close(b, a)
    ensures Close(a, a)
  {
  }

  /** The tolerance is not transitive, so ties do not form classes. */
  lemma CloseNotTransitive()
    ensures exists a: real, b: real, c: real :: Close(a, b) && Close(b, c) && !Close(a, c)
  {
    assert Close(0.0, ABS) && Close(ABS, 2.0 * ABS) && !Close(0.0, 2.0 * ABS);
  }

  /** Unique documents, ranked from one. */
  predicate Ranked(rows: seq<Row>) {
    && (forall i | 0 <= i < |rows| :: rows[i].rank == i + 1)
    && (forall i, j | 0 <= i < j < |rows| :: rows[i].doc != rows[j].doc)
  }

  function Docs(rows: seq<Row>): set<Doc> {
    set row | row in rows :: row.doc
  }

  lemma {:induction false} DocsCard(rows: seq<Row>)
    requires forall i, j | 0 <= i < j < |rows| :: rows[i].doc != rows[j].doc
    ensures |Docs(rows)| == |rows|
  {
    if rows != [] {
      var rest := rows[..|rows| - 1];
      DocsCard(rest);
      var last := rows[|rows| - 1];
      assert last.doc !in Docs(rest);
      assert Docs(rows) == Docs(rest) + {last.doc} by {
        assert rows == rest + [last];
      }
    }
  }

  /** A relation that could not be observed is insufficient; any other is counterfactual exactly without the
      stored filter. */
  predicate StatesCertainty(relation: Relation, scope: Scope, certainty: Certainty) {
    && (certainty == Insufficient <==> relation == NotObservable)
    && (certainty == Counterfactual <==> relation != NotObservable && scope == NoFilterCounterfactual)
  }

  /** Position-independent certainty of a bounded relation. */
  function CertaintyOf(relation: Relation, scope: Scope): Certainty {
    if relation == NotObservable then Insufficient
    else if scope == NoFilterCounterfactual then Counterfactual
    else Observed
  }
}
