/** Deterministic stratified selection: strata take turns choosing their best unselected query. */
module Selection {
  import opened Collections

  type QueryId = nat
  /** A stratum, by its place in the fixed order of turns. */
  type Tag = nat

  datatype Candidate = Candidate(id: QueryId, tags: set<Tag>)

  datatype Pick = Pick(candidate: Candidate, tag: Tag)

  /** The digest of a tag and an identifier, as a number; and the order of source identifiers. */
  datatype Keys = Keys(digest: (Tag, QueryId) -> nat, sourceLe: (QueryId, QueryId) -> bool)

  datatype Error = TooFewQueries

  function DigestLe(keys: Keys, tag: Tag): (Candidate, Candidate) -> bool {
    (a: Candidate, b: Candidate) => keys.digest(tag, a.id) <= keys.digest(tag, b.id)
  }

  function HasTag(tag: Tag): Candidate -> bool {
    (c: Candidate) => tag in c.tags
  }

  function Pool(candidates: seq<Candidate>, keys: Keys, tag: Tag): seq<Candidate> {
    Sort(Filter(candidates, HasTag(tag)), DigestLe(keys, tag))
  }

  function Pools(candidates: seq<Candidate>, keys: Keys, strata: nat): seq<seq<Candidate>> {
    seq(strata, (tag: nat) => Pool(candidates, keys, tag))
  }

  // ----- The declarative choice

  function Choice(pool: seq<Candidate>, taken: set<QueryId>): Option<Candidate> {
    if pool == [] then None
    else if pool[0].id !in taken then Some(pool[0])
    else Choice(pool[1..], taken)
  }

  function Ids(picks: seq<Pick>): set<QueryId> {
    set pick | pick in picks :: pick.candidate.id
  }

  /** The first stratum from `tag` on that still has an unselected member. */
  function NextTag(pools: seq<seq<Candidate>>, tag: Tag, taken: set<QueryId>): Option<Tag>
    decreases |pools| - tag
  {
    if tag >= |pools| then None
    else if Choice(pools[tag], taken).Some? then Some(tag)
    else NextTag(pools, tag + 1, taken)
  }

  /** Whose turn it is: the strata from `tag` on, then again from the first one. */
  function NextTurn(pools: seq<seq<Candidate>>, tag: Tag, taken: set<QueryId>): Option<Tag> {
    var later := NextTag(pools, tag, taken);
    if later.Some? then later else NextTag(pools, 0, taken)
  }

  lemma {:induction false} NextTagHasChoice(pools: seq<seq<Candidate>>, tag: Tag, taken: set<QueryId>)
    ensures NextTag(pools, tag, taken).Some? ==>
      && tag <= NextTag(pools, tag, taken).value < |pools|
      && Choice(pools[NextTag(pools, tag, taken).value], taken).Some?
      && forall k | tag <= k < NextTag(pools, tag, taken).value :: Choice(pools[k], taken).None?
    ensures NextTag(pools, tag, taken).None? ==> forall k | tag <= k < |pools| :: Choice(pools[k], taken).None?
    decreases |pools| - tag
  {
    if tag < |pools| && Choice(pools[tag], taken).None? {
      NextTagHasChoice(pools, tag + 1, taken);
    }
  }

  function TurnPick(pools: seq<seq<Candidate>>, tag: Tag, taken: set<QueryId>): Option<Pick> {
    var turn := NextTurn(pools, tag, taken);
    if turn.Some? && turn.value < |pools| && Choice(pools[turn.value], taken).Some?
    then Some(Pick(Choice(pools[turn.value], taken).value, turn.value)) else None
  }

  /** The picks of `count` turns, or nothing when all strata are exhausted first. */
  function Select(pools: seq<seq<Candidate>>, tag: Tag, picks: seq<Pick>, count: nat): Option<seq<Pick>>
    decreases count - |picks|
  {
    if |picks| >= count then Some(picks)
    else
      var pick := TurnPick(pools, tag, Ids(picks));
      if pick.None? then None else Select(pools, pick.value.tag + 1, picks + [pick.value], count)
  }

  // ----- What the choice means

  lemma {:induction false} ChoiceMeans(pool: seq<Candidate>, taken: set<QueryId>)
    ensures Choice(pool, taken).None? <==> forall c | c in pool :: c.id in taken
    ensures Choice(pool, taken).Some? ==>
      exists i :: 0 <= i < |pool| && pool[i] == Choice(pool, taken).value && pool[i].id !in taken
          && forall k | 0 <= k < i :: pool[k].id in taken
  {
    if pool != [] && pool[0].id in taken {
      ChoiceMeans(pool[1..], taken);
      assert forall c | c in pool :: c == pool[0] || c in pool[1..];
      if Choice(pool, taken).Some? {
        var i :| 0 <= i < |pool[1..]| && pool[1..][i] == Choice(pool[1..], taken).value && pool[1..][i].id !in taken
                 && forall k | 0 <= k < i :: pool[1..][k].id in taken;
        assert forall k | 1 <= k < i + 1 :: pool[k] == pool[1..][k - 1];
        assert pool[i + 1] == Choice(pool, taken).value;
      }
    }
  }

  lemma PoolMembers(candidates: seq<Candidate>, keys: Keys, tag: Tag)
    ensures forall c :: c in Pool(candidates, keys, tag) <==> c in candidates && tag in c.tags
    ensures SortedBy(Pool(candidates, keys, tag), DigestLe(keys, tag))
  {
    PermutationMembers(Filter(candidates, HasTag(tag)), Pool(candidates, keys, tag));
    SortSorted(Filter(candidates, HasTag(tag)), DigestLe(keys, tag));
  }

  /** A stratum chooses the unselected member with the smallest digest, and passes only without one. */
  ghost predicate Greedy(choice: Option<Candidate>, candidates: seq<Candidate>, keys: Keys, tag: Tag,
                         taken: set<QueryId>) {
    match choice
    case None => forall c | c in candidates && tag in c.tags :: c.id in taken
    case Some(best) =>
      && best in candidates && tag in best.tags && best.id !in taken
      && forall c | c in candidates && tag in c.tags && c.id !in taken ::
          keys.digest(tag, best.id) <= keys.digest(tag, c.id)
  }

  lemma ChoiceIsGreedy(candidates: seq<Candidate>, keys: Keys, tag: Tag, taken: set<QueryId>)
    ensures Greedy(Choice(Pool(candidates, keys, tag), taken), candidates, keys, tag, taken)
  {
    hide Pool, Choice;
    var pool := Pool(candidates, keys, tag);
    ChoiceMeans(pool, taken);
    PoolMembers(candidates, keys, tag);
    if Choice(pool, taken).Some? {
      var i :| 0 <= i < |pool| && pool[i] == Choice(pool, taken).value && pool[i].id !in taken
          && forall k | 0 <= k < i :: pool[k].id in taken;
      forall c | c in candidates && tag in c.tags && c.id !in taken
        ensures keys.digest(tag, pool[i].id) <= keys.digest(tag, c.id)
      {
        assert c in pool;
        var k :| 0 <= k < |pool| && pool[k] == c;
        if i < k { assert DigestLe(keys, tag)(pool[i], pool[k]); }
      }
    }
  }

  /** Distinct identifiers that carry some stratum's tag. */
  function Tagged(candidates: seq<Candidate>, strata: nat): set<QueryId> {
    set c, tag | c in candidates && 0 <= tag < strata && tag in c.tags :: c.id
  }

  ghost predicate Proper(picks: seq<Pick>, candidates: seq<Candidate>, strata: nat) {
    && (forall i, j | 0 <= i < j < |picks| :: picks[i].candidate.id != picks[j].candidate.id)
    && (forall pick | pick in picks ::
        pick.tag < strata && pick.tag in pick.candidate.tags && pick.candidate in candidates)
  }

  lemma {:induction false} ProperCard(picks: seq<Pick>, candidates: seq<Candidate>, strata: nat)
    requires Proper(picks, candidates, strata)
    ensures |Ids(picks)| == |picks| && Ids(picks) <= Tagged(candidates, strata)
  {
    if picks != [] {
      var rest, last := picks[..|picks| - 1], picks[|picks| - 1];
      assert picks == rest + [last] && last in picks;
      assert forall pick | pick in rest :: pick in picks;
      ProperCard(rest, candidates, strata);
      assert Ids(picks) == Ids(rest) + {last.candidate.id};
      assert last.candidate.id !in Ids(rest);
    }
  }

  lemma PickExtends(candidates: seq<Candidate>, keys: Keys, strata: nat, tag: Tag, picks: seq<Pick>)
    requires Proper(picks, candidates, strata)
    ensures var pick := TurnPick(Pools(candidates, keys, strata), tag, Ids(picks));
            && (pick.Some? ==> Proper(picks + [pick.value], candidates, strata))
            && (pick.None? ==> Tagged(candidates, strata) == Ids(picks))
  {
    hide Pool, Choice, NextTag, Tagged;
    var pools, taken := Pools(candidates, keys, strata), Ids(picks);
    NextTagHasChoice(pools, tag, taken);
    NextTagHasChoice(pools, 0, taken);
    var pick := TurnPick(pools, tag, taken);
    if pick.Some? {
      ChoiceIsGreedy(candidates, keys, pick.value.tag, taken);
      forall i | 0 <= i < |picks| ensures picks[i].candidate.id != pick.value.candidate.id { assert picks[i] in picks; }
    } else {
      ProperCard(picks, candidates, strata);
      forall c, k: Tag | c in candidates && k < strata && k in c.tags ensures c.id in taken {
        assert pools[k] == Pool(candidates, keys, k);
        ChoiceIsGreedy(candidates, keys, k, taken);
      }
      AllTaken(candidates, strata, taken);
    }
  }

  lemma AllTaken(candidates: seq<Candidate>, strata: nat, taken: set<QueryId>)
    requires taken <= Tagged(candidates, strata)
    requires forall c, k: Tag | c in candidates && k < strata && k in c.tags :: c.id in taken
    ensures Tagged(candidates, strata) == taken
  {
  }

  /** The selection succeeds exactly when enough distinct identifiers carry a tag; its picks are then
      distinct, of the requested number, and each carries the tag it was picked for. */
  lemma {:induction false} SelectSucceeds(candidates: seq<Candidate>, keys: Keys, strata: nat, tag: Tag,
                                          picks: seq<Pick>, count: nat)
    requires Proper(picks, candidates, strata) && |picks| <= count
    ensures var r := Select(Pools(candidates, keys, strata), tag, picks, count);
            && (r.Some? <==> |Tagged(candidates, strata)| >= count)
            && (r.Some? ==> |r.value| == count && Proper(r.value, candidates, strata))
    decreases count - |picks|
  {
    hide Pools, Tagged, Ids, Proper, TurnPick;
    ProperCard(picks, candidates, strata);
    if |picks| == count {
      SubsetCard(Ids(picks), Tagged(candidates, strata));
    } else {
      PickExtends(candidates, keys, strata, tag, picks);
      var pick := TurnPick(Pools(candidates, keys, strata), tag, Ids(picks));
      if pick.Some? { SelectSucceeds(candidates, keys, strata, pick.value.tag + 1, picks + [pick.value], count); }
    }
  }

  /** Going round from stratum `from` to stratum `to`, stratum `k` is passed over. */
  predicate PassedOver(from: Tag, k: Tag, to: Tag) {
    if from <= to then from <= k < to else k >= from || k < to
  }

  /** The pick was made in turn and greedily: going round from `tag`, every stratum passed over has only
      selected members. */
  ghost predicate InTurn(candidates: seq<Candidate>, keys: Keys, strata: nat, tag: Tag, before: seq<Pick>, pick: Pick) {
    && pick.tag < strata
    && (forall k: Tag, c | k < strata && PassedOver(tag, k, pick.tag) && c in candidates && k in c.tags ::
          c.id in Ids(before))
    && Greedy(Some(pick.candidate), candidates, keys, pick.tag, Ids(before))
  }

  /** The turns go round from the first stratum. */
  ghost predicate AllInTurn(candidates: seq<Candidate>, keys: Keys, strata: nat, picks: seq<Pick>) {
    forall p | 0 <= p < |picks| ::
      InTurn(candidates, keys, strata, if p == 0 then 0 else picks[p - 1].tag + 1, picks[..p], picks[p])
  }

  lemma TurnPickInTurn(candidates: seq<Candidate>, keys: Keys, strata: nat, tag: Tag, picks: seq<Pick>)
    requires TurnPick(Pools(candidates, keys, strata), tag, Ids(picks)).Some?
    ensures InTurn(candidates, keys, strata, tag, picks,
              TurnPick(Pools(candidates, keys, strata), tag, Ids(picks)).value)
  {
    hide Pool, Choice, NextTag;
    var pick := TurnPick(Pools(candidates, keys, strata), tag, Ids(picks)).value;
    NextTagHasChoice(Pools(candidates, keys, strata), tag, Ids(picks));
    NextTagHasChoice(Pools(candidates, keys, strata), 0, Ids(picks));
    ChoiceIsGreedy(candidates, keys, pick.tag, Ids(picks));
    forall k: Tag, c | k < strata && PassedOver(tag, k, pick.tag) && c in candidates && k in c.tags
      ensures c.id in Ids(picks)
    {
      assert Pools(candidates, keys, strata)[k] == Pool(candidates, keys, k);
      ChoiceIsGreedy(candidates, keys, k, Ids(picks));
    }
  }

  lemma {:induction false} PicksInTurn(candidates: seq<Candidate>, keys: Keys, strata: nat, tag: Tag,
                                       picks: seq<Pick>, count: nat)
    requires Select(Pools(candidates, keys, strata), tag, picks, count).Some?
    ensures picks <= Select(Pools(candidates, keys, strata), tag, picks, count).value
    ensures var r := Select(Pools(candidates, keys, strata), tag, picks, count).value;
            forall p | |picks| <= p < |r| ::
              InTurn(candidates, keys, strata, if p == |picks| then tag else r[p - 1].tag + 1, r[..p], r[p])
    decreases count - |picks|
  {
    hide Pools, TurnPick, InTurn, Ids;
    var pools := Pools(candidates, keys, strata);
    if |picks| < count {
      var pick := TurnPick(pools, tag, Ids(picks)).value;
      var r := Select(pools, tag, picks, count).value;
      PicksInTurn(candidates, keys, strata, pick.tag + 1, picks + [pick], count);
      assert r[..|picks|] == picks && r[|picks|] == pick;
      TurnPickInTurn(candidates, keys, strata, tag, picks);
    }
  }

  // ----- Independence of the input order

  lemma PoolPermutation(a: seq<Candidate>, b: seq<Candidate>, keys: Keys, tag: Tag)
    requires multiset(a) == multiset(b)
    requires forall c, d | c in a && d in a && keys.digest(tag, c.id) == keys.digest(tag, d.id) :: c == d
    ensures Pool(a, keys, tag) == Pool(b, keys, tag)
  {
    FilterPermutation(a, b, HasTag(tag));
    var pool, le := Filter(a, HasTag(tag)), DigestLe(keys, tag);
    forall i, j | 0 <= i < |pool| && 0 <= j < |pool| && le(pool[i], pool[j]) && le(pool[j], pool[i])
      ensures pool[i] == pool[j]
    {
      assert pool[i] in a && pool[j] in a;
    }
    SortPermutation(pool, Filter(b, HasTag(tag)), le);
  }

  /** With uniquely identified queries and a digest without collisions, the input order is irrelevant. */
  lemma SelectionPermutation(a: seq<Candidate>, b: seq<Candidate>, keys: Keys, strata: nat, count: nat)
    requires multiset(a) == multiset(b)
    requires forall i, j | 0 <= i < |a| && 0 <= j < |a| && a[i].id == a[j].id :: i == j
    requires forall tag: Tag, x: QueryId, y: QueryId | keys.digest(tag, x) == keys.digest(tag, y) :: x == y
    ensures Select(Pools(a, keys, strata), 0, [], count) == Select(Pools(b, keys, strata), 0, [], count)
  {
    forall tag: Tag | tag < strata
      ensures Pool(a, keys, tag) == Pool(b, keys, tag)
    {
      PoolPermutation(a, b, keys, tag);
    }
    assert Pools(a, keys, strata) == Pools(b, keys, strata);
  }

  // ----- The loop

  lemma {:induction false} SkipTaken(pool: seq<Candidate>, taken: set<QueryId>, offset: nat)
    requires offset <= |pool| && forall k | 0 <= k < offset :: pool[k].id in taken
    ensures Choice(pool, taken) == Choice(pool[offset..], taken)
  {
    if offset > 0 {
      assert pool[1..][offset - 1..] == pool[offset..];
      SkipTaken(pool[1..], taken, offset - 1);
    }
  }

  /** Offsets skip only selected queries. */
  ghost predicate OffsetsSkip(pools: seq<seq<Candidate>>, offsets: seq<nat>, taken: set<QueryId>) {
    && |offsets| == |pools|
    && forall tag | 0 <= tag < |pools| :: offsets[tag] <= |pools[tag]|
        && forall k | 0 <= k < offsets[tag] :: pools[tag][k].id in taken
  }

  /** Advance a stratum past selected queries to its choice. */
  method Advance(pool: seq<Candidate>, start: nat, taken: set<QueryId>) returns (offset: nat)
    requires start <= |pool| && forall k | 0 <= k < start :: pool[k].id in taken
    ensures start <= offset <= |pool| && forall k | 0 <= k < offset :: pool[k].id in taken
    ensures Choice(pool, taken) == if offset < |pool| then Some(pool[offset]) else None
  {
    offset := start;
    while offset < |pool| && pool[offset].id in taken
      invariant start <= offset <= |pool| && forall k | 0 <= k < offset :: pool[k].id in taken
    {
      offset := offset + 1;
    }
    SkipTaken(pool, taken, offset);
  }

  lemma TurnStep(pools: seq<seq<Candidate>>, tag: Tag, picks: seq<Pick>, count: nat)
    requires tag < |pools| && |picks| < count
    ensures Choice(pools[tag], Ids(picks)).None? ==>
              Select(pools, tag, picks, count) == Select(pools, tag + 1, picks, count)
    ensures Choice(pools[tag], Ids(picks)).Some? ==>
      Select(pools, tag, picks, count)
          == Select(pools, tag + 1, picks + [Pick(Choice(pools[tag], Ids(picks)).value, tag)], count)
  {
  }

  lemma NewRound(pools: seq<seq<Candidate>>, picks: seq<Pick>, count: nat)
    ensures Select(pools, |pools|, picks, count) == Select(pools, 0, picks, count)
    ensures (forall k | 0 <= k < |pools| :: Choice(pools[k], Ids(picks)).None?) && |picks| < count ==>
              Select(pools, 0, picks, count).None?
  {
    NextTagHasChoice(pools, 0, Ids(picks));
  }

  lemma SelectDone(pools: seq<seq<Candidate>>, tag: Tag, picks: seq<Pick>, count: nat)
    requires |picks| >= count
    ensures Select(pools, tag, picks, count) == Some(picks)
  {
  }

  /** One round of turns; stops as soon as the selection is complete. */
  method Round(pools: seq<seq<Candidate>>, start: seq<Pick>, startOffsets: seq<nat>, startTaken: set<QueryId>,
               count: nat)
    returns (picks: seq<Pick>, offsets: seq<nat>, taken: set<QueryId>, progress: bool)
    requires |start| < count && startTaken == Ids(start) && OffsetsSkip(pools, startOffsets, startTaken)
    ensures taken == Ids(picks) && OffsetsSkip(pools, offsets, taken) && |start| <= |picks| <= count
    ensures Select(pools, 0, start, count) == Select(pools, 0, picks, count)
    ensures progress ==> |picks| > |start|
    ensures !progress ==> Select(pools, 0, start, count).None?
  {
    hide Select, Choice;
    picks, offsets, taken, progress := start, startOffsets, startTaken, false;
    for tag := 0 to |pools|
      invariant taken == Ids(picks) && OffsetsSkip(pools, offsets, taken) && |start| <= |picks| < count
      invariant Select(pools, 0, start, count) == Select(pools, tag, picks, count)
      invariant progress ==> |picks| > |start|
      invariant !progress ==> picks == start && forall k | 0 <= k < tag :: Choice(pools[k], taken).None?
    {
      TurnStep(pools, tag, picks, count);
      var offset := Advance(pools[tag], offsets[tag], taken);
      offsets := offsets[tag := offset];
      if offset < |pools[tag]| {
        var pick := Pick(pools[tag][offset], tag);
        ghost var before := picks;
        picks := picks + [pick];
        assert Ids(picks) == Ids(before) + {pick.candidate.id};
        taken := taken + {pick.candidate.id};
        offsets := offsets[tag := offset + 1];
        progress := true;
        if |picks| == count {
          SelectDone(pools, tag + 1, picks, count);
          SelectDone(pools, 0, picks, count);
          return;
        }
      }
    }
    NewRound(pools, picks, count);
  }

  /** Select `count` queries, or fail when the strata run out; the result is ordered by source identifier. */
  method CurateQueryIds(candidates: seq<Candidate>, keys: Keys, strata: nat, count: nat)
    returns (r: Result<seq<Pick>, Error>)
    ensures r.Ok? <==> |Tagged(candidates, strata)| >= count
    ensures var selection := Select(Pools(candidates, keys, strata), 0, [], count);
      r.Ok? ==>
        && selection.Some?
        && r.value == Sort(selection.value, (a: Pick, b: Pick) => keys.sourceLe(a.candidate.id, b.candidate.id))
        && multiset(r.value) == multiset(selection.value)
        && AllInTurn(candidates, keys, strata, selection.value)
    ensures r.Ok? && Total(keys.sourceLe) && Transitive(keys.sourceLe) ==>
      forall i, j | 0 <= i < j < |r.value| :: keys.sourceLe(r.value[i].candidate.id, r.value[j].candidate.id)
    ensures r.Ok? ==> |r.value| == count && Proper(r.value, candidates, strata)
  {
    hide Pools, Select, Sort, Ids, OffsetsSkip, Proper, AllInTurn, Tagged;
    var pools := Pools(candidates, keys, strata);
    PoolsLength(candidates, keys, strata);
    var picks: seq<Pick>, taken: set<QueryId> := [], {};
    var offsets := seq(strata, _ => 0);
    NothingPicked(candidates, strata);
    SelectSucceeds(candidates, keys, strata, 0, [], count);
    NoneTaken(pools, offsets);
    while |picks| < count
      invariant taken == Ids(picks) && OffsetsSkip(pools, offsets, taken) && |picks| <= count
      invariant Select(pools, 0, [], count) == Select(pools, 0, picks, count)
      decreases count - |picks|
    {
      var progress;
      picks, offsets, taken, progress := Round(pools, picks, offsets, taken, count);
      if !progress { return Err(TooFewQueries); }
    }
    var le := (a: Pick, b: Pick) => keys.sourceLe(a.candidate.id, b.candidate.id);
    SelectDone(pools, 0, picks, count);
    SortPermutes(picks, le);
    ProperPermutation(picks, Sort(picks, le), candidates, strata);
    SelectedInTurn(candidates, keys, strata, picks, count);
    if Total(keys.sourceLe) && Transitive(keys.sourceLe) { SourcesSorted(picks, keys, le); }
    return Ok(Sort(picks, le));
  }

  lemma PoolsLength(candidates: seq<Candidate>, keys: Keys, strata: nat)
    ensures |Pools(candidates, keys, strata)| == strata
  {
  }

  lemma NothingPicked(candidates: seq<Candidate>, strata: nat)
    ensures Proper([], candidates, strata)
  {
  }

  lemma NoneTaken(pools: seq<seq<Candidate>>, offsets: seq<nat>)
    requires |offsets| == |pools| && forall tag | 0 <= tag < |offsets| :: offsets[tag] == 0
    ensures OffsetsSkip(pools, offsets, Ids([]))
    ensures Ids([]) == {}
  {
  }

  lemma SortPermutes(picks: seq<Pick>, le: (Pick, Pick) -> bool)
    ensures multiset(Sort(picks, le)) == multiset(picks) && |Sort(picks, le)| == |picks|
  {
    PermutationMembers(picks, Sort(picks, le));
  }

  lemma SelectedInTurn(candidates: seq<Candidate>, keys: Keys, strata: nat, picks: seq<Pick>, count: nat)
    requires Select(Pools(candidates, keys, strata), 0, [], count) == Some(picks)
    ensures AllInTurn(candidates, keys, strata, picks)
  {
    hide InTurn, Pools, Select;
    PicksInTurn(candidates, keys, strata, 0, [], count);
  }

  lemma SourcesSorted(picks: seq<Pick>, keys: Keys, le: (Pick, Pick) -> bool)
    requires Total(keys.sourceLe) && Transitive(keys.sourceLe)
    requires forall a, b :: le(a, b) == keys.sourceLe(a.candidate.id, b.candidate.id)
    ensures var sorted := Sort(picks, le);
            forall i, j | 0 <= i < j < |sorted| :: keys.sourceLe(sorted[i].candidate.id, sorted[j].candidate.id)
  {
    assert Total(le) && Transitive(le);
    SortSorted(picks, le);
    var sorted := Sort(picks, le);
    forall i, j | 0 <= i < j < |sorted| ensures keys.sourceLe(sorted[i].candidate.id, sorted[j].candidate.id) {
      assert le(sorted[i], sorted[j]);
    }
  }

  lemma ProperPermutation(a: seq<Pick>, b: seq<Pick>, candidates: seq<Candidate>, strata: nat)
    requires Proper(a, candidates, strata) && multiset(a) == multiset(b)
    ensures Proper(b, candidates, strata)
  {
    PermutationMembers(a, b);
    assert Distinct(a);
    DistinctPermutation(a, b);
    forall i, j | 0 <= i < j < |b| ensures b[i].candidate.id != b[j].candidate.id {
      assert b[i] in a && b[j] in a && b[i] != b[j];
      var k :| 0 <= k < |a| && a[k] == b[i];
      var l :| 0 <= l < |a| && a[l] == b[j];
      assert k != l;
      assert if k < l then a[k].candidate.id != a[l].candidate.id else a[l].candidate.id != a[k].candidate.id;
    }
  }
}
