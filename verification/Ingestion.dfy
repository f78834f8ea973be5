/** Batch ingestion with checkpoint and resume. */
module Ingestion {
  import opened Collections

  type DocId = nat
  type ExternalId = nat
  type Revision = nat

  datatype Document = Document(externalId: ExternalId, id: DocId)

  datatype Checkpoint = Checkpoint(formatVersion: int, namespace: string, revision: Revision, completed: seq<DocId>)

  /** What one readiness inspection saw. */
  datatype Readiness = Readiness(documentCount: nat, documentIds: set<DocId>, schemaMatches: bool,
      metadataReady: bool, indexesReady: bool)

  datatype Report = Report(
    ready: bool,
    batchesTotal: nat,
    batchesCompleted: nat,
    documentsTotal: nat,
    documentsCompleted: nat,
    resumedDocuments: nat)

  datatype Failure =
    | EmptyCorpus
    | InvalidCheckpoint
    | BatchFailed(report: Report)
    | Cancelled
    | ReadinessFailed(report: Report)

  datatype BatchOutcome = Written | Failed | BatchCancelled

  function Ids(documents: seq<Document>): seq<DocId> {
    seq(|documents|, i requires 0 <= i < |documents| => documents[i].id)
  }

  function IdSet(documents: seq<Document>): set<DocId> {
    set d | d in documents :: d.id
  }

  /** What the corpus loader guarantees, and document identifiers do not collide. */
  predicate ValidCorpus(documents: seq<Document>) {
    Distinct(Ids(documents))
  }

  function Pending(documents: seq<Document>, resumed: set<DocId>): seq<Document> {
    if documents == [] then []
    else (if documents[0].id in resumed then [] else [documents[0]]) + Pending(documents[1..], resumed)
  }

  function Chunks<T>(s: seq<T>, size: nat): (r: seq<seq<T>>)
    requires size > 0
  {
    if |s| == 0 then [] else if |s| <= size then [s] else [s[..size]] + Chunks(s[size..], size)
  }

  predicate ExternalLe(a: Document, b: Document) {
    a.externalId <= b.externalId
  }

  function MakeBatches(documents: seq<Document>, batchSize: nat): seq<seq<Document>>
    requires batchSize > 0
  {
    Chunks(Sort(documents, ExternalLe), batchSize)
  }

  function Flatten<T>(batches: seq<seq<T>>): seq<T> {
    if batches == [] then [] else batches[0] + Flatten(batches[1..])
  }

  function TotalLength<T>(batches: seq<seq<T>>): nat {
    if batches == [] then 0 else |batches[0]| + TotalLength(batches[1..])
  }

  lemma {:induction false} ChunksFlatten<T>(s: seq<T>, size: nat)
    requires size > 0
    ensures Flatten(Chunks(s, size)) == s && TotalLength(Chunks(s, size)) == |s|
    ensures forall b | b in Chunks(s, size) :: 0 < |b| <= size
    ensures forall i | 0 <= i < |Chunks(s, size)| - 1 :: |Chunks(s, size)[i]| == size
    ensures Chunks(s, size) == [] <==> s == []
  {
    if |s| > size {
      ChunksFlatten(s[size..], size);
      assert s == s[..size] + s[size..];
      assert Chunks(s, size)[1..] == Chunks(s[size..], size);
    } else if |s| > 0 {
      assert Chunks(s, size) == [s];
      assert Flatten([s]) == s + [];
    }
  }

  lemma {:induction false} FlattenMember<T>(batches: seq<seq<T>>, k: nat, x: T)
    requires k < |batches| && x in batches[k]
    ensures x in Flatten(batches)
  {
    if k > 0 {
      FlattenMember(batches[1..], k - 1, x);
    }
  }

  lemma {:induction false} FlattenOrigin<T>(batches: seq<seq<T>>, x: T)
    requires x in Flatten(batches)
    ensures exists k :: 0 <= k < |batches| && x in batches[k]
  {
    if x in batches[0] {
    } else {
      FlattenOrigin(batches[1..], x);
      var k :| 0 <= k < |batches[1..]| && x in batches[1..][k];
      assert x in batches[k + 1];
    }
  }

  lemma {:induction false} FlattenAppend<T>(batches: seq<seq<T>>, last: seq<T>)
    ensures Flatten(batches + [last]) == Flatten(batches) + last
    ensures TotalLength(batches + [last]) == TotalLength(batches) + |last|
  {
    if batches == [] {
      assert [last][1..] == [] && batches + [last] == [last];
    } else {
      assert (batches + [last])[1..] == batches[1..] + [last];
      FlattenAppend(batches[1..], last);
    }
  }

  lemma {:induction false} TotalLengthPrefix<T>(batches: seq<seq<T>>, n: nat)
    requires n <= |batches|
    ensures TotalLength(batches[..n]) <= TotalLength(batches)
  {
    if n > 0 {
      assert batches[..n][1..] == batches[1..][..n - 1];
      TotalLengthPrefix(batches[1..], n - 1);
    }
  }

  lemma {:induction false} PendingMembers(documents: seq<Document>, resumed: set<DocId>)
    ensures forall d :: d in Pending(documents, resumed) <==> d in documents && d.id !in resumed
  {
    if documents != [] {
      PendingMembers(documents[1..], resumed);
      assert documents == [documents[0]] + documents[1..];
    }
  }

  /** Every document is either pending or resumed, never both. */
  lemma {:induction false} PendingCount(documents: seq<Document>, resumed: set<DocId>)
    requires Distinct(Ids(documents)) && resumed <= IdSet(documents)
    ensures |Pending(documents, resumed)| + |resumed| == |documents|
  {
    if documents != [] {
      var first, rest := documents[0], documents[1..];
      forall i, j | 0 <= i < j < |rest| ensures Ids(rest)[i] != Ids(rest)[j] {
        assert Ids(documents)[i + 1] != Ids(documents)[j + 1];
      }
      forall d | d in rest ensures d.id != first.id {
        var i :| 0 <= i < |rest| && rest[i] == d;
        assert Ids(documents)[0] != Ids(documents)[i + 1];
      }
      var fewer := resumed - {first.id};
      forall x | x in fewer ensures x in IdSet(rest) {
        var d :| d in documents && d.id == x;
        assert d in rest;
      }
      PendingCount(rest, fewer);
      PendingSame(rest, resumed, fewer);
      if first.id in resumed {
        assert resumed == fewer + {first.id};
      } else {
        assert resumed == fewer;
      }
    } else {
      assert resumed == {};
    }
  }

  lemma {:induction false} PendingSame(documents: seq<Document>, a: set<DocId>, b: set<DocId>)
    requires forall d | d in documents :: d.id in a <==> d.id in b
    ensures Pending(documents, a) == Pending(documents, b)
  {
    if documents != [] {
      assert forall d | d in documents[1..] :: d in documents;
      assert documents[0] in documents;
      PendingSame(documents[1..], a, b);
    }
  }

  function Claimed(checkpoint: Option<Checkpoint>): set<DocId> {
    if checkpoint.None? then {} else ToSet(checkpoint.value.completed)
  }

  /** What a save does to the checkpoint that the next load sees and to those that a power loss may leave:
      success leaves the new one alone, failure the old or the new one. */
  predicate SaveEffect(checkpoint: Checkpoint, stored: Option<Checkpoint>, recoverable: set<Option<Checkpoint>>,
                       stored': Option<Checkpoint>, recoverable': set<Option<Checkpoint>>, ok: bool) {
    if ok then stored' == Some(checkpoint) && recoverable' == {stored'}
    else (stored' == stored || stored' == Some(checkpoint)) && recoverable' == recoverable + {stored'}
  }

  // ----- The world an attempt runs in

  datatype Journal = Journal(confirmed: seq<seq<Document>>, offered: seq<set<DocId>>, failedSaves: nat,
                             claimed: set<DocId>)

  /** What a series of writes recorded on top of `start`: the completed batches are the first confirmed ones,
      all of them if nothing was cut short, and each was offered once; unless a save failed, they are what
      the stored checkpoint adds. */
  predicate RecordedIn(before: Journal, after: Journal, start: set<DocId>, completed: seq<seq<Document>>, whole: bool) {
    && before.confirmed <= after.confirmed && before.offered <= after.offered
    && before.failedSaves <= after.failedSaves
    && completed <= after.confirmed[|before.confirmed|..]
    && |after.offered| == |before.offered| + |completed|
    && (completed != [] ==> after.offered[|after.offered| - 1] == start + IdSet(Flatten(completed)))
    && (after.failedSaves == before.failedSaves ==>
          && after.claimed == start + IdSet(Flatten(completed))
          && (whole ==> completed == after.confirmed[|before.confirmed|..]))
  }

  class Environment {
    /** Documents in the remote namespace. */
    var remote: set<DocId>
    /** Whether this process's writer has sent a write specification for the namespace. */
    var specified: bool
    /** The checkpoint file as the next load sees it, and as a power loss may leave it. */
    var stored: Option<Checkpoint>
    var recoverable: set<Option<Checkpoint>>
    // History, for specifications: identifiers of the last checkpoint whose save succeeded, of every
    // checkpoint offered to the observer, the batches whose write was confirmed, the sizes of the waves,
    // the readiness inspections, and the numbers of failing saves and of all failing calls.
    ghost var acknowledged: set<DocId>
    ghost var offered: seq<set<DocId>>
    ghost var confirmed: seq<seq<Document>>
    ghost var waves: seq<nat>
    ghost var inspections: seq<Option<Readiness>>
    ghost var failedSaves: nat
    ghost var faults: nat

    /** A checkpoint of this corpus revision never claims more than was expected and written. */
    predicate Truthful(checkpoint: Option<Checkpoint>, namespace: string, revision: Revision, expected: set<DocId>)
      reads this
    {
      match checkpoint
      case None => true
      case Some(c) =>
        && c.formatVersion == 1 && c.namespace == namespace && c.revision == revision
        && Distinct(c.completed)
        && ToSet(c.completed) <= expected && ToSet(c.completed) <= remote
    }

    /** The invariant of every history of attempts, crashes and power losses. */
    ghost predicate Sound(namespace: string, revision: Revision, expected: set<DocId>)
      reads this
    {
      && stored in recoverable
      && (forall c | c in recoverable :: Truthful(c, namespace, revision, expected))
      && (forall c | c in recoverable :: acknowledged <= Claimed(c))
    }

    constructor (remote: set<DocId>)
      ensures this.remote == remote && stored == None && recoverable == {None} && acknowledged == {} && offered == []
                && !specified
    {
      this.remote := remote;
      specified := false;
      stored := None;
      recoverable := {None};
      acknowledged := {};
      offered, confirmed, waves, inspections := [], [], [], [];
    }

    /** What a series of writes recorded, on the environment's own journal. */
    twostate predicate Recorded(start: set<DocId>, completed: seq<seq<Document>>, whole: bool)
      reads this
    {
      RecordedIn(old(Log()), Log(), start, completed, whole)
    }

    ghost function Log(): Journal reads this {
      Journal(confirmed, offered, failedSaves, Claimed(stored))
    }

    /** A new process; nothing durable changes, and a fresh writer has no specification yet. */
    method Restart(namespace: string, revision: Revision, ghost expected: set<DocId>, powerLoss: bool)
      requires Sound(namespace, revision, expected)
      modifies this
      ensures Sound(namespace, revision, expected) && !specified
      ensures remote == old(remote) && acknowledged == old(acknowledged) && faults == old(faults)
      ensures offered == old(offered) && confirmed == old(confirmed) && failedSaves == old(failedSaves)
      ensures stored in old(recoverable)
      ensures if powerLoss then recoverable == {stored} else stored == old(stored) && recoverable == old(recoverable)
    {
      if powerLoss {
        var kept :| kept in recoverable;
        stored, recoverable := kept, {kept};
      }
      specified := false;
    }

    /** Write to a temporary file, replace atomically, sync the directory. */
    method Save(checkpoint: Checkpoint) returns (ok: bool)
      modifies this`stored, this`recoverable, this`acknowledged, this`offered, this`failedSaves, this`faults
      ensures offered == old(offered) + [ToSet(checkpoint.completed)]
      ensures SaveEffect(checkpoint, old(stored), old(recoverable), stored, recoverable, ok)
      ensures acknowledged == if ok then ToSet(checkpoint.completed) else old(acknowledged)
      ensures failedSaves == old(failedSaves) + if ok then 0 else 1
      ensures faults == old(faults) + if ok then 0 else 1
    {
      offered := offered + [ToSet(checkpoint.completed)];
      ok := *;
      if ok {
        stored := Some(checkpoint);
        recoverable := {stored};
        acknowledged := ToSet(checkpoint.completed);
      } else {
        faults, failedSaves := faults + 1, failedSaves + 1;
        if * { stored := Some(checkpoint); }
        recoverable := recoverable + {stored};
      }
    }

    /** Embed and upsert one batch. A failing or cancelled upsert may have been applied in part. */
    method IngestBatch(documents: seq<Document>) returns (outcome: BatchOutcome)
      modifies this`remote, this`specified, this`confirmed, this`faults
      ensures confirmed == old(confirmed) + if outcome == Written then [documents] else []
      ensures old(remote) <= remote <= old(remote) + IdSet(documents)
      ensures outcome == Written ==> IdSet(documents) <= remote && specified
      ensures old(specified) ==> specified
      ensures old(faults) <= faults && (faults == old(faults) ==> outcome == Written)
    {
      outcome :| true;
      if outcome == Written {
        remote := remote + IdSet(documents);
        confirmed := confirmed + [documents];
        specified := true;
      } else {
        faults := faults + 1;
        if * {
          specified := true;
          var applied: set<DocId> :| applied <= IdSet(documents);
          remote := remote + applied;
        }
      }
    }

    /** Inspect the namespace: a writer without a specification raises; otherwise the identifiers and
        their count are those of the namespace. */
    method InspectReadiness() returns (r: Option<Readiness>)
      modifies this`inspections, this`faults
      ensures inspections == old(inspections) + [r]
      ensures r.Some? ==> specified && r.value.documentIds == remote && r.value.documentCount == |remote|
      ensures old(faults) <= faults
      ensures faults == old(faults) ==>
                if specified then r.Some? && r.value.schemaMatches && r.value.metadataReady && r.value.indexesReady
                else r.None?
    {
      r := None;
      if specified {
        r := Some(Readiness(|remote|, remote, true, true, true));
        if * {
          faults := faults + 1;
          var readiness: Readiness :| readiness.documentIds == remote && readiness.documentCount == |remote|;
          r := Some(readiness);
          if * { r := None; }
        }
      }
      inspections := inspections + [r];
    }
  }

  function ValidateCheckpoint(checkpoint: Option<Checkpoint>, namespace: string, revision: Revision,
                              expected: set<DocId>): Option<set<DocId>> {
    match checkpoint
    case None => Some({})
    case Some(c) =>
      if c.formatVersion != 1 || c.namespace != namespace || c.revision != revision || !Distinct(c.completed)
         || !(ToSet(c.completed) <= expected)
      then None
      else Some(ToSet(c.completed))
  }

  /** Each offered checkpoint contains the one before it, starting from the resumed identifiers. */
  predicate Growing(offered: seq<set<DocId>>, from: nat, resumed: set<DocId>, last: set<DocId>) {
    && from <= |offered|
    && (forall i | from <= i < |offered| :: resumed <= offered[i] <= last)
    && (forall i, j | from <= i < j < |offered| :: offered[i] <= offered[j])
  }

  lemma GrowingEmpty(offered: seq<set<DocId>>, resumed: set<DocId>)
    ensures Growing(offered, |offered|, resumed, resumed)
  {
  }

  lemma GrowingExtends(offered: seq<set<DocId>>, from: nat, resumed: set<DocId>, last: set<DocId>, next: set<DocId>)
    requires Growing(offered, from, resumed, last) && resumed <= last <= next
    ensures Growing(offered + [next], from, resumed, next)
  {
  }

  /** The batches among the first `n` whose write was confirmed, in order. */
  function WrittenOf(wave: seq<seq<Document>>, outcomes: seq<BatchOutcome>, n: nat): seq<seq<Document>>
    requires n <= |wave| == |outcomes|
  {
    if n == 0 then []
    else WrittenOf(wave, outcomes, n - 1) + if outcomes[n - 1] == Written then [wave[n - 1]] else []
  }

  /** They are the places with a confirmed write, each once and in increasing order. */
  lemma {:induction false} WrittenMeans(wave: seq<seq<Document>>, outcomes: seq<BatchOutcome>, n: nat)
    returns (places: seq<nat>)
    requires n <= |wave| == |outcomes|
    ensures |places| == |WrittenOf(wave, outcomes, n)|
    ensures forall i | 0 <= i < |places| :: places[i] < n && WrittenOf(wave, outcomes, n)[i] == wave[places[i]]
    ensures forall i, j | 0 <= i < j < |places| :: places[i] < places[j]
    ensures forall k | 0 <= k < n :: outcomes[k] == Written <==> k in places
  {
    places := [];
    if n > 0 {
      places := WrittenMeans(wave, outcomes, n - 1);
      if outcomes[n - 1] == Written { places := places + [n - 1]; }
    }
  }

  lemma {:induction false} WrittenPrefix(wave: seq<seq<Document>>, outcomes: seq<BatchOutcome>, n: nat)
    requires n <= |wave| == |outcomes|
    ensures WrittenOf(wave, outcomes, n) <= WrittenOf(wave, outcomes, |wave|)
    ensures |WrittenOf(wave, outcomes, n)| <= n
    ensures TotalLength(WrittenOf(wave, outcomes, n)) <= TotalLength(wave[..n])
    decreases |wave| - n
  {
    WrittenLength(wave, outcomes, n);
    if n < |wave| { WrittenPrefix(wave, outcomes, n + 1); }
  }

  lemma {:induction false} WrittenLength(wave: seq<seq<Document>>, outcomes: seq<BatchOutcome>, n: nat)
    requires n <= |wave| == |outcomes|
    ensures |WrittenOf(wave, outcomes, n)| <= n
    ensures TotalLength(WrittenOf(wave, outcomes, n)) <= TotalLength(wave[..n])
  {
    if n > 0 {
      WrittenLength(wave, outcomes, n - 1);
      WrittenStep(wave, outcomes, n - 1);
      assert wave[..n] == wave[..n - 1] + [wave[n - 1]];
      FlattenAppend(wave[..n - 1], wave[n - 1]);
      FlattenAppend(WrittenOf(wave, outcomes, n - 1), wave[n - 1]);
    }
  }

  lemma WrittenStep(wave: seq<seq<Document>>, outcomes: seq<BatchOutcome>, n: nat)
    requires n < |wave| == |outcomes|
    ensures WrittenOf(wave, outcomes, 0) == []
    ensures outcomes[n] == Written ==> WrittenOf(wave, outcomes, n + 1) == WrittenOf(wave, outcomes, n) + [wave[n]]
    ensures outcomes[n] != Written ==> WrittenOf(wave, outcomes, n + 1) == WrittenOf(wave, outcomes, n)
  {
  }

  lemma IdsStep(batches: seq<seq<Document>>, last: seq<Document>)
    ensures IdSet(Flatten(batches + [last])) == IdSet(Flatten(batches)) + IdSet(last)
    ensures IdSet(Flatten([])) == {}
  {
    FlattenAppend(batches, last);
  }

  lemma {:induction false} AllWrittenIsWave(wave: seq<seq<Document>>, outcomes: seq<BatchOutcome>, n: nat)
    requires n <= |wave| == |outcomes|
    ensures WrittenOf(wave, outcomes, n) == wave[..n] <==> forall k | 0 <= k < n :: outcomes[k] == Written
    ensures |WrittenOf(wave, outcomes, n)| == n <==> forall k | 0 <= k < n :: outcomes[k] == Written
  {
    WrittenLength(wave, outcomes, n);
    if n > 0 {
      AllWrittenIsWave(wave, outcomes, n - 1);
      WrittenLength(wave, outcomes, n - 1);
      assert wave[..n] == wave[..n - 1] + [wave[n - 1]];
    }
  }

  method IngestWave(env: Environment, wave: seq<seq<Document>>) returns (outcomes: seq<BatchOutcome>)
    modifies env`remote, env`specified, env`confirmed, env`waves, env`faults
    ensures |outcomes| == |wave| && env.waves == old(env.waves) + [|wave|]
    ensures env.confirmed == old(env.confirmed) + WrittenOf(wave, outcomes, |wave|)
    ensures old(env.remote) <= env.remote <= old(env.remote) + IdSet(Flatten(wave))
    ensures forall j | 0 <= j < |wave| && outcomes[j] == Written :: IdSet(wave[j]) <= env.remote && env.specified
    ensures old(env.specified) ==> env.specified
    ensures old(env.faults) <= env.faults
    ensures env.faults == old(env.faults) ==> forall j | 0 <= j < |wave| :: outcomes[j] == Written
  {
    outcomes := [];
    env.waves := env.waves + [|wave|];
    for j := 0 to |wave|
      invariant |outcomes| == j && env.waves == old(env.waves) + [|wave|]
      invariant env.confirmed == old(env.confirmed) + WrittenOf(wave[..j], outcomes, j)
      invariant old(env.remote) <= env.remote <= old(env.remote) + IdSet(Flatten(wave))
      invariant forall i | 0 <= i < j && outcomes[i] == Written :: IdSet(wave[i]) <= env.remote && env.specified
      invariant old(env.specified) ==> env.specified
      invariant old(env.faults) <= env.faults
      invariant env.faults == old(env.faults) ==> forall i | 0 <= i < j :: outcomes[i] == Written
    {
      var outcome := env.IngestBatch(wave[j]);
      forall d | d in wave[j] ensures d in Flatten(wave) { FlattenMember(wave, j, d); }
      WrittenSame(wave[..j], outcomes, wave[..j + 1], outcomes + [outcome], j);
      outcomes := outcomes + [outcome];
    }
    assert wave[..|wave|] == wave;
  }

  lemma {:induction false} WrittenSame(a: seq<seq<Document>>, x: seq<BatchOutcome>, b: seq<seq<Document>>,
                                       y: seq<BatchOutcome>, n: nat)
    requires n <= |a| == |x| && n <= |b| == |y| && a[..n] == b[..n] && x[..n] == y[..n]
    ensures WrittenOf(a, x, n) == WrittenOf(b, y, n)
  {
    if n > 0 {
      assert a[..n - 1] == a[..n][..n - 1] && b[..n - 1] == b[..n][..n - 1];
      assert x[..n - 1] == x[..n][..n - 1] && y[..n - 1] == y[..n][..n - 1];
      assert a[n - 1] == a[..n][n - 1] == b[..n][n - 1] && x[n - 1] == x[..n][n - 1] == y[..n][n - 1];
      WrittenSame(a, x, b, y, n - 1);
    }
  }

  /** Offer the checkpoint of everything completed so far to the durable store. */
  method SaveProgress(env: Environment, namespace: string, revision: Revision, ghost expected: set<DocId>,
                      ids: set<DocId>)
    returns (ok: bool)
    requires env.Sound(namespace, revision, expected)
    requires ids <= expected && ids <= env.remote && env.acknowledged <= ids
    modifies env`stored, env`recoverable, env`acknowledged, env`offered, env`failedSaves, env`faults
    ensures env.Sound(namespace, revision, expected)
    ensures old(env.acknowledged) <= env.acknowledged <= ids && env.offered == old(env.offered) + [ids]
    ensures ok ==> Claimed(env.stored) == ids && env.failedSaves == old(env.failedSaves)
    ensures ok ==> env.stored.Some? && Canonical(env.stored.value)
    ensures !ok ==> env.failedSaves == old(env.failedSaves) + 1
    ensures env.faults == old(env.faults) + if ok then 0 else 1
  {
    SortedElementsSound(ids);
    ok := env.Save(Checkpoint(1, namespace, revision, SortedElements(ids)));
  }

  /** The order that the checkpoint record demands of its identifiers. */
  predicate Canonical(checkpoint: Checkpoint) {
    forall i, j | 0 <= i < j < |checkpoint.completed| :: checkpoint.completed[i] < checkpoint.completed[j]
  }

  datatype WaveStatus = AllWritten | SomeFailed | SaveFailed | WaveCancelled

  /** Consume a wave's outcomes in order: each success extends and saves the checkpoint, the first
      cancellation ends the attempt at once, and a failure lets later successes still be saved. `stop` is
      the number of outcomes consumed. */
  method RecordWave(env: Environment, namespace: string, revision: Revision, ghost expected: set<DocId>,
                    wave: seq<seq<Document>>, outcomes: seq<BatchOutcome>, start: set<DocId>)
    returns (status: WaveStatus, ids: set<DocId>, completed: seq<seq<Document>>, ghost stop: nat)
    requires |outcomes| == |wave|
    requires env.Sound(namespace, revision, expected)
    requires start <= expected && start <= env.remote
    requires forall j | 0 <= j < |wave| :: IdSet(wave[j]) <= expected
    requires forall j | 0 <= j < |wave| && outcomes[j] == Written :: IdSet(wave[j]) <= env.remote
    requires env.acknowledged <= start && Claimed(env.stored) == start
    modifies env`stored, env`recoverable, env`acknowledged, env`offered, env`failedSaves, env`faults
    ensures env.Sound(namespace, revision, expected)
    ensures start <= ids <= expected && ids <= env.remote && old(env.acknowledged) <= env.acknowledged <= ids
    ensures status != SaveFailed ==> Claimed(env.stored) == ids
    ensures old(env.offered) <= env.offered && Growing(env.offered, |old(env.offered)|, start, ids)
    // Every confirmed batch that was reached, and no other, is completed, counted and offered once.
    ensures stop <= |wave| && completed == WrittenOf(wave, outcomes, stop) && ids == start + IdSet(Flatten(completed))
    ensures status == AllWritten ==> completed == wave && ids == start + IdSet(Flatten(wave))
    ensures TotalLength(completed) <= TotalLength(wave)
    ensures |env.offered| == |old(env.offered)| + |completed|
    ensures completed != [] ==> env.offered[|env.offered| - 1] == ids
    ensures completed != [] && status != SaveFailed ==> env.stored.Some? && Canonical(env.stored.value)
    // What is reached: everything, or everything before the first cancellation or up to a failing save.
    ensures forall k | 0 <= k < stop :: outcomes[k] != BatchCancelled
    ensures status == AllWritten <==> stop == |wave| && env.failedSaves == old(env.failedSaves)
                                      && forall k | 0 <= k < |wave| :: outcomes[k] == Written
    ensures status == SomeFailed <==> stop == |wave| && env.failedSaves == old(env.failedSaves)
                                      && exists k :: 0 <= k < |wave| && outcomes[k] == Failed
    ensures status == WaveCancelled <==> stop < |wave| && env.failedSaves == old(env.failedSaves)
    ensures status == WaveCancelled ==> outcomes[stop] == BatchCancelled
    ensures status == SaveFailed <==> env.failedSaves == old(env.failedSaves) + 1
    ensures status == SaveFailed ==> 0 < stop && outcomes[stop - 1] == Written
    ensures old(env.faults) <= env.faults
    ensures env.faults == old(env.faults) && (forall j | 0 <= j < |wave| :: outcomes[j] == Written) ==>
              status == AllWritten
  {
    hide Environment.Sound, Growing, Claimed, Canonical, Flatten, TotalLength, IdSet, WrittenOf;
    status, ids, completed := AllWritten, start, [];
    IdsStep([], []);
    NoneWritten(wave, outcomes);
    GrowingEmpty(env.offered, start);
    for j := 0 to |wave|
      invariant status == if exists k :: 0 <= k < j && outcomes[k] == Failed then SomeFailed else AllWritten
      invariant env.Sound(namespace, revision, expected)
      invariant start <= ids <= expected && ids <= env.remote && old(env.acknowledged) <= env.acknowledged <= ids
      invariant Claimed(env.stored) == ids && env.failedSaves == old(env.failedSaves)
      invariant old(env.offered) <= env.offered && Growing(env.offered, |old(env.offered)|, start, ids)
      invariant completed == WrittenOf(wave, outcomes, j) && ids == start + IdSet(Flatten(completed))
      invariant |env.offered| == |old(env.offered)| + |completed|
      invariant completed != [] ==> env.offered[|env.offered| - 1] == ids
      invariant completed != [] ==> env.stored.Some? && Canonical(env.stored.value)
      invariant forall k | 0 <= k < j :: outcomes[k] != BatchCancelled
      invariant old(env.faults) == env.faults
    {
      WrittenStep(wave, outcomes, j);
      IdsStep(completed, wave[j]);
      stop := j;
      if outcomes[j] == BatchCancelled {
        Reached(wave, outcomes, stop);
        return WaveCancelled, ids, completed, stop;
      }
      if outcomes[j] == Failed {
        status := SomeFailed;
      } else {
        completed := completed + [wave[j]];
        GrowingExtends(env.offered, |old(env.offered)|, start, ids, ids + IdSet(wave[j]));
        ids := ids + IdSet(wave[j]);
        stop := j + 1;
        var ok := SaveProgress(env, namespace, revision, expected, ids);
        if !ok {
          Reached(wave, outcomes, stop);
          return SaveFailed, ids, completed, stop;
        }
      }
    }
    stop := |wave|;
    Reached(wave, outcomes, stop);
    assert wave[..|wave|] == wave;
  }

  lemma NoneWritten(wave: seq<seq<Document>>, outcomes: seq<BatchOutcome>)
    requires |wave| == |outcomes|
    ensures WrittenOf(wave, outcomes, 0) == []
  {
  }

  lemma Reached(wave: seq<seq<Document>>, outcomes: seq<BatchOutcome>, n: nat)
    requires n <= |wave| == |outcomes|
    ensures TotalLength(WrittenOf(wave, outcomes, n)) <= TotalLength(wave)
    ensures (forall k | 0 <= k < n :: outcomes[k] == Written) ==> WrittenOf(wave, outcomes, n) == wave[..n]
  {
    WrittenLength(wave, outcomes, n);
    TotalLengthPrefix(wave, n);
    AllWrittenIsWave(wave, outcomes, n);
  }

  predicate IsReady(readiness: Readiness, expected: set<DocId>, total: nat) {
    && readiness.metadataReady && readiness.indexesReady
    && readiness.documentCount == total
    && readiness.documentIds == expected
    && readiness.schemaMatches
  }

  /** Poll the readiness inspection; an inspection that raises ends the attempt. */
  method AwaitReadiness(env: Environment, expected: set<DocId>, total: nat, attempts: nat) returns (ready: bool)
    requires attempts > 0
    modifies env`inspections, env`faults
    ensures ready ==> env.remote == expected && env.specified && |expected| == total
    ensures old(env.faults) <= env.faults
    ensures env.faults == old(env.faults) ==>
              (ready <==> env.specified && env.remote == expected && |expected| == total)
    // It polls until an inspection is ready or raises, or the attempts are used up.
    ensures old(env.inspections) < env.inspections && |env.inspections| <= |old(env.inspections)| + attempts
    ensures forall i | |old(env.inspections)| <= i < |env.inspections| - 1 ::
              env.inspections[i].Some? && !IsReady(env.inspections[i].value, expected, total)
    ensures var last := env.inspections[|env.inspections| - 1];
            && (ready <==> last.Some? && last.value.metadataReady && last.value.indexesReady && last.value.schemaMatches
                           && last.value.documentCount == total && last.value.documentIds == expected)
            && (!ready && last.Some? ==> |env.inspections| == |old(env.inspections)| + attempts)
  {
    ready := false;
    for attempt := 0 to attempts
      invariant !ready
      invariant |env.inspections| == |old(env.inspections)| + attempt && old(env.inspections) <= env.inspections
      invariant forall i | |old(env.inspections)| <= i < |env.inspections| ::
                  env.inspections[i].Some? && !IsReady(env.inspections[i].value, expected, total)
      invariant old(env.faults) <= env.faults
      invariant env.faults == old(env.faults) && attempt > 0 ==>
                  !(env.specified && env.remote == expected && |expected| == total)
    {
      var readiness := env.InspectReadiness();
      if readiness.None? { return false; }
      if IsReady(readiness.value, expected, total) { return true; }
    }
  }

  lemma DistinctIds(documents: seq<Document>)
    requires Distinct(Ids(documents))
    ensures |IdSet(documents)| == |documents|
  {
    DistinctCard(Ids(documents));
    forall x ensures x in ToSet(Ids(documents)) <==> x in IdSet(documents) {
      if x in IdSet(documents) {
        var d :| d in documents && d.id == x;
        var i :| 0 <= i < |documents| && documents[i] == d;
        assert Ids(documents)[i] == x;
      }
      if x in Ids(documents) {
        var i :| 0 <= i < |documents| && Ids(documents)[i] == x;
        assert documents[i] in documents;
      }
    }
    assert ToSet(Ids(documents)) == IdSet(documents);
  }

  /** The batches cover exactly the pending documents, once each. */
  lemma BatchesCoverPending(documents: seq<Document>, resumed: set<DocId>, batchSize: nat)
    requires batchSize > 0 && Distinct(Ids(documents)) && resumed <= IdSet(documents)
    ensures var batches := MakeBatches(Pending(documents, resumed), batchSize);
            && multiset(Flatten(batches)) == multiset(Pending(documents, resumed))
            && TotalLength(batches) + |resumed| == |documents|
            && resumed + IdSet(Flatten(batches)) == IdSet(documents)
            && (batches == [] <==> resumed == IdSet(documents))
  {
    var pending := Pending(documents, resumed);
    var sorted := Sort(pending, ExternalLe);
    ChunksFlatten(sorted, batchSize);
    PendingCount(documents, resumed);
    PendingMembers(documents, resumed);
    PermutationMembers(pending, sorted);
    var all := resumed + IdSet(sorted);
    forall x ensures x in all <==> x in IdSet(documents) {
      if x in IdSet(documents) && x !in resumed {
        var d :| d in documents && d.id == x;
        assert d in sorted;
      }
    }
    DistinctIds(documents);
    if resumed == IdSet(documents) {
      assert |pending| == 0;
    }
  }

  /** Batches run in the order of the external identifiers, and every batch but the last is full. */
  lemma BatchShapes(documents: seq<Document>, batchSize: nat)
    requires batchSize > 0
    ensures var batches := MakeBatches(documents, batchSize);
            && (forall i, j | 0 <= i < j < |Flatten(batches)| ::
                  Flatten(batches)[i].externalId <= Flatten(batches)[j].externalId)
            && (forall i | 0 <= i < |batches| :: 0 < |batches[i]| <= batchSize)
            && (forall i | 0 <= i < |batches| - 1 :: |batches[i]| == batchSize)
  {
    hide Chunks, Sort, Flatten, TotalLength;
    var sorted := Sort(documents, ExternalLe);
    var batches := Chunks(sorted, batchSize);
    ChunksFlatten(sorted, batchSize);
    ExternalLaws();
    SortSorted(documents, ExternalLe);
    assert forall i | 0 <= i < |batches| :: batches[i] in batches;
    assert forall i, j | 0 <= i < j < |sorted| :: ExternalLe(sorted[i], sorted[j]);
  }

  lemma ExternalLaws()
    ensures Total(ExternalLe) && Transitive(ExternalLe)
  {
  }

  lemma BatchWithin(batches: seq<seq<Document>>, j: nat, expected: set<DocId>)
    requires j < |batches| && IdSet(Flatten(batches)) <= expected
    ensures IdSet(batches[j]) <= expected
  {
    forall d | d in batches[j] ensures d in Flatten(batches) { FlattenMember(batches, j, d); }
  }

  lemma {:induction false} FlattenConcat<T>(a: seq<seq<T>>, b: seq<seq<T>>)
    ensures Flatten(a + b) == Flatten(a) + Flatten(b)
    ensures TotalLength(a + b) == TotalLength(a) + TotalLength(b)
  {
    if a == [] {
      assert a + b == b;
    } else {
      assert (a + b)[1..] == a[1..] + b;
      FlattenConcat(a[1..], b);
    }
  }

  lemma SliceStep(batches: seq<seq<Document>>, a: nat, b: nat, expected: set<DocId>)
    requires a <= b <= |batches| && IdSet(Flatten(batches)) <= expected
    ensures batches[..b] == batches[..a] + batches[a..b]
    ensures IdSet(Flatten(batches[..b])) == IdSet(Flatten(batches[..a])) + IdSet(Flatten(batches[a..b]))
    ensures TotalLength(batches[..b]) == TotalLength(batches[..a]) + TotalLength(batches[a..b])
    ensures TotalLength(batches[..b]) <= TotalLength(batches)
    ensures IdSet(Flatten(batches[a..b])) <= expected
    ensures forall j | 0 <= j < |batches[a..b]| :: IdSet(batches[a..b][j]) <= expected
  {
    assert batches[..b] == batches[..a] + batches[a..b];
    assert batches == batches[..b] + batches[b..];
    FlattenConcat(batches[..a], batches[a..b]);
    FlattenConcat(batches[..b], batches[b..]);
    forall j | 0 <= j < |batches[a..b]| ensures IdSet(batches[a..b][j]) <= expected {
      BatchWithin(batches, a + j, expected);
    }
  }

  lemma SliceWithin(batches: seq<seq<Document>>, a: nat, b: nat)
    requires a <= b <= |batches|
    ensures IdSet(Flatten(batches[a..b])) <= IdSet(Flatten(batches))
  {
    hide Flatten;
    var slice := batches[a..b];
    forall d | d in Flatten(slice) ensures d in Flatten(batches) {
      FlattenOrigin(slice, d);
      var k :| 0 <= k < |slice| && d in slice[k];
      assert batches[a + k] == slice[k];
      FlattenMember(batches, a + k, d);
    }
  }

  /** Write one wave of batches and record what succeeded. */
  method RunWave(env: Environment, namespace: string, revision: Revision, ghost expected: set<DocId>,
                 wave: seq<seq<Document>>, start: set<DocId>)
    returns (status: WaveStatus, ids: set<DocId>, completed: seq<seq<Document>>)
    requires wave != []
    requires env.Sound(namespace, revision, expected)
    requires start <= expected && start <= env.remote && env.acknowledged <= start && Claimed(env.stored) == start
    requires forall j | 0 <= j < |wave| :: IdSet(wave[j]) <= expected
    modifies env
    ensures env.Sound(namespace, revision, expected)
    ensures start <= ids <= expected && ids <= env.remote && old(env.acknowledged) <= env.acknowledged <= ids
    ensures status != SaveFailed ==> Claimed(env.stored) == ids
    ensures old(env.remote) <= env.remote <= old(env.remote) + IdSet(Flatten(wave))
    ensures old(env.offered) <= env.offered && Growing(env.offered, |old(env.offered)|, start, ids)
    ensures TotalLength(completed) <= TotalLength(wave)
    ensures status == AllWritten ==> completed == wave && ids == start + IdSet(Flatten(wave)) && env.specified
    ensures old(env.specified) ==> env.specified
    ensures old(env.faults) <= env.faults && (env.faults == old(env.faults) ==> status == AllWritten)
    ensures env.waves == old(env.waves) + [|wave|] && ids == start + IdSet(Flatten(completed))
    ensures env.Recorded(start, completed, status != WaveCancelled)
    ensures old(env.failedSaves) <= env.failedSaves
    ensures status == SaveFailed <==> env.failedSaves > old(env.failedSaves)
    ensures status == AllWritten ==> env.confirmed == old(env.confirmed) + wave
  {
    hide Growing, IdSet, Flatten, TotalLength, Claimed, WrittenOf, RecordedIn, Canonical;
    var outcomes := IngestWave(env, wave);
    ghost var stop;
    status, ids, completed, stop := RecordWave(env, namespace, revision, expected, wave, outcomes, start);
    WrittenPrefix(wave, outcomes, stop);
    assert status == AllWritten ==> outcomes[0] == Written;
    assert stop == |wave| ==> completed == WrittenOf(wave, outcomes, |wave|);
    RecordedDirectly(old(env.Log()), env.Log(), start, completed, status != WaveCancelled);
  }

  /** Run the batches from `a` up to `b` as one wave. */
  method RunSlice(env: Environment, namespace: string, revision: Revision, ghost expected: set<DocId>,
                  batches: seq<seq<Document>>, a: nat, b: nat, start: set<DocId>)
    returns (status: WaveStatus, ids: set<DocId>, completed: seq<seq<Document>>)
    requires a < b <= |batches| && IdSet(Flatten(batches)) <= expected
    requires env.Sound(namespace, revision, expected)
    requires start <= expected && start <= env.remote && env.acknowledged <= start && Claimed(env.stored) == start
    modifies env
    ensures env.Sound(namespace, revision, expected)
    ensures start <= ids <= expected && ids <= env.remote && old(env.acknowledged) <= env.acknowledged <= ids
    ensures status != SaveFailed ==> Claimed(env.stored) == ids
    ensures old(env.remote) <= env.remote <= old(env.remote) + IdSet(Flatten(batches))
    ensures old(env.offered) <= env.offered && Growing(env.offered, |old(env.offered)|, start, ids)
    ensures TotalLength(batches[..a]) + TotalLength(completed) <= TotalLength(batches)
    ensures status == AllWritten ==> batches[..b] == batches[..a] + completed && env.specified
    ensures old(env.specified) ==> env.specified
    ensures old(env.faults) <= env.faults && (env.faults == old(env.faults) ==> status == AllWritten)
    ensures env.waves == old(env.waves) + [b - a] && ids == start + IdSet(Flatten(completed))
    ensures env.Recorded(start, completed, status != WaveCancelled)
    ensures old(env.failedSaves) <= env.failedSaves
    ensures status == SaveFailed <==> env.failedSaves > old(env.failedSaves)
    ensures status == AllWritten ==> env.confirmed == old(env.confirmed) + completed
  {
    hide Claimed, IdSet, Flatten, TotalLength, Growing, Environment.Sound, RecordedIn;
    SliceStep(batches, a, b, expected);
    SliceWithin(batches, a, b);
    status, ids, completed := RunWave(env, namespace, revision, expected, batches[a..b], start);
  }

  /** Run the batches in waves of at most `maxConcurrency`. */
  method RunWaves(env: Environment, namespace: string, revision: Revision, ghost expected: set<DocId>,
                  batches: seq<seq<Document>>, maxConcurrency: nat, resumed: set<DocId>)
    returns (status: WaveStatus, completed: seq<seq<Document>>)
    requires maxConcurrency > 0
    requires env.Sound(namespace, revision, expected)
    requires resumed <= expected && resumed <= env.remote && env.acknowledged <= resumed
               && Claimed(env.stored) == resumed
    requires IdSet(Flatten(batches)) <= expected
    modifies env
    ensures env.Sound(namespace, revision, expected) && old(env.acknowledged) <= env.acknowledged
    ensures status == AllWritten ==> Claimed(env.stored) == resumed + IdSet(Flatten(batches))
    ensures old(env.remote) <= env.remote <= old(env.remote) + IdSet(Flatten(batches))
    ensures old(env.offered) <= env.offered && Growing(env.offered, |old(env.offered)|, resumed, expected * env.remote)
    ensures TotalLength(completed) <= TotalLength(batches)
    ensures status == AllWritten ==> completed == batches && IdSet(Flatten(batches)) <= env.remote
    ensures status == AllWritten ==> env.specified == (old(env.specified) || batches != [])
    ensures old(env.faults) <= env.faults && (env.faults == old(env.faults) ==> status == AllWritten)
    ensures env.Recorded(resumed, completed, status != WaveCancelled)
    ensures old(env.failedSaves) <= env.failedSaves
    ensures status == SaveFailed <==> env.failedSaves > old(env.failedSaves)
    // Every wave but the last is full.
    ensures FullWaves(env.waves, |old(env.waves)|, maxConcurrency)
  {
    hide Claimed, IdSet, Flatten, TotalLength, Growing, FullWaves, RecordedIn, Environment.Sound;
    completed := [];
    RecordedNothing(env.Log(), true);
    var ids, waveStart := resumed, 0;
    assert batches[..0] == [];
    IdsStep([], []);
    FullWavesEmpty(env.waves, maxConcurrency);
    GrowingEmpty(env.offered, resumed);
    while waveStart < |batches|
      invariant 0 <= waveStart <= |batches|
      invariant completed == batches[..waveStart]
      invariant env.Sound(namespace, revision, expected)
      invariant resumed <= ids <= expected && ids <= env.remote && old(env.acknowledged) <= env.acknowledged <= ids
      invariant Claimed(env.stored) == ids
      invariant ids == resumed + IdSet(Flatten(batches[..waveStart]))
      invariant old(env.remote) <= env.remote <= old(env.remote) + IdSet(Flatten(batches))
      invariant old(env.offered) <= env.offered && Growing(env.offered, |old(env.offered)|, resumed, ids)
      invariant env.specified == (old(env.specified) || waveStart > 0)
      invariant old(env.faults) <= env.faults
      invariant env.failedSaves == old(env.failedSaves) && env.Recorded(resumed, completed, true)
      invariant old(env.waves) <= env.waves && FullWaves(env.waves, |old(env.waves)|, maxConcurrency)
      invariant waveStart < |batches| ==>
                  forall i | |old(env.waves)| <= i < |env.waves| :: env.waves[i] == maxConcurrency
    {
      ghost var known, offeredBefore, wavesBefore, log := ids, env.offered, env.waves, env.Log();
      var waveEnd := if waveStart + maxConcurrency <= |batches| then waveStart + maxConcurrency else |batches|;
      var more;
      status, ids, more := RunSlice(env, namespace, revision, expected, batches, waveStart, waveEnd, ids);
      FullWavesExtend(wavesBefore, |old(env.waves)|, maxConcurrency, waveEnd - waveStart);
      assert env.offered[..|offeredBefore|] == offeredBefore;
      GrowingJoins(env.offered, |old(env.offered)|, |offeredBefore|, resumed, known, ids);
      FlattenConcat(completed, more);
      IdSetJoins(Flatten(completed), Flatten(more));
      RecordedJoins(old(env.Log()), log, env.Log(), resumed, completed, more, status != WaveCancelled);
      completed := completed + more;
      if status != AllWritten {
        GrowingWider(env.offered, |old(env.offered)|, resumed, ids, expected * env.remote);
        return;
      }
      waveStart := waveEnd;
    }
    assert batches[..|batches|] == batches;
    GrowingWider(env.offered, |old(env.offered)|, resumed, ids, expected * env.remote);
    status := AllWritten;
  }

  lemma GrowingWider(offered: seq<set<DocId>>, from: nat, first: set<DocId>, last: set<DocId>, wider: set<DocId>)
    requires Growing(offered, from, first, last) && last <= wider
    ensures Growing(offered, from, first, wider)
  {
  }

  lemma GrowingJoins(offered: seq<set<DocId>>, a: nat, b: nat, first: set<DocId>, middle: set<DocId>, last: set<DocId>)
    requires a <= b <= |offered| && first <= middle <= last
    requires Growing(offered[..b], a, first, middle) && Growing(offered, b, middle, last)
    ensures Growing(offered, a, first, last)
  {
  }

  /** From place `from` on no wave exceeds the limit, and all but the last use it. */
  predicate FullWaves(waves: seq<nat>, from: nat, limit: nat) {
    && from <= |waves|
    && (forall i | from <= i < |waves| :: waves[i] <= limit)
    && (forall i | from <= i < |waves| - 1 :: waves[i] == limit)
  }

  lemma FullWavesEmpty(waves: seq<nat>, limit: nat)
    ensures FullWaves(waves, |waves|, limit)
  {
  }

  lemma FullWavesExtend(waves: seq<nat>, from: nat, limit: nat, n: nat)
    requires from <= |waves| && n <= limit && forall i | from <= i < |waves| :: waves[i] == limit
    ensures FullWaves(waves + [n], from, limit)
  {
  }

  lemma RecordedNothing(log: Journal, whole: bool)
    ensures RecordedIn(log, log, log.claimed, [], whole)
  {
  }

  lemma RecordedDirectly(a: Journal, b: Journal, start: set<DocId>, completed: seq<seq<Document>>, whole: bool)
    requires a.confirmed <= b.confirmed && a.offered <= b.offered && a.failedSaves <= b.failedSaves
    requires completed <= b.confirmed[|a.confirmed|..] && |b.offered| == |a.offered| + |completed|
    requires completed != [] ==> b.offered[|b.offered| - 1] == start + IdSet(Flatten(completed))
    requires b.failedSaves == a.failedSaves ==>
               && b.claimed == start + IdSet(Flatten(completed))
               && (whole ==> completed == b.confirmed[|a.confirmed|..])
    ensures RecordedIn(a, b, start, completed, whole)
  {
  }

  lemma RecordedJoins(a: Journal, b: Journal, c: Journal, start: set<DocId>, first: seq<seq<Document>>,
                      more: seq<seq<Document>>, whole: bool)
    requires RecordedIn(a, b, start, first, true) && a.failedSaves == b.failedSaves
    requires RecordedIn(b, c, start + IdSet(Flatten(first)), more, whole)
    ensures RecordedIn(a, c, start, first + more, whole)
  {
    hide Flatten, IdSet;
    FlattenConcat(first, more);
    IdSetJoins(Flatten(first), Flatten(more));
    assert first + [] == first;
  }

  lemma IdSetJoins(a: seq<Document>, b: seq<Document>)
    ensures IdSet(a + b) == IdSet(a) + IdSet(b)
  {
  }

  /** How many batches of this size hold that many documents. */
  predicate BatchCount(batches: nat, size: nat, documents: int) {
    (batches - 1) * size < documents <= batches * size
  }

  lemma {:induction false} ChunkCount<T>(s: seq<T>, size: nat)
    requires size > 0 && s != []
    ensures BatchCount(|Chunks(s, size)|, size, |s|)
  {
    if |s| > size {
      ChunkCount(s[size..], size);
      var n := |Chunks(s[size..], size)|;
      assert (n + 1 - 1) * size == (n - 1) * size + size && (n + 1) * size == n * size + size;
    } else {
      assert (1 - 1) * size == 0 && 1 * size == size;
    }
  }

  /** What a report says of an attempt that completed these batches. */
  predicate ReportFits(report: Report, documents: seq<Document>, batchSize: nat, resumed: set<DocId>,
                       completed: seq<seq<Document>>) {
    && report.documentsTotal == |documents| && report.resumedDocuments == |resumed|
    && report.documentsCompleted == |resumed| + TotalLength(completed) && report.batchesCompleted == |completed|
    && BatchCount(report.batchesTotal, batchSize, if resumed == IdSet(documents) then |documents|
                                                  else |documents| - |resumed|)
  }

  lemma ReportCounts(ready: bool, documents: seq<Document>, batchSize: nat, completed: seq<seq<Document>>,
                     resumed: set<DocId>)
    requires batchSize > 0 && ValidCorpus(documents) && documents != [] && resumed <= IdSet(documents)
    ensures ReportFits(MakeReport(ready, documents, batchSize, MakeBatches(Pending(documents, resumed), batchSize),
                                  completed, resumed), documents, batchSize, resumed, completed)
  {
    hide TotalLength, BatchCount;
    var pending := Pending(documents, resumed);
    PendingCount(documents, resumed);
    DistinctIds(documents);
    BatchesCoverPending(documents, resumed, batchSize);
    if pending == [] {
      ChunkCount(Sort(documents, ExternalLe), batchSize);
    } else {
      ChunkCount(Sort(pending, ExternalLe), batchSize);
    }
  }

  /** The batch total counts the whole corpus again when nothing was pending. */
  function MakeReport(ready: bool, documents: seq<Document>, batchSize: nat, batches: seq<seq<Document>>,
                      completed: seq<seq<Document>>, resumed: set<DocId>): Report
    requires batchSize > 0
  {
    Report(ready, if batches != [] then |batches| else |MakeBatches(documents, batchSize)|, |completed|,
           |documents|, |resumed| + TotalLength(completed), |resumed|)
  }

  /** Whether a fault-free attempt can confirm the namespace: something is left to write, or this process
      has written before, and the namespace holds no foreign document. */
  predicate CanConfirm(documents: seq<Document>, claimed: set<DocId>, specified: bool, remote: set<DocId>) {
    && (specified || Pending(documents, claimed) != [])
    && remote <= IdSet(documents)
  }

  lemma PendingBatches(documents: seq<Document>, resumed: set<DocId>, batchSize: nat)
    requires batchSize > 0
    ensures MakeBatches(Pending(documents, resumed), batchSize) == [] <==> Pending(documents, resumed) == []
    ensures documents != [] ==> MakeBatches(documents, batchSize) != []
  {
    ChunksFlatten(Sort(Pending(documents, resumed), ExternalLe), batchSize);
    ChunksFlatten(Sort(documents, ExternalLe), batchSize);
  }

  /** Batch the pending documents and write them. */
  method WritePending(env: Environment, namespace: string, revision: Revision, documents: seq<Document>,
                      batchSize: nat, maxConcurrency: nat, resumed: set<DocId>)
    returns (status: WaveStatus, batches: seq<seq<Document>>, completed: seq<seq<Document>>)
    requires batchSize > 0 && maxConcurrency > 0 && documents != []
    requires ValidCorpus(documents) && env.Sound(namespace, revision, IdSet(documents))
    requires resumed == Claimed(env.stored)
    modifies env
    ensures env.Sound(namespace, revision, IdSet(documents)) && old(env.acknowledged) <= env.acknowledged
    ensures old(env.remote) <= env.remote <= old(env.remote) + IdSet(documents)
    ensures old(env.offered) <= env.offered
    ensures Growing(env.offered, |old(env.offered)|, resumed, IdSet(documents) * env.remote)
    ensures batches == [] <==> Pending(documents, resumed) == []
    ensures batches == [] <==> resumed == IdSet(documents)
    ensures batches == [] ==> MakeBatches(documents, batchSize) != []
    ensures |resumed| + TotalLength(completed) <= |documents| == |IdSet(documents)|
    ensures status == AllWritten ==>
      && completed == batches && |resumed| + TotalLength(completed) == |documents|
      && Claimed(env.stored) == IdSet(documents) <= env.remote
      && env.specified == (old(env.specified) || batches != [])
    ensures old(env.faults) <= env.faults && (env.faults == old(env.faults) ==> status == AllWritten)
    ensures batches == MakeBatches(Pending(documents, resumed), batchSize)
    ensures env.Recorded(resumed, completed, status != WaveCancelled)
    ensures old(env.failedSaves) <= env.failedSaves
    ensures status == SaveFailed <==> env.failedSaves > old(env.failedSaves)
    ensures FullWaves(env.waves, |old(env.waves)|, maxConcurrency)
  {
    batches := MakeBatches(Pending(documents, resumed), batchSize);
    BatchesCoverPending(documents, resumed, batchSize);
    DistinctIds(documents);
    PendingBatches(documents, resumed, batchSize);
    hide Growing, Distinct, Ids, Pending, IdSet, MakeBatches, Flatten, TotalLength, Claimed, Environment.Truthful;
    status, completed := RunWaves(env, namespace, revision, IdSet(documents), batches, maxConcurrency, resumed);
  }

  /** An attempt after its checkpoint was accepted. */
  method WriteAndConfirm(env: Environment, namespace: string, revision: Revision, documents: seq<Document>,
                         batchSize: nat, maxConcurrency: nat, attempts: nat, resumed: set<DocId>)
    returns (r: Result<Report, Failure>, completed: seq<seq<Document>>)
    requires batchSize > 0 && maxConcurrency > 0 && attempts > 0 && documents != []
    requires ValidCorpus(documents) && env.Sound(namespace, revision, IdSet(documents))
    requires resumed == Claimed(env.stored)
    modifies env
    ensures env.Sound(namespace, revision, IdSet(documents)) && old(env.acknowledged) <= env.acknowledged
    ensures old(env.remote) <= env.remote <= old(env.remote) + IdSet(documents)
    ensures old(env.offered) <= env.offered
    ensures Growing(env.offered, |old(env.offered)|, resumed, IdSet(documents) * env.remote)
    ensures r.Ok? ==>
      && env.remote == IdSet(documents) == Claimed(env.stored)
      && r.value.ready && r.value.documentsCompleted == r.value.documentsTotal == |documents|
      && r.value.resumedDocuments == |resumed|
      && (r.value.batchesCompleted == r.value.batchesTotal <==> resumed != IdSet(documents))
    ensures r.Err? ==> !r.error.EmptyCorpus? && !r.error.InvalidCheckpoint?
    ensures r.Err? && (r.error.BatchFailed? || r.error.ReadinessFailed?) ==>
      !r.error.report.ready && r.error.report.documentsCompleted <= r.error.report.documentsTotal == |documents|
    ensures old(env.faults) <= env.faults
    ensures r.Ok? ==> CanConfirm(documents, resumed, old(env.specified), old(env.remote))
    ensures env.faults == old(env.faults) ==>
      if CanConfirm(documents, resumed, old(env.specified), old(env.remote)) then r.Ok?
      else r.Err? && r.error.ReadinessFailed?
    ensures env.Recorded(resumed, completed, r != Err(Cancelled))
    ensures env.failedSaves > old(env.failedSaves) ==> r.Err? && r.error.BatchFailed?
    ensures r.Ok? ==> ReportFits(r.value, documents, batchSize, resumed, completed)
    ensures r.Err? && (r.error.BatchFailed? || r.error.ReadinessFailed?) ==>
      ReportFits(r.error.report, documents, batchSize, resumed, completed)
    ensures FullWaves(env.waves, |old(env.waves)|, maxConcurrency)
  {
    hide Growing, Distinct, Ids, Pending, IdSet, MakeBatches, TotalLength, Claimed, BatchCount, FullWaves;
    assert resumed <= IdSet(documents) by { StoredWithin(env, namespace, revision, documents); }
    var status, batches;
    status, batches, completed :=
      WritePending(env, namespace, revision, documents, batchSize, maxConcurrency, resumed);
    if status == WaveCancelled { return Err(Cancelled), completed; }
    ReportCounts(false, documents, batchSize, completed, resumed);
    var report := MakeReport(false, documents, batchSize, batches, completed, resumed);
    if status != AllWritten { return Err(BatchFailed(report)), completed; }
    var ready := AwaitReadiness(env, IdSet(documents), |documents|, attempts);
    if !ready { return Err(ReadinessFailed(report)), completed; }
    return Ok(report.(ready := true)), completed;
  }

  lemma StoredWithin(env: Environment, namespace: string, revision: Revision, documents: seq<Document>)
    requires env.Sound(namespace, revision, IdSet(documents))
    ensures Claimed(env.stored) <= IdSet(documents)
  {
  }

  /** One attempt: load the checkpoint, write what is pending, confirm readiness. */
  method Ingest(env: Environment, namespace: string, revision: Revision, documents: seq<Document>,
                batchSize: nat, maxConcurrency: nat, attempts: nat)
    returns (r: Result<Report, Failure>)
    requires batchSize > 0 && maxConcurrency > 0 && attempts > 0
    requires ValidCorpus(documents)
    requires ValidateCheckpoint(env.stored, namespace, revision, IdSet(documents)).Some? ==>
               env.Sound(namespace, revision, IdSet(documents))
    modifies env
    ensures old(env.Sound(namespace, revision, IdSet(documents))) ==> env.Sound(namespace, revision, IdSet(documents))
    ensures old(env.acknowledged) <= env.acknowledged
    ensures old(env.remote) <= env.remote <= old(env.remote) + IdSet(documents)
    ensures old(env.offered) <= env.offered
    ensures Growing(env.offered, |old(env.offered)|, Claimed(old(env.stored)), IdSet(documents) * env.remote)
    ensures r == Err(EmptyCorpus) <==> documents == []
    // Only a checkpoint of this format, namespace and revision, without repeats and within the corpus, resumes.
    ensures r == Err(InvalidCheckpoint) <==>
            documents != [] && old(env.stored).Some? && Unusable(old(env.stored).value, namespace, revision, documents)
    ensures old(env.Sound(namespace, revision, IdSet(documents))) ==> r != Err(InvalidCheckpoint)
    ensures r.Ok? ==>
      && env.remote == IdSet(documents) == Claimed(env.stored)
      && r.value.ready && r.value.documentsCompleted == r.value.documentsTotal == |documents|
      && r.value.resumedDocuments == |Claimed(old(env.stored))|
      && (r.value.batchesCompleted == r.value.batchesTotal <==> Claimed(old(env.stored)) != IdSet(documents))
    ensures r.Err? && (r.error.BatchFailed? || r.error.ReadinessFailed?) ==>
      !r.error.report.ready && r.error.report.documentsCompleted <= r.error.report.documentsTotal == |documents|
    ensures old(env.faults) <= env.faults
    ensures r.Ok? ==> CanConfirm(documents, Claimed(old(env.stored)), old(env.specified), old(env.remote))
    ensures env.faults == old(env.faults) && documents != [] && r != Err(InvalidCheckpoint) ==>
      if CanConfirm(documents, Claimed(old(env.stored)), old(env.specified), old(env.remote))
      then r.Ok? else r.Err? && r.error.ReadinessFailed?
    // What was done, in terms of the offered checkpoints and the confirmed writes of this attempt: each of the
    // first confirmed batches was offered once, all of them unless the attempt was cancelled or a save failed,
    // and they are what the report counts and what the stored checkpoint gained.
    ensures old(env.confirmed) <= env.confirmed
    ensures |env.offered| - |old(env.offered)| <= |env.confirmed| - |old(env.confirmed)|
    ensures r.Ok? || (r.Err? && (r.error.BatchFailed? || r.error.ReadinessFailed?)) ==>
      ReportFits(if r.Ok? then r.value else r.error.report, documents, batchSize, Claimed(old(env.stored)),
                 env.confirmed[|old(env.confirmed)|..][..|env.offered| - |old(env.offered)|])
    ensures env.failedSaves == old(env.failedSaves) ==>
      && Claimed(env.stored) == Claimed(old(env.stored))
           + IdSet(Flatten(env.confirmed[|old(env.confirmed)|..][..|env.offered| - |old(env.offered)|]))
      && (r != Err(Cancelled) ==>
            |env.offered| - |old(env.offered)| == |env.confirmed| - |old(env.confirmed)|)
    ensures env.failedSaves > old(env.failedSaves) ==> r.Err? && r.error.BatchFailed?
    ensures old(env.failedSaves) <= env.failedSaves
    ensures FullWaves(env.waves, |old(env.waves)|, maxConcurrency)
  {
    hide CanConfirm, Ids, Pending, Growing, TotalLength, ReportFits, FullWaves, Environment.Sound, ValidateCheckpoint,
      Unusable, IdSet, Claimed, Flatten, ValidCorpus;
    ResumeMeans(env.stored, namespace, revision, documents);
    NothingDone(env, maxConcurrency);
    if env.Sound(namespace, revision, IdSet(documents)) { SoundResumes(env, namespace, revision, documents); }
    if documents == [] { return Err(EmptyCorpus); }
    var resume := ValidateCheckpoint(env.stored, namespace, revision, IdSet(documents));
    if resume.None? { return Err(InvalidCheckpoint); }
    var completed;
    r, completed := WriteAndConfirm(env, namespace, revision, documents, batchSize, maxConcurrency, attempts,
                                    resume.value);
    assert env.confirmed[|old(env.confirmed)|..][..|env.offered| - |old(env.offered)|] == completed;
  }

  /** A checkpoint of another format, namespace or revision, with a repeat, or with an unknown document. */
  predicate Unusable(c: Checkpoint, namespace: string, revision: Revision, documents: seq<Document>) {
    || c.formatVersion != 1 || c.namespace != namespace || c.revision != revision
    || (exists i, j :: 0 <= i < j < |c.completed| && c.completed[i] == c.completed[j])
    || (exists x :: x in c.completed && forall d | d in documents :: d.id != x)
  }

  lemma ResumeMeans(stored: Option<Checkpoint>, namespace: string, revision: Revision, documents: seq<Document>)
    ensures ValidateCheckpoint(stored, namespace, revision, IdSet(documents)).None? <==>
            stored.Some? && Unusable(stored.value, namespace, revision, documents)
    ensures ValidateCheckpoint(stored, namespace, revision, IdSet(documents)).Some? ==>
              ValidateCheckpoint(stored, namespace, revision, IdSet(documents)) == Some(Claimed(stored))
  {
    if stored.Some? {
      var c := stored.value;
      if !(ToSet(c.completed) <= IdSet(documents)) {
        var x :| x in ToSet(c.completed) && x !in IdSet(documents);
        assert x in c.completed;
      }
      if x :| x in c.completed && forall d | d in documents :: d.id != x {
        assert x in ToSet(c.completed) && x !in IdSet(documents);
      }
    }
  }

  lemma SoundResumes(env: Environment, namespace: string, revision: Revision, documents: seq<Document>)
    requires env.Sound(namespace, revision, IdSet(documents))
    ensures ValidateCheckpoint(env.stored, namespace, revision, IdSet(documents)).Some?
  {
  }

  lemma NothingDone(env: Environment, limit: nat)
    ensures forall a, b :: Growing(env.offered, |env.offered|, a, b)
    ensures FullWaves(env.waves, |env.waves|, limit)
    ensures IdSet(Flatten([])) == {}
  {
  }

  /** Any history of attempts, each in the same or a new process, with or without a power loss before it. */
  method Campaign(env: Environment, namespace: string, revision: Revision, documents: seq<Document>,
                  batchSize: nat, maxConcurrency: nat, attempts: nat, runs: nat)
    returns (results: seq<Result<Report, Failure>>)
    requires batchSize > 0 && maxConcurrency > 0 && attempts > 0
    requires ValidCorpus(documents) && env.Sound(namespace, revision, IdSet(documents))
    modifies env
    ensures env.Sound(namespace, revision, IdSet(documents)) && old(env.acknowledged) <= env.acknowledged
    ensures old(env.remote) <= env.remote <= old(env.remote) + IdSet(documents)
    ensures forall i | |old(env.offered)| <= i < |env.offered| :: env.offered[i] <= IdSet(documents) * env.remote
    ensures |results| == runs && (runs > 0 && results[runs - 1].Ok? ==> env.remote == IdSet(documents))
    ensures forall r | r in results && r.Ok? ::
              r.value.ready && r.value.documentsCompleted == r.value.documentsTotal == |documents|
  {
    hide Claimed, Pending, MakeBatches, CanConfirm, Ids;
    results := [];
    for run := 0 to runs
      invariant env.Sound(namespace, revision, IdSet(documents)) && old(env.acknowledged) <= env.acknowledged
      invariant old(env.remote) <= env.remote <= old(env.remote) + IdSet(documents)
      invariant old(env.offered) <= env.offered
      invariant forall i | |old(env.offered)| <= i < |env.offered| :: env.offered[i] <= IdSet(documents) * env.remote
      invariant |results| == run && (run > 0 && results[run - 1].Ok? ==> env.remote == IdSet(documents))
      invariant forall r | r in results && r.Ok? ::
                  r.value.ready && r.value.documentsCompleted == r.value.documentsTotal == |documents|
    {
      if * {
        var powerLoss := *;
        env.Restart(namespace, revision, IdSet(documents), powerLoss);
      }
      var r := Ingest(env, namespace, revision, documents, batchSize, maxConcurrency, attempts);
      results := results + [r];
    }
  }

  /** Repeating a completed ingestion in a new process always fails its readiness check: with nothing
      pending the fresh writer never learns the write specification that the inspection needs. */
  method RepeatInNewProcess(env: Environment, namespace: string, revision: Revision, documents: seq<Document>,
                            batchSize: nat, maxConcurrency: nat, attempts: nat)
    returns (first: Result<Report, Failure>, second: Result<Report, Failure>)
    requires batchSize > 0 && maxConcurrency > 0 && attempts > 0
    requires ValidCorpus(documents) && documents != [] && env.Sound(namespace, revision, IdSet(documents))
    modifies env
    ensures first.Ok? ==> second.Err? && env.remote == IdSet(documents)
    ensures first.Ok? && env.faults == old(env.faults) ==> second.error.ReadinessFailed?
  {
    first := Ingest(env, namespace, revision, documents, batchSize, maxConcurrency, attempts);
    env.Restart(namespace, revision, IdSet(documents), false);
    PendingMembers(documents, IdSet(documents));
    ghost var left := Pending(documents, IdSet(documents));
    assert |left| > 0 ==> left[0] in left;
    second := Ingest(env, namespace, revision, documents, batchSize, maxConcurrency, attempts);
  }
}
