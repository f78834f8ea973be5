/** The cleanup and ingestion commands, written as the programs they are. Every effect goes through a
    call that extends the protocol run, so a command can only produce runs of the protocol. */
module Commands {
  import opened Collections
  import opened OwnedTiny
  import I = Ingestion

  /** What a provider call reports. */
  datatype Reply = Success | NotFound | ProviderFailure | Cancelled | Unexpected

  datatype Control = Control(succeeded: bool, cancelled: bool, internalFailure: bool)

  /** Why a command is refused. */
  datatype Reason = NoReceipt | KeyRequired | KeyMismatch | CleanupUnderWay | CleanupDone | StateUnavailable

  datatype CleanupOutcome = Complete | Refused(reason: Reason) | Unverified | CleanupCancelled | StateFailure

  datatype IngestOutcome = IngestReady | IngestFailed | IngestCancelled | IngestRefused(reason: Reason)

  /** Without failures, cleanup completes for a terminal receipt, and otherwise for a matching key. */
  predicate CanClean(r: Claim, keyMatches: bool, attempts: nat) {
    r.state == NotFoundVerified || (keyMatches && attempts > 0)
  }

  /** What a cleanup without failures reports. */
  function CleanOutcome(live: Option<Claim>, hasKey: bool, keyMatches: bool, attempts: nat): CleanupOutcome {
    match live
    case None => Refused(NoReceipt)
    case Some(r) =>
      if r.state == NotFoundVerified then Complete
      else if !hasKey then Refused(KeyRequired)
      else if !keyMatches then Refused(KeyMismatch)
      else if attempts == 0 then Unverified
      else Complete
  }

  /** Without failures, ingestion becomes ready unless a cleanup is under way, the credential is wrong, or
      an intent has nothing to write. */
  predicate CanIngest(live: Option<Claim>, credentialMatches: bool, batches: nat, attempts: nat) {
    && attempts > 0
    && match live
       case None => batches > 0
       case Some(r) =>
         credentialMatches && r.state in {Intent, CreatedState, Ready} && (r.state == Intent ==> batches > 0)
  }

  /** The polls of one verification: it reads on while the namespace answers, at most `attempts` times, and
      its result is that of the last read. */
  predicate PollsFit(before: seq<Reply>, after: seq<Reply>, attempts: nat, control: Control) {
    && before <= after && |after| <= |before| + attempts
    && (forall i | |before| <= i < |after| - 1 :: after[i] == Success)
    && (control.succeeded <==> |after| > |before| && after[|after| - 1] == NotFound)
    && (control.cancelled <==> |after| > |before| && after[|after| - 1] == Cancelled)
    && (!control.succeeded && !control.cancelled && !control.internalFailure ==>
          |after| == |before| + attempts || (|after| > |before| && after[|after| - 1] == ProviderFailure))
  }

  /** The inspections of one wait: it looks again while the answer is complete but not exact. */
  predicate InspectionsFit(before: seq<(Reply, bool)>, after: seq<(Reply, bool)>, attempts: nat, ready: bool,
                           cancelled: bool) {
    && before <= after && |after| <= |before| + attempts
    && (forall i | |before| <= i < |after| - 1 :: after[i] == (Success, false))
    && (ready <==> |after| > |before| && after[|after| - 1] == (Success, true))
    && (cancelled <==> |after| > |before| && after[|after| - 1].0 == Cancelled)
  }

  /** Unless some call reported a failure, giving up means that every attempt was used. */
  predicate PolledEnough<T(==)>(found: bool, attempts: nat, before: seq<T>, after: seq<T>, errorsBefore: nat,
                                errors: nat) {
    && before <= after && |after| <= |before| + attempts && errorsBefore <= errors
    && (!found && errors == errorsBefore ==> |after| == |before| + attempts)
  }

  /** Some write was confirmed before any cancellation. */
  predicate Confirmed(replies: seq<Reply>) {
    exists k :: 0 <= k < |replies| && replies[k] == Success && Cancelled !in replies[..k]
  }

  lemma ConfirmedStep(replies: seq<Reply>, i: nat)
    requires i < |replies| && forall k | 0 <= k < i :: replies[k] != Cancelled
    ensures Confirmed(replies[..i + 1]) <==> Confirmed(replies[..i]) || replies[i] == Success
    ensures replies[i] == Cancelled ==> (Confirmed(replies) <==> Confirmed(replies[..i]))
  {
    assert replies[..i + 1][..i] == replies[..i] && Cancelled !in replies[..i];
    if Confirmed(replies[..i + 1]) && replies[i] != Success {
      var k :| 0 <= k < i + 1 && replies[..i + 1][k] == Success && Cancelled !in replies[..i + 1][..k];
      assert replies[..i][k] == Success && replies[..i][..k] == replies[..i + 1][..k];
    }
    if Confirmed(replies[..i]) {
      var k :| 0 <= k < i && replies[..i][k] == Success && Cancelled !in replies[..i][..k];
      assert replies[..i + 1][..k] == replies[..i][..k] == replies[..k] && replies[..i + 1][k] == replies[k] == Success;
    }
    if replies[i] == Cancelled && Confirmed(replies) {
      var k :| 0 <= k < |replies| && replies[k] == Success && Cancelled !in replies[..k];
      assert k < i;
      assert replies[..i][k] == Success && replies[..i][..k] == replies[..k];
    }
  }

  function Itself(): nat -> int {
    (n: nat) => n
  }

  /** The waves from place `from` on hold what is written, and all are full while something is left. */
  ghost predicate WavesSoFar(waves: seq<nat>, from: nat, limit: nat, written: nat, batches: nat) {
    && from <= |waves| && Sum<nat>(waves[from..], Itself()) == written && I.FullWaves(waves, from, limit)
    && (written < batches ==> forall i | from <= i < |waves| :: waves[i] == limit)
  }

  lemma NoWaves(waves: seq<nat>, limit: nat, batches: nat)
    ensures WavesSoFar(waves, |waves|, limit, 0, batches)
  {
    assert waves[|waves|..] == [];
  }

  lemma NextWave(waves: seq<nat>, from: nat, limit: nat, written: nat, batches: nat)
    requires WavesSoFar(waves, from, limit, written, batches) && written < batches
    ensures var size := if batches - written < limit then batches - written else limit;
            && WavesSoFar(waves + [size], from, limit, written + size, batches)
            && I.FullWaves(waves + [size], from, limit)
  {
    var size := if batches - written < limit then batches - written else limit;
    I.FullWavesExtend(waves, from, limit, size);
    assert (waves + [size])[from..] == waves[from..] + [size];
    SumAppend<nat>(waves[from..], [size], Itself());
    assert Sum<nat>([size], Itself()) == size;
  }

  lemma WavesDone(waves: seq<nat>, from: nat, limit: nat, batches: nat)
    requires WavesSoFar(waves, from, limit, batches, batches)
    ensures from <= |waves| && Sum<nat>(waves[from..], Itself()) == batches && I.FullWaves(waves, from, limit)
  {
  }

  /** How a deletion ends, from the results of creating and of closing the provider and of what lies between:
      a provider that was not created is not closed, and any other is. */
  predicate StopFits(stopped: Option<CleanupOutcome>, calls: seq<Reply>, control: Control) {
    && 1 <= |calls| <= 2 && (|calls| == 2 <==> calls[0] == Success)
    && (stopped == None <==> |calls| == 2 && control == Control(true, false, false) && calls[1] == Success)
    && (stopped == Some(CleanupCancelled) <==>
          calls[0] == Cancelled
          || (|calls| == 2 && (control.cancelled || (!control.internalFailure && calls[1] == Cancelled))))
  }

  lemma StopsEarly(factory: Reply, control: Control)
    ensures factory != Success ==>
      StopFits(Some(if factory == Cancelled then CleanupCancelled else Unverified), [factory], control)
  {
  }

  lemma StopsLate(closing: Reply, control: Control)
    requires control.succeeded ==> !control.cancelled && !control.internalFailure
    ensures StopFits(if control.cancelled then Some(CleanupCancelled)
                     else if control.internalFailure then Some(Unverified)
                     else if closing == Cancelled then Some(CleanupCancelled)
                     else if closing != Success || !control.succeeded then Some(Unverified) else None,
                     [Success, closing], control)
  {
  }

  /** How an ingestion ends, likewise; without a current receipt no provider is created. */
  predicate EndFits(outcome: IngestOutcome, calls: seq<Reply>, cancelled: bool) {
    && |calls| <= 2 && (|calls| == 2 <==> calls != [] && calls[0] == Success)
    && (outcome == IngestReady ==> |calls| == 2 && calls[1] == Success && !cancelled)
    && (outcome == IngestCancelled <==>
          (|calls| == 1 && calls[0] == Cancelled) || (|calls| == 2 && (cancelled || calls[1] == Cancelled)))
  }

  lemma EndsEarly(factory: Reply)
    ensures EndFits(IngestFailed, [], false)
    ensures factory != Success ==>
              EndFits(if factory == Cancelled then IngestCancelled else IngestFailed, [factory], false)
  {
  }

  lemma EndsLate(closing: Reply, ready: bool, cancelled: bool)
    ensures EndFits(if cancelled || closing == Cancelled then IngestCancelled
                    else if !ready || closing != Success then IngestFailed else IngestReady,
                    [Success, closing], cancelled)
  {
  }

  /** Why an ingestion is refused: the credential, then a cleanup that was asked for or is done. */
  function Refusal(live: Option<Claim>, credentialMatches: bool): Option<IngestOutcome> {
    if live.None? then None
    else if !credentialMatches then
      Some(IngestRefused(KeyMismatch))
    else if live.value.state == CleanupRequested then Some(IngestRefused(CleanupUnderWay))
    else if live.value.state == NotFoundVerified then Some(IngestRefused(CleanupDone))
    else None
  }

  class Installation {
    var world: World
    ghost var run: seq<World>
    // Calls that failed, were refused or gave an incomplete answer.
    ghost var faults: nat
    // Those of them that reported it.
    ghost var errors: nat
    // What the metadata reads and the readiness inspections answered, and the sizes of the waves written.
    ghost var polls: seq<Reply>
    ghost var inspections: seq<(Reply, bool)>
    ghost var waves: seq<nat>
    // The receipt was read back, and nothing was asked of the provider since.
    ghost var checked: bool
    // The results of creating and of closing a provider.
    ghost var calls: seq<Reply>

    ghost predicate Valid()
      reads this
    {
      Run(run) && run[|run| - 1] == world && SessionSound(world)
    }

    constructor ()
      ensures Valid() && Init(world)
    {
      world := World(None, {None}, {}, {}, Closed);
      run := [World(None, {None}, {}, {}, Closed)];
    }

    /** One step of the protocol. */
    method Advance(next: World)
      requires Valid() && (Step(world, next) || UnbindStep(world, next))
      modifies this`world, this`run
      ensures Valid() && world == next && run == old(run) + [next]
    {
      RunExtends(run, next);
      run := run + [next];
      world := next;
      ReadyOverRuns(run, |run|);
    }

    // ----- Local receipt calls

    /** Take the account lock and load the receipt; busy or broken state refuses. */
    method BeginOperation() returns (ok: bool)
      requires Valid() && world.session.Closed?
      modifies this`world, this`run, this`faults, this`errors
      ensures Valid() && old(run) <= run
      ensures if ok then Begin(old(world), world) else world == old(world)
      ensures faults == old(faults) + if ok then 0 else 1
      ensures errors == old(errors) + if ok then 0 else 1
    {
      ok := *;
      if !ok {
        faults, errors := faults + 1, errors + 1;
        return;
      }
      var next := world.(may := {world.live}, session := Open(Calm, world.live, false, false));
      assert Begin(world, next);
      Advance(next);
    }

    method Close()
      requires Valid()
      modifies this`world, this`run, this`faults, this`errors
      ensures Valid() && old(run) <= run
      ensures world == old(world).(session := Closed) && faults == old(faults) && errors == old(errors)
    {
      assert End(world, world.(session := Closed));
      Advance(world.(session := Closed));
    }

    /** The call under way fails where it is. */
    method Stop()
      requires Valid() && world.session.Open?
      modifies this`world, this`run, this`faults, this`errors
      ensures Valid() && old(run) <= run && faults == old(faults) + 1 && errors == old(errors) + 1
      ensures world == WithPhase(old(world), Stopped)
    {
      assert Fail(world, WithPhase(world, Stopped));
      Advance(WithPhase(world, Stopped));
      faults, errors := faults + 1, errors + 1;
    }

    /** One rename of the fixed name. */
    method Rename(value: Option<Claim>, phase: Phase)
      requires Valid() && world.session.Open?
      requires Step(world, Turned(world, value, phase)) || UnbindStep(world, Turned(world, value, phase))
      modifies this`world, this`run
      ensures Valid() && old(run) <= run
      ensures world == Turned(old(world), value, phase)
    {
      Advance(Turned(world, value, phase));
    }

    method CreateIntent(r: Claim) returns (ok: bool)
      requires Valid() && world.session == Open(Calm, None, false, false) && r.state == Intent
      modifies this`world, this`run, this`faults, this`errors
      ensures Valid() && old(run) <= run
      ensures world.present == old(world.present) && world.everReady == old(world.everReady)
      ensures if ok then world.session == Open(Calm, Some(r), false, false) else world.session.Open?
      ensures faults == old(faults) + if ok then 0 else 1
      ensures errors == old(errors) + if ok then 0 else 1
    {
      hide Run;
      ok := *;
      if * {
        assert Publish(world, Turned(world, Some(r), Published(r)), r);
        Rename(Some(r), Published(r));
        if ok {
          var next := Synced(world, Calm, Some(r));
          assert Commit(world, next, r);
          Advance(next);
          return;
        }
      }
      ok := false;
      Stop();
    }

    /** Re-read the receipt right before a remote action. */
    method Authenticate(r: Claim) returns (ok: bool)
      requires Valid()
      modifies this`faults, this`errors, this`checked
      ensures ok ==> world.live == Some(r)
      ensures checked == ok
      ensures !ok && world.live == Some(r) ==> faults == old(faults) + 1
      ensures old(faults) <= faults <= old(faults) + 1 && (ok ==> faults == old(faults))
      ensures errors == old(errors) + if ok then 0 else 1
    {
      ok := world.live == Some(r);
      if * {
        if ok { faults := faults + 1; }
        ok := false;
      }
      if !ok { errors := errors + 1; }
      checked := ok;
    }

    /** Replace the receipt. It may stop after any rename or sync; a failing exchange is undone. */
    method MoveTo(r: Claim, to: State) returns (ok: bool)
      requires Valid() && Holding(world, r) && Allowed(r.state, to)
      requires to == Ready ==> world.session.ready
      requires to == NotFoundVerified ==> world.session.absent
      modifies this`world, this`run, this`faults, this`errors
      ensures Valid() && old(run) <= run
      ensures world.present == old(world.present) && world.everReady == old(world.everReady)
      ensures if ok then world.session == old(world.session).(snapshot := Some(r.(state := to)))
                else world.session.Open?
      ensures faults == old(faults) + if ok then 0 else 1
      ensures errors == old(errors) + if ok then 0 else 1
    {
      hide Run;
      ghost var before := world;
      var next := r.(state := to);
      if * {
        assert Exchange(world, Turned(world, Some(next), Exchanged(next)), r, to);
        Rename(Some(next), Exchanged(next));
        if * {
          var settled := Synced(world, Calm, Some(next));
          assert Commit(world, settled, next);
          Advance(settled);
          return true;
        }
        if * { UndoExchange(next); }
      }
      Stop();
      ok := false;
    }

    /** The exchange is not verified, or the prior receipt not dropped: undo it, as far as that goes. */
    method UndoExchange(next: Claim)
      requires Valid() && InPhase(world, Exchanged(next))
      modifies this`world, this`run
      ensures Valid() && old(run) <= run && world.session.Open?
      ensures world.present == old(world.present) && world.everReady == old(world.everReady)
    {
      hide Run;
      var doubted := WithPhase(world, Undoing(next));
      assert Doubt(world, doubted, next);
      Advance(doubted);
      if * { return; }
      assert Unbind(world, Turned(world, None, Restoring(next)), next);
      Rename(None, Restoring(next));
      if * { return; }
      var matched: bool := *;
      var value := if matched then world.session.snapshot else Some(next);
      assert Rebind(world, Turned(world, value, Restoring(next)), next, value);
      Rename(value, Restoring(next));
      if * { return; }
      if world.live == world.session.snapshot {
        var settled := Synced(world, Stopped, world.session.snapshot);
        assert Restored(world, settled, next);
        Advance(settled);
      }
    }

    /** Remove the terminal receipt; what was moved away may have to go back. */
    method RemoveTerminal(r: Claim) returns (ok: bool)
      requires Valid() && Holding(world, r) && r.state == NotFoundVerified
      modifies this`world, this`run, this`faults, this`errors
      ensures Valid() && old(run) <= run && world.session.Open?
      ensures world.present == old(world.present) && world.everReady == old(world.everReady)
      ensures ok ==> world.live == None && world.may == {None}
      ensures faults == old(faults) + if ok then 0 else 1
      ensures errors == old(errors) + if ok then 0 else 1
    {
      hide Run;
      if * {
        assert TakeAway(world, Turned(world, None, Removing), r);
        Rename(None, Removing);
        ok := *;
        var returned: bool, synced: bool := *, *;
        if !ok && returned {
          var back := world.session.snapshot;
          assert PutBack(world, Turned(world, back, Removing));
          Rename(back, Removing);
        }
        if ok || synced {
          var settled := Synced(world, Stopped, world.session.snapshot);
          assert Removed(world, settled);
          Advance(settled);
          if ok { return; }
        }
      }
      Stop();
      ok := false;
    }

    // ----- Provider calls

    method WriteBatch(r: Claim) returns (reply: Reply)
      requires Valid() && checked && Holding(world, r) && r.state in {Intent, CreatedState, Ready}
      modifies this`world, this`run, this`faults, this`errors, this`checked
      ensures Valid() && old(run) <= run
      ensures Write(old(world), world, r)
      ensures old(faults) <= faults && (faults == old(faults) ==> reply == Success && r.namespace in world.present)
      ensures errors == old(errors) + if reply == Success then 0 else 1
      ensures !checked
    {
      checked := false;
      reply :| true;
      if reply != Success { errors := errors + 1; }
      var next := world;
      if * { next := world.(present := world.present + {r.namespace}); }
      if reply != Success || r.namespace !in next.present { faults := faults + 1; }
      assert Write(world, next, r);
      Advance(next);
    }

    /** One readiness inspection; `exact` when every check holds. */
    method InspectReadiness(r: Claim) returns (reply: Reply, exact: bool)
      requires Valid() && checked && Holding(world, r) && r.state in {Intent, CreatedState, Ready}
      modifies this`world, this`run, this`faults, this`errors, this`inspections, this`checked
      ensures Valid() && old(run) <= run && inspections == old(inspections) + [(reply, exact)]
      ensures if reply == Success && exact then Inspect(old(world), world, r) else world == old(world)
      ensures old(faults) <= faults && (faults == old(faults) ==> reply == Success && exact)
      ensures errors == old(errors) + if reply == Success then 0 else 1
      ensures !checked
    {
      checked := false;
      reply :| true;
      if reply != Success { errors := errors + 1; }
      exact := *;
      inspections := inspections + [(reply, exact)];
      if reply != Success || !exact { faults := faults + 1; }
      if reply == Success && exact {
        var next := world.(everReady := world.everReady + {r.namespace}, session := world.session.(ready := true));
        assert Inspect(world, next, r);
        Advance(next);
      }
    }

    method DeleteNamespace(r: Claim) returns (reply: Reply)
      requires Valid() && checked && Holding(world, r) && r.state == CleanupRequested
      modifies this`world, this`run, this`faults, this`errors, this`checked
      ensures Valid() && old(run) <= run
      ensures Delete(old(world), world, r)
      ensures old(faults) <= faults && (faults == old(faults) ==> reply == Success && r.namespace !in world.present)
      ensures errors == old(errors) + if reply in {Success, NotFound} then 0 else 1
      ensures !checked
    {
      checked := false;
      reply :| true;
      if reply !in {Success, NotFound} { errors := errors + 1; }
      var next := world;
      if * { next := world.(present := world.present - {r.namespace}); }
      if reply != Success || r.namespace in next.present { faults := faults + 1; }
      assert Delete(world, next, r);
      Advance(next);
    }

    /** A metadata read; NOT_FOUND is only reported of a namespace that holds nothing. */
    method NamespaceMetadata(r: Claim) returns (reply: Reply)
      requires Valid() && checked && Holding(world, r) && r.state == CleanupRequested
      modifies this`world, this`run, this`faults, this`errors, this`polls, this`checked
      ensures Valid() && old(run) <= run && polls == old(polls) + [reply]
      ensures if reply == NotFound then Probe(old(world), world, r) else world == old(world)
      ensures old(faults) <= faults
      ensures faults == old(faults) ==> reply == if r.namespace in old(world.present) then Success else NotFound
      ensures errors == old(errors) + if reply in {Success, NotFound} then 0 else 1
      ensures !checked
    {
      checked := false;
      reply :| reply == NotFound ==> r.namespace !in world.present;
      polls := polls + [reply];
      if reply !in {Success, NotFound} { errors := errors + 1; }
      if reply != (if r.namespace in world.present then Success else NotFound) { faults := faults + 1; }
      if reply == NotFound {
        var next := world.(session := world.session.(absent := true));
        assert Probe(world, next, r);
        Advance(next);
      }
    }

    /** Creating the provider, right after the receipt was read back. */
    method CreateProvider() returns (reply: Reply)
      requires checked
      modifies this`faults, this`errors, this`checked, this`calls
      ensures old(faults) <= faults && (faults == old(faults) ==> reply == Success)
      ensures errors == old(errors) + if reply == Success then 0 else 1
      ensures calls == old(calls) + [reply]
      ensures !checked
    {
      checked := false;
      reply := CloseProvider();
    }

    method CloseProvider() returns (reply: Reply)
      modifies this`faults, this`errors, this`calls
      ensures calls == old(calls) + [reply]
      ensures old(faults) <= faults && (faults == old(faults) ==> reply == Success)
      ensures errors == old(errors) + if reply == Success then 0 else 1
    {
      reply :| true;
      if reply != Success { faults, errors := faults + 1, errors + 1; }
      calls := calls + [reply];
    }

    // ----- Cleanup

    /** Poll until NOT_FOUND, at most `attempts` times. */
    method VerifyNotFound(r: Claim, attempts: nat) returns (control: Control)
      requires Valid() && Holding(world, r) && r.state == CleanupRequested
      modifies this`world, this`run, this`faults, this`errors, this`polls, this`checked
      ensures Valid() && old(run) <= run && Holding(world, r)
      ensures world == old(world).(session := world.session)
      ensures control.succeeded ==>
                world.session.absent && !control.cancelled && !control.internalFailure && attempts > 0
      ensures old(faults) <= faults
      ensures faults == old(faults) && attempts > 0 && r.namespace !in old(world.present) ==> control.succeeded
      ensures PollsFit(old(polls), polls, attempts, control)
      ensures control.cancelled || control.internalFailure ==> faults > old(faults)
      ensures PolledEnough(control.succeeded, attempts, old(polls), polls, old(errors), errors)
    {
      hide Run;
      for attempt := 0 to attempts
        invariant Valid() && old(run) <= run && world == old(world) && old(faults) <= faults
        invariant |polls| == |old(polls)| + attempt && old(polls) <= polls && errors == old(errors)
        invariant forall i | |old(polls)| <= i < |polls| :: polls[i] == Success
        invariant faults == old(faults) && attempt > 0 ==> r.namespace in world.present
      {
        var ok := Authenticate(r);
        if !ok { return Control(false, false, true); }
        var reply := NamespaceMetadata(r);
        match reply {
          case NotFound => return Control(true, false, false);
          case ProviderFailure => return Control(false, false, false);
          case Cancelled => return Control(false, true, false);
          case Unexpected => return Control(false, false, true);
          case Success =>
        }
      }
      return Control(false, false, false);
    }

    method DeleteAndVerify(r: Claim, attempts: nat) returns (control: Control)
      requires Valid() && Holding(world, r) && r.state == CleanupRequested
      modifies this`world, this`run, this`faults, this`errors, this`polls, this`checked
      ensures Valid() && old(run) <= run && Holding(world, r)
      ensures world == old(world).(present := world.present, session := world.session)
      ensures old(world.present) - {r.namespace} <= world.present <= old(world.present)
      ensures control.succeeded ==>
                world.session.absent && !control.cancelled && !control.internalFailure && attempts > 0
      ensures old(faults) <= faults
      ensures faults == old(faults) && attempts > 0 ==> control.succeeded
      ensures control.cancelled || control.internalFailure ==> faults > old(faults)
      ensures PolledEnough(control.succeeded, attempts, old(polls), polls, old(errors), errors)
    {
      hide Run;
      var ok := Authenticate(r);
      if !ok { return Control(false, false, true); }
      var reply := DeleteNamespace(r);
      match reply {
        case Cancelled => return Control(false, true, false);
        case Unexpected => return Control(false, false, true);
        case ProviderFailure => return Control(false, false, false);
        case Success => control := VerifyNotFound(r, attempts);
        case NotFound => control := VerifyNotFound(r, attempts);
      }
    }

    /** Delete and verify absence of exactly the authenticated receipt's namespace. */
    method CleanupOwnedTiny(hasKey: bool, keyMatches: bool, attempts: nat) returns (outcome: CleanupOutcome)
      requires Valid() && world.session.Closed?
      modifies this
      ensures Valid() && old(run) <= run && world.session.Closed?
      ensures outcome == Complete ==> world.live == None && world.may == {None}
      ensures world.present <= old(world.present)
      ensures forall n | n in old(world.present) && n !in world.present ::
                old(world.live).Some? && old(world.live).value.namespace == n
      ensures old(faults) <= faults
      ensures outcome == Complete ==>
                old(world.live).Some? && CanClean(old(world.live).value, hasKey && keyMatches, attempts)
      ensures outcome == Complete && old(world.live).value.state != NotFoundVerified ==>
                old(world.live).value.namespace !in world.present
      // Without orphans, a terminal receipt already means that its namespace is gone.
      ensures outcome == Complete && NoOrphan(old(world)) ==> old(world.live).value.namespace !in world.present
      ensures faults == old(faults) && old(world.live).Some?
                && CanClean(old(world.live).value, hasKey && keyMatches, attempts) ==>
        outcome == Complete
      // Without failures the outcome is determined; a refusal deletes nothing and leaves the receipt.
      ensures faults == old(faults) ==> outcome == CleanOutcome(old(world.live), hasKey, keyMatches, attempts)
      ensures outcome.Refused? ==>
                && world.present == old(world.present) && world.live == old(world.live)
                && outcome == CleanOutcome(old(world.live), hasKey, keyMatches, attempts)
      // A cleanup stays unverified after every attempt, or because some call failed.
      ensures outcome == Unverified && errors == old(errors) ==> |polls| == |old(polls)| + attempts
    {
      hide Run;
      outcome := CleanupBody(hasKey, keyMatches, attempts);
      if world.session.Open? { Close(); }
    }

    method CleanupBody(hasKey: bool, keyMatches: bool, attempts: nat) returns (outcome: CleanupOutcome)
      requires Valid() && world.session.Closed?
      modifies this
      ensures Valid() && old(run) <= run
      ensures outcome == Complete ==> world.live == None && world.may == {None}
      ensures world.present <= old(world.present)
      ensures forall n | n in old(world.present) && n !in world.present ::
                old(world.live).Some? && old(world.live).value.namespace == n
      ensures old(faults) <= faults
      ensures outcome == Complete ==>
                old(world.live).Some? && CanClean(old(world.live).value, hasKey && keyMatches, attempts)
      ensures outcome == Complete && old(world.live).value.state != NotFoundVerified ==>
                old(world.live).value.namespace !in world.present
      // Without orphans, a terminal receipt already means that its namespace is gone.
      ensures outcome == Complete && NoOrphan(old(world)) ==> old(world.live).value.namespace !in world.present
      ensures faults == old(faults) && old(world.live).Some?
                && CanClean(old(world.live).value, hasKey && keyMatches, attempts) ==>
        outcome == Complete
      // Without failures the outcome is determined; a refusal deletes nothing and leaves the receipt.
      ensures faults == old(faults) ==> outcome == CleanOutcome(old(world.live), hasKey, keyMatches, attempts)
      ensures outcome.Refused? ==>
                && world.present == old(world.present) && world.live == old(world.live)
                && outcome == CleanOutcome(old(world.live), hasKey, keyMatches, attempts)
      // A cleanup stays unverified after every attempt, or because some call failed.
      ensures outcome == Unverified && errors == old(errors) ==> |polls| == |old(polls)| + attempts
    {
      hide Run;
      var ok := BeginOperation();
      if !ok { return StateFailure; }
      if world.session.snapshot.None? { return Refused(NoReceipt); }
      var snapshot := world.session.snapshot.value;
      if snapshot.state == NotFoundVerified {
        assert !Covers(Some(snapshot), snapshot.namespace);
        ok := RemoveTerminal(snapshot);
        return if ok then Complete else StateFailure;
      }
      if !hasKey { return Refused(KeyRequired); }
      if !keyMatches { return Refused(KeyMismatch); }
      ok := RequestCleanup(snapshot);
      if !ok { return StateFailure; }
      snapshot := snapshot.(state := CleanupRequested);
      var stopped;
      ghost var control;
      stopped, control := DeleteUnderProvider(snapshot, attempts);
      if stopped.Some? { return stopped.value; }
      outcome := FinishCleanup(snapshot);
    }

    /** Record the request durably before anything is deleted. */
    method RequestCleanup(snapshot: Claim) returns (ok: bool)
      requires Valid() && Holding(world, snapshot) && snapshot.state != NotFoundVerified
      modifies this`world, this`run, this`faults, this`errors, this`checked
      ensures Valid() && old(run) <= run && world.present == old(world.present)
      ensures ok ==> Holding(world, snapshot.(state := CleanupRequested))
      ensures old(faults) <= faults && (faults == old(faults) ==> ok) && (ok ==> errors == old(errors) && checked)
    {
      if snapshot.state != CleanupRequested {
        ok := MoveTo(snapshot, CleanupRequested);
        if !ok { return false; }
      }
      ok := Authenticate(snapshot.(state := CleanupRequested));
    }

    /** Create the provider, delete and verify, close the provider; nothing when absence was verified. */
    method DeleteUnderProvider(snapshot: Claim, attempts: nat)
      returns (stopped: Option<CleanupOutcome>, ghost control: Control)
      requires Valid() && checked && Holding(world, snapshot) && snapshot.state == CleanupRequested
      modifies this
      ensures Valid() && old(run) <= run && Holding(world, snapshot)
      ensures old(world.present) - {snapshot.namespace} <= world.present <= old(world.present)
      ensures attempts == 0 && faults == old(faults) ==> stopped == Some(Unverified)
      ensures stopped.Some? ==> stopped.value in {CleanupCancelled, Unverified}
      ensures stopped.None? ==> world.session.absent && attempts > 0 && snapshot.namespace !in world.present
      ensures stopped.Some? ==> stopped.value != Complete
      ensures old(faults) <= faults && (faults == old(faults) && attempts > 0 ==> stopped.None?)
      ensures PolledEnough(stopped.None?, attempts, old(polls), polls, old(errors), errors)
      ensures old(calls) <= calls && StopFits(stopped, calls[|old(calls)|..], control)
      ensures calls[|old(calls)|] != Success ==> world == old(world) && polls == old(polls)
    {
      hide Run, StopFits;
      control := Control(false, false, false);
      ghost var before := calls;
      var factory := CreateProvider();
      StopsEarly(factory, control);
      assert calls[|before|..] == [factory];
      if factory == Cancelled { return Some(CleanupCancelled), control; }
      if factory != Success { return Some(Unverified), control; }
      var result := DeleteAndVerify(snapshot, attempts);
      control := result;
      // The provider is always closed; a close that fails leaves cleanup unverified.
      var closing := CloseProvider();
      assert calls[|before|..] == [factory, closing];
      StopsLate(closing, control);
      if result.cancelled { return Some(CleanupCancelled), control; }
      if result.internalFailure { return Some(Unverified), control; }
      if closing == Cancelled { return Some(CleanupCancelled), control; }
      if closing != Success || !result.succeeded { return Some(Unverified), control; }
      return None, control;
    }

    /** Turn the receipt terminal and remove it. */
    method FinishCleanup(snapshot: Claim) returns (outcome: CleanupOutcome)
      requires Valid() && Holding(world, snapshot) && snapshot.state == CleanupRequested && world.session.absent
      modifies this`world, this`run, this`faults, this`errors
      ensures Valid() && old(run) <= run && world.present == old(world.present)
      ensures outcome == Complete ==> world.live == None && world.may == {None}
      ensures old(faults) <= faults && (faults == old(faults) ==> outcome == Complete)
      ensures outcome == Complete || outcome == StateFailure
    {
      var ok := MoveTo(snapshot, NotFoundVerified);
      if !ok { return StateFailure; }
      ok := RemoveTerminal(snapshot.(state := NotFoundVerified));
      return if ok then Complete else StateFailure;
    }

    // ----- Ingestion into the generated target

    /** One batch of a wave: authenticate the receipt, then write. */
    method WriteOne(current: Claim) returns (reply: Reply)
      requires Valid() && Holding(world, current) && current.state in {Intent, CreatedState, Ready}
      modifies this`world, this`run, this`faults, this`errors, this`checked
      ensures Valid() && old(run) <= run && Holding(world, current)
      ensures old(world.present) <= world.present <= old(world.present) + {current.namespace}
      ensures old(faults) <= faults
      ensures faults == old(faults) ==> reply == Success && current.namespace in world.present
      ensures errors == old(errors) + if reply == Success then 0 else 1
    {
      var ok := Authenticate(current);
      if !ok { return Unexpected; }
      reply := WriteBatch(current);
    }

    /** The writes of a wave are in flight together, against one receipt; all of them end before any is
        recorded. */
    method WriteWave(current: Claim, size: nat) returns (replies: seq<Reply>)
      requires Valid() && Holding(world, current) && current.state in {Intent, CreatedState, Ready}
      modifies this`world, this`run, this`faults, this`errors, this`waves, this`checked
      ensures Valid() && old(run) <= run && Holding(world, current) && |replies| == size
      ensures old(world.present) <= world.present <= old(world.present) + {current.namespace}
      ensures old(faults) <= faults
      ensures faults == old(faults) ==> forall reply | reply in replies :: reply == Success
      ensures faults == old(faults) && size > 0 ==> current.namespace in world.present
      ensures waves == old(waves) + [size] && old(errors) <= errors
      ensures errors == old(errors) ==> forall reply | reply in replies :: reply == Success
    {
      hide Run;
      replies := [];
      waves := waves + [size];
      for i := 0 to size
        invariant Valid() && old(run) <= run && Holding(world, current) && |replies| == i
        invariant old(world.present) <= world.present <= old(world.present) + {current.namespace}
        invariant old(faults) <= faults
        invariant faults == old(faults) ==> forall reply | reply in replies :: reply == Success
        invariant faults == old(faults) && i > 0 ==> current.namespace in world.present
        invariant waves == old(waves) + [size] && old(errors) <= errors
        invariant errors == old(errors) ==> forall reply | reply in replies :: reply == Success
      {
        var reply := WriteOne(current);
        replies := replies + [reply];
      }
    }

    /** Record the outcomes of a wave in order: the first success moves the receipt from intent to created,
        also after a failure; the first cancellation ends the attempt at once. */
    method RecordWave(start: Claim, replies: seq<Reply>) returns (reply: Reply, current: Claim)
      requires Valid() && Holding(world, start) && start.state in {Intent, CreatedState, Ready}
      modifies this`world, this`run, this`faults, this`errors
      ensures Valid() && old(run) <= run && world.present == old(world.present)
      ensures current.namespace == start.namespace && current.state in {Intent, CreatedState, Ready}
      ensures reply == Success ==> Holding(world, current) && forall r | r in replies :: r == Success
      ensures reply == Success ==>
                current == if start.state == Intent && replies != [] then start.(state := CreatedState) else start
      ensures old(faults) <= faults
      ensures faults == old(faults) && (forall r | r in replies :: r == Success) ==> reply == Success
      // Unless the receipt could not be moved, every reply before the first cancellation counts.
      ensures old(errors) <= errors && (reply == Unexpected <==> errors > old(errors))
      ensures errors == old(errors) ==>
        && (reply == Cancelled <==> Cancelled in replies)
        && (reply == ProviderFailure <==> Cancelled !in replies && exists r :: r in replies && r != Success)
        && (reply == Success <==> forall r | r in replies :: r == Success)
        && current == (if start.state == Intent && Confirmed(replies) then start.(state := CreatedState) else start)
        && Holding(world, current)
    {
      hide Run;
      current, reply := start, Success;
      assert replies[..0] == [];
      for i := 0 to |replies|
        invariant Valid() && old(run) <= run && world.present == old(world.present) && Holding(world, current)
        invariant current.namespace == start.namespace && current.state in {Intent, CreatedState, Ready}
        invariant reply == Success <==> forall k | 0 <= k < i :: replies[k] == Success
        invariant reply == Success ==>
                    current == if start.state == Intent && i > 0 then start.(state := CreatedState) else start
        invariant old(faults) <= faults && errors == old(errors)
        invariant reply in {Success, ProviderFailure} && forall k | 0 <= k < i :: replies[k] != Cancelled
        invariant current == if start.state == Intent && Confirmed(replies[..i]) then start.(state := CreatedState)
                             else start
      {
        assert replies[i] in replies;
        ConfirmedStep(replies, i);
        if replies[i] == Cancelled { return Cancelled, current; }
        if replies[i] != Success {
          reply := ProviderFailure;
        } else if current.state == Intent {
          var ok := MoveTo(current, CreatedState);
          if !ok { return Unexpected, current; }
          current := current.(state := CreatedState);
        }
      }
      assert forall k | 0 <= k < |replies| :: replies[k] in replies;
      assert replies[..|replies|] == replies;
    }

    /** Write the batches in waves; the first recorded write moves the receipt from intent to created. */
    method WriteBatches(start: Claim, batches: nat, maxConcurrency: nat) returns (reply: Reply, current: Claim)
      requires Valid() && Holding(world, start) && start.state in {Intent, CreatedState, Ready} && maxConcurrency > 0
      modifies this`world, this`run, this`faults, this`errors, this`waves, this`checked
      ensures Valid() && old(run) <= run
      ensures old(world.present) <= world.present <= old(world.present) + {start.namespace}
      ensures current.namespace == start.namespace && current.state in {Intent, CreatedState, Ready}
      ensures reply == Success ==> Holding(world, current)
      ensures reply == Success ==>
                current == if start.state == Intent && batches > 0 then start.(state := CreatedState) else start
      ensures old(faults) <= faults
      ensures faults == old(faults) ==> reply == Success && (batches > 0 ==> start.namespace in world.present)
      ensures old(errors) <= errors && (errors == old(errors) ==> reply == Success)
      // Every wave but the last is full, and success means that they hold all batches.
      ensures old(waves) <= waves && I.FullWaves(waves, |old(waves)|, maxConcurrency)
      ensures reply == Success ==> Sum<nat>(waves[|old(waves)|..], Itself()) == batches
    {
      hide Run, Sum, I.FullWaves, WavesSoFar;
      current, reply := start, Success;
      var written := 0;
      NoWaves(waves, maxConcurrency, batches);
      while written < batches
        invariant 0 <= written <= batches && reply == Success
        invariant Valid() && old(run) <= run && Holding(world, current)
        invariant old(world.present) <= world.present <= old(world.present) + {start.namespace}
        invariant current == if start.state == Intent && written > 0 then start.(state := CreatedState) else start
        invariant old(faults) <= faults && (faults == old(faults) && written > 0 ==> start.namespace in world.present)
        invariant old(errors) <= errors && old(waves) <= waves
        invariant WavesSoFar(waves, |old(waves)|, maxConcurrency, written, batches)
      {
        NextWave(waves, |old(waves)|, maxConcurrency, written, batches);
        var size := if batches - written < maxConcurrency then batches - written else maxConcurrency;
        var replies := WriteWave(current, size);
        // The attempt may be cancelled while the wave is awaited.
        if * {
          faults, errors := faults + 1, errors + 1;
          return Cancelled, current;
        }
        reply, current := RecordWave(current, replies);
        if reply != Success { return; }
        written := written + size;
      }
      WavesDone(waves, |old(waves)|, maxConcurrency, batches);
    }

    method AwaitReadiness(current: Claim, attempts: nat) returns (ready: bool, cancelled: bool)
      requires Valid() && Holding(world, current) && current.state in {Intent, CreatedState, Ready}
      modifies this`world, this`run, this`faults, this`errors, this`inspections, this`checked
      ensures Valid() && old(run) <= run && Holding(world, current)
      ensures world == old(world).(everReady := world.everReady, session := world.session)
      ensures ready ==> world.session.ready && current.namespace in world.everReady
      ensures old(faults) <= faults && (faults == old(faults) && attempts > 0 ==> ready)
      ensures ready ==> attempts > 0 && !cancelled
      ensures cancelled ==> faults > old(faults)
      ensures InspectionsFit(old(inspections), inspections, attempts, ready, cancelled)
      ensures PolledEnough(ready, attempts, old(inspections), inspections, old(errors), errors)
    {
      hide Run;
      for attempt := 0 to attempts
        invariant Valid() && old(run) <= run && world == old(world)
        invariant |inspections| == |old(inspections)| + attempt && old(inspections) <= inspections
        invariant errors == old(errors)
        invariant forall i | |old(inspections)| <= i < |inspections| :: inspections[i] == (Success, false)
        invariant old(faults) <= faults && (faults == old(faults) ==> attempt == 0)
      {
        var ok := Authenticate(current);
        if !ok { return false, false; }
        var reply, exact := InspectReadiness(current);
        if reply == Cancelled { return false, true; }
        if reply != Success { return false, false; }
        if exact { return true, false; }
      }
      return false, false;
    }

    /** Load the receipt, or create the intent; refuse a wrong credential or a cleanup under way. */
    method ResolveReceipt(namespace: Namespace, credentialMatches: bool) returns (r: Result<Claim, IngestOutcome>)
      requires Valid() && world.session.Closed?
      modifies this`world, this`run, this`faults, this`errors
      ensures Valid() && old(run) <= run && world.present == old(world.present)
      ensures r.Ok? ==> Holding(world, r.value) && r.value.state in {Intent, CreatedState, Ready}
      ensures r.Ok? ==> if old(world.live).Some? then Some(r.value) == old(world.live)
                else r.value.namespace == namespace
      ensures r.Err? ==> r.error != IngestReady
      ensures r.Ok? ==> r.value == if old(world.live).Some? then old(world.live).value else Claim(namespace, Intent)
      ensures old(faults) <= faults
      ensures r.Ok? && old(world.live).Some? ==> credentialMatches
      ensures faults == old(faults)
              && (old(world.live).Some? ==>
                    credentialMatches && old(world.live).value.state in {Intent, CreatedState, Ready}) ==>
                r.Ok?
      ensures faults == old(faults) && r.Err? ==> Some(r.error) == Refusal(old(world.live), credentialMatches)
      ensures faults == old(faults) && r.Ok? ==> Refusal(old(world.live), credentialMatches) == None
    {
      hide Run;
      var ok := BeginOperation();
      if !ok { return Err(IngestRefused(StateUnavailable)); }
      if world.session.snapshot.None? {
        ok := CreateIntent(Claim(namespace, Intent));
        return if ok then Ok(Claim(namespace, Intent)) else Err(IngestFailed);
      }
      var snapshot := world.session.snapshot.value;
      if !credentialMatches {
        return Err(IngestRefused(KeyMismatch));
      }
      if snapshot.state == CleanupRequested { return Err(IngestRefused(CleanupUnderWay)); }
      if snapshot.state == NotFoundVerified { return Err(IngestRefused(CleanupDone)); }
      return Ok(snapshot);
    }

    /** Writes, readiness and the provider's close, against one authenticated receipt. */
    method RunBoundIngestion(snapshot: Claim, batches: nat, maxConcurrency: nat, attempts: nat)
      returns (outcome: IngestOutcome, current: Claim, ghost cancelled: bool)
      requires Valid() && Holding(world, snapshot) && snapshot.state in {Intent, CreatedState, Ready}
      requires maxConcurrency > 0
      modifies this`world, this`run, this`faults, this`errors, this`waves, this`inspections, this`checked, this`calls
      ensures Valid() && old(run) <= run
      ensures old(world.present) <= world.present <= old(world.present) + {snapshot.namespace}
      ensures current.namespace == snapshot.namespace && current.state in {Intent, CreatedState, Ready}
      ensures outcome == IngestReady ==>
                Holding(world, current) && world.session.ready && current.namespace in world.everReady
      ensures outcome == IngestReady ==> attempts > 0 && (batches > 0 ==> current.state != Intent)
      ensures outcome == IngestReady ==>
                current.state == if snapshot.state == Intent && batches > 0 then CreatedState else snapshot.state
      ensures old(faults) <= faults
      ensures faults == old(faults) && attempts > 0 ==>
                outcome == IngestReady && (batches > 0 ==> snapshot.namespace in world.present)
      ensures faults == old(faults) && attempts == 0 ==> outcome == IngestFailed
      ensures outcome in {IngestReady, IngestFailed, IngestCancelled} && old(errors) <= errors
      // Full waves, and as many inspections as it takes; without errors it gives up only after all attempts.
      ensures old(waves) <= waves && I.FullWaves(waves, |old(waves)|, maxConcurrency)
      ensures outcome == IngestReady ==> Sum<nat>(waves[|old(waves)|..], Itself()) == batches
      ensures outcome != IngestReady && errors == old(errors) ==> |inspections| == |old(inspections)| + attempts
      // The provider that was created is always closed, and only a cancellation reports one.
      ensures old(calls) <= calls && EndFits(outcome, calls[|old(calls)|..], cancelled)
    {
      hide Run, EndFits, Sum, I.FullWaves;
      cancelled := false;
      EndsEarly(Success);
      ghost var before := calls;
      assert calls[|before|..] == [];
      I.FullWavesEmpty(waves, maxConcurrency);
      var ok := Authenticate(snapshot);
      if !ok { return IngestFailed, snapshot, false; }
      var factory := CreateProvider();
      assert calls[|before|..] == [factory];
      EndsEarly(factory);
      if factory == Cancelled { return IngestCancelled, snapshot, false; }
      if factory != Success { return IngestFailed, snapshot, false; }
      var reply;
      reply, current := WriteBatches(snapshot, batches, maxConcurrency);
      var ready, stopped := false, reply == Cancelled;
      if reply == Success { ready, stopped := AwaitReadiness(current, attempts); }
      // The provider is always closed; a close that fails fails the ingestion.
      var closing := CloseProvider();
      assert calls[|before|..] == [factory, closing];
      EndsLate(closing, ready, stopped);
      if stopped || closing == Cancelled { return IngestCancelled, current, stopped; }
      if !ready || closing != Success { return IngestFailed, current, stopped; }
      return IngestReady, current, stopped;
    }

    /** Ingest the fixture into the namespace of the fixed receipt, creating the receipt first. */
    method RunIngestion(namespace: Namespace, credentialMatches: bool, batches: nat, maxConcurrency: nat, attempts: nat)
      returns (outcome: IngestOutcome)
      requires Valid() && world.session.Closed? && maxConcurrency > 0
      modifies this
      ensures Valid() && old(run) <= run && world.session.Closed?
      ensures var target := if old(world.live).Some? then old(world.live).value.namespace else namespace;
              old(world.present) <= world.present <= old(world.present) + {target}
      ensures outcome == IngestReady ==>
                && world.live.Some? && world.live.value.state == Ready && world.may == {world.live}
                && world.live.value.namespace in world.everReady
      ensures outcome == IngestReady ==> CanIngest(old(world.live), credentialMatches, batches, attempts)
      ensures old(faults) <= faults
      ensures faults == old(faults) && CanIngest(old(world.live), credentialMatches, batches, attempts) ==>
                outcome == IngestReady && (batches > 0 ==> world.live.value.namespace in world.present)
      // Without failures the outcome is determined.
      ensures faults == old(faults) ==>
                outcome == if Refusal(old(world.live), credentialMatches).Some?
                           then Refusal(old(world.live), credentialMatches).value
                           else if CanIngest(old(world.live), credentialMatches, batches, attempts) then IngestReady
                           else IngestFailed
    {
      hide Run;
      var resolved := ResolveReceipt(namespace, credentialMatches);
      if resolved.Err? {
        if world.session.Open? { Close(); }
        return resolved.error;
      }
      var current;
      ghost var cancelled;
      outcome, current, cancelled := RunBoundIngestion(resolved.value, batches, maxConcurrency, attempts);
      if outcome == IngestReady {
        if current.state == Intent {
          outcome := IngestFailed;
        } else if current.state == CreatedState {
          var ok := MoveTo(current, Ready);
          if !ok { outcome := IngestFailed; }
        }
      }
      if world.session.Open? { Close(); }
    }
  }
}
