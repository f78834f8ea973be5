/** The runtime object: every method is one block under the control lock, and has exactly the effect of
    its event on the scheduler state. */
module EvaluationRuntime {
  import opened Collections
  import opened Scheduler

  /** Counting the listed active runs counts the occupied slots. */
  lemma {:induction false} SlotsOfActive(s: State, ids: seq<RunId>)
    ensures Sum(Filter(ids, ActiveFlag(s)), Slot(s)) == Sum(ids, Slot(s))
  {
    if ids != [] {
      SlotsOfActive(s, ids[1..]);
      var head := if IsActive(s, ids[0]) then [ids[0]] else [];
      SumAppend(head, Filter(ids[1..], ActiveFlag(s)), Slot(s));
      assert Sum(head, Slot(s)) == Slot(s)(ids[0]);
    }
  }

  lemma InterruptRows(rows: map<RunId, Row>)
    ensures Interrupt(rows).Keys == rows.Keys
    ensures forall id | id in rows ::
              Interrupt(rows)[id] == if rows[id].status == Running then rows[id].(status := Interrupted) else rows[id]
  {
  }

  lemma ListedRows(s: State)
    requires Linked(s)
    ensures forall id :: id in s.rows <==> id in s.order
  {
    LinkedOrder(s);
  }

  lemma WithinRows(s: State, l: Limits)
    requires Bounded(s, l) && s.started
    ensures |ActiveIds(s)| <= l.maxRows
  {
  }

  lemma RunningServed(s: State, id: RunId)
    requires Phased(s)
    ensures s.started && Has(s, id, Running) ==> id in s.services
  {
  }

  /** Every slot is taken, or each queued run has a driver; never more slots than there are. */
  ghost predicate Scheduled(s: State, l: Limits) {
    && |Busy(s.rows, s.drivers)| <= l.maxActive
    && (|Busy(s.rows, s.drivers)| == l.maxActive || WithStatus(s.rows, {Queued}) <= s.drivers.Keys)
  }

  lemma ScheduledFrom(s: State, l: Limits)
    requires Linked(s) && Occupancy(s) <= l.maxActive
    requires Occupancy(s) == l.maxActive || forall id | id in s.rows :: !Idle(s, id)
    ensures Scheduled(s, l)
  {
    OccupancyMeans(s);
    hide Linked, Occupancy, Busy;
    if Occupancy(s) != l.maxActive {
      forall id | id in WithStatus(s.rows, {Queued}) ensures id in s.drivers { assert !Idle(s, id); }
    }
  }

  lemma StartSchedules(s: State, l: Limits, ok: bool)
    requires ValidLimits(l) && Inv(s, l)
    ensures !s.started && AfterStart(s, l, ok).started ==> Scheduled(AfterStart(s, l, ok), l)
  {
    hide Occupancy, Pump, Phased, Bounded, Awake, Scheduled;
    if !s.started && AfterStart(s, l, ok).started {
      StartMeans(s, l);
      StepKeeps(s, l, Event.Start(ok));
      ScheduledFrom(AfterStart(s, l, ok), l);
    }
  }

  /** What a release and its pump leave behind. */
  lemma ReleaseFacts(s: State, l: Limits, t: TaskId)
    requires ValidLimits(l) && Inv(s, l) && Enabled(s, Finish(t))
    ensures var u := AfterFinish(s, l, t); var id := s.live[t].run;
            && id !in u.drivers && id !in u.services && u.rows == s.rows && u.closing == s.closing
            && (forall other | other in s.drivers && other != id ::
                other in u.drivers && u.drivers[other] == s.drivers[other])
            && (forall k | k in s.live && k != t :: k in u.live && u.live[k] == s.live[k])
            && (forall other | other in u.drivers && other !in s.drivers :: Has(s, other, Queued))
            && (!s.closing ==> Scheduled(u, l))
  {
    hide Linked, Phased, Bounded, Awake, Pump, HasPhase, Occupancy, Scheduled;
    FinishingIdle(s, t);
    ReleaseLinked(s, t);
    ReleaseBounded(s, l, t);
    NotRunning(s, t);
    PumpKeeps(Released(s, t), l);
    var u := AfterFinish(s, l, t);
    if !s.closing {
      WithinBounds(u, l);
      ScheduledFrom(u, l);
    }
  }

  lemma FinishingIdle(s: State, t: TaskId)
    requires Linked(s) && Phased(s) && t in s.live && s.live[t].phase == Finishing
    ensures s.closing || !Has(s, s.live[t].run, Queued)
  {
  }

  class Runtime {
    // The repository's runs, in claim order.
    var order: seq<RunId>
    var rows: map<RunId, Row>
    // What this process owns.
    var drivers: map<RunId, TaskId>
    var live: map<TaskId, Task>
    var nextTask: TaskId
    var services: set<RunId>
    var started: bool
    var closing: bool
    var disposed: bool
    const limits: Limits

    function Current(): State
      reads this
    {
      State(order, rows, drivers, live, nextTask, services, started, closing, disposed)
    }

    predicate Valid()
      reads this
    {
      ValidLimits(limits) && Inv(Current(), limits)
    }

    /** A new process over the persisted runs. */
    constructor (order: seq<RunId>, rows: map<RunId, Row>, limits: Limits)
      requires ValidLimits(limits) && Distinct(order) && ToSet(order) == rows.Keys
      ensures Valid() && this.limits == limits
      ensures Current() == State(order, rows, map[], map[], 0, {}, false, false, false)
    {
      this.order, this.rows, this.limits := order, rows, limits;
      drivers, live, nextTask, services := map[], map[], 0, {};
      started, closing, disposed := false, false, false;
    }

    /** The bounded listing: queued and running runs in claim order, or an error when there are too many. */
    method ListActiveRuns() returns (r: Option<seq<RunId>>)
      ensures r == if |ActiveIds(Current())| > limits.maxRows then None else Some(ActiveIds(Current()))
    {
      ghost var s := Current();
      var active := [];
      assert Filter(order[..0], ActiveFlag(s)) == [];
      hide Filter, CountIf;
      for i := 0 to |order|
        invariant active == Filter(order[..i], ActiveFlag(s))
      {
        FilterStep(order, i, ActiveFlag(s));
        if order[i] in rows && rows[order[i]].status in {Queued, Running} { active := active + [order[i]]; }
      }
      assert order[..|order|] == order;
      return if |active| > limits.maxRows then None else Some(active);
    }

    /** Mark the runs of a dead process interrupted. */
    method RecoverStartup()
      requires Linked(Current())
      modifies this`rows
      ensures rows == Interrupt(old(rows)) && rows.Keys == old(rows).Keys
      ensures forall id | id in rows ::
                rows[id] == if old(rows)[id].status == Running then Row(old(rows)[id].suite, Interrupted)
                            else old(rows)[id]
    {
      hide Linked, Interrupt;
      ListedRows(Current());
      InterruptRows(rows);
      for i := 0 to |order|
        invariant rows.Keys == old(rows).Keys
        invariant forall id | id in rows ::
                    rows[id] == if id in order[..i] then Interrupt(old(rows))[id] else old(rows)[id]
      {
        var id := order[i];
        assert order[..i + 1] == order[..i] + [id];
        if rows[id].status == Running { rows := rows[id := rows[id].(status := Interrupted)]; }
      }
      assert order[..|order|] == order;
    }

    method ScheduleDriverLocked(id: RunId)
      modifies this`drivers, this`live, this`nextTask
      ensures Current() == Schedule(old(Current()), id)
    {
      if id in drivers { return; }
      live := live[nextTask := Task(id, Waiting)];
      drivers := drivers[id := nextTask];
      nextTask := nextTask + 1;
    }

    method CountUsed(active: seq<RunId>) returns (used: int)
      requires forall id | id in active :: IsActive(Current(), id)
      ensures used == Sum(active, Slot(Current()))
    {
      ghost var s := Current();
      used := 0;
      for i := 0 to |active|
        invariant used == Sum(active[..i], Slot(s))
      {
        assert active[..i + 1] == active[..i] + [active[i]];
        SumAppend(active[..i], [active[i]], Slot(s));
        assert Sum([active[i]], Slot(s)) == Slot(s)(active[i]);
        assert IsActive(s, active[i]);
        if rows[active[i]].status == Running || active[i] in drivers { used := used + 1; }
      }
      assert active[..|active|] == active;
    }

    method ScheduleIdle(active: seq<RunId>, slots: nat)
      modifies this`drivers, this`live, this`nextTask
      ensures Current() == PumpOver(old(Current()), active, slots)
    {
      var available := slots;
      for i := 0 to |active|
        invariant 0 <= available
        invariant PumpOver(old(Current()), active, slots) == PumpOver(Current(), active[i..], available)
      {
        assert active[i..][1..] == active[i + 1..];
        if available == 0 { return; }
        if active[i] in rows && rows[active[i]].status == Queued && active[i] !in drivers {
          ScheduleDriverLocked(active[i]);
          available := available - 1;
        }
      }
    }

    /** Count the slots in use, then schedule idle runs in claim order while slots are free. */
    method PumpQueuedLocked() returns (ok: bool)
      modifies this`drivers, this`live, this`nextTask
      ensures Current() == Pump(old(Current()), limits)
      ensures ok <==> closing || |ActiveIds(old(Current()))| <= limits.maxRows
    {
      hide PumpOver, Sum, Filter;
      if closing { return true; }
      var listed := ListActiveRuns();
      if listed.None? { return false; }
      var used := CountUsed(listed.value);
      SlotsOfActive(Current(), order);
      ScheduleIdle(listed.value, if used < limits.maxActive then limits.maxActive - used else 0);
      return true;
    }

    /** Recover and pump; a failed listing leaves the runtime stopped. */
    method Start(resourcesOk: bool) returns (error: Option<Error>)
      requires Valid()
      modifies this
      ensures Valid() && Current() == Next(old(Current()), limits, Event.Start(resourcesOk))
      ensures error.None? <==> started
      ensures error.None? || error == Some(Unavailable)
      // It starts unless it was stopped, its resources fail, or more runs are queued than it can list.
      ensures started <==> old(started) || (!old(closing || disposed) && resourcesOk
                                            && |WithStatus(old(rows), {Queued})| <= limits.maxRows)
      ensures old(started || closing || disposed) || !resourcesOk ==> Current() == old(Current())
      ensures !old(started || closing || disposed) && resourcesOk ==>
        && !closing && !disposed && services == {} && order == old(order) && rows.Keys == old(rows).Keys
        && (forall id | id in rows ::
              rows[id] == if old(rows)[id].status == Running then old(rows)[id].(status := Interrupted)
                          else old(rows)[id])
      // A start schedules queued runs until every slot is taken or none is left over.
      ensures started && !old(started) ==> Scheduled(Current(), limits)
    {
      hide Linked, Phased, Bounded, Awake, Scheduled, Interrupt;
      if !started && !closing && !disposed { StartMeans(Current(), limits); }
      StartSchedules(Current(), limits, resourcesOk);
      StepKeeps(Current(), limits, Event.Start(resourcesOk));
      if started { return None; }
      if closing || disposed { return Some(Unavailable); }
      if !resourcesOk { return Some(Unavailable); }
      RecoverStartup();
      started := true;
      label beforePump:
      assert ActiveIds(Current()) == ActiveIds(Current().(started := false)) by {
        SameActive(Current(), Current().(started := false));
      }
      var ok := PumpQueuedLocked();
      if !ok {
        started := false;
        return Some(Unavailable);
      }
      return None;
    }

    method PersistRun(id: RunId, suite: Suite)
      requires id !in drivers
      modifies this
      ensures Current() == Schedule(WithRow(old(Current()), id, suite), id)
      ensures Has(Current(), id, Queued) && HasPhase(Current(), id, Waiting)
      ensures rows == old(rows)[id := Row(suite, Queued)] && order == old(order) + [id]
      ensures drivers == old(drivers)[id := old(nextTask)] && nextTask == old(nextTask) + 1
      ensures live == old(live)[old(nextTask) := Task(id, Waiting)]
      ensures services == old(services) && started == old(started) && closing == old(closing)
      ensures disposed == old(disposed)
    {
      order := order + [id];
      rows := rows[id := Row(suite, Queued)];
      ScheduleDriverLocked(id);
    }

    /** Admit a run only when no equivalent run is active and a slot is free. */
    method CreateEvalRun(id: RunId, suite: Suite) returns (error: Option<Error>)
      requires Valid() && id !in rows
      modifies this
      ensures Valid() && Current() == Next(old(Current()), limits, Create(id, suite))
      ensures error == CreateError(old(Current()), limits, suite)
      // Admitted exactly while started and not closing, with no active run of the suite and a free place.
      ensures var active := WithStatus(old(rows), {Queued, Running});
        var equivalent := exists run :: run in active && old(rows)[run].suite == suite;
        && (error.None? <==> old(started) && !old(closing) && !equivalent && |active| < limits.maxActive)
        && (error == Some(Unavailable) <==> !old(started) || old(closing))
        && (error == Some(EquivalentActive) <==> old(started) && !old(closing) && equivalent)
        && (error == Some(AtCapacity) <==>
              old(started) && !old(closing) && !equivalent && |active| >= limits.maxActive)
      // A refusal changes nothing; an admitted run is persisted last, with a new waiting driver.
      ensures error.Some? ==> Current() == old(Current())
      ensures error.None? ==>
        && rows == old(rows)[id := Row(suite, Queued)] && order == old(order) + [id]
        && drivers == old(drivers)[id := old(nextTask)] && nextTask == old(nextTask) + 1
        && live == old(live)[old(nextTask) := Task(id, Waiting)]
        && services == old(services) && started && !closing && disposed == old(disposed)
      ensures error.None? ==> Has(Current(), id, Queued) && HasPhase(Current(), id, Waiting)
    {
      hide Linked, Phased, Bounded, Awake, PumpOver, Schedule, Sum;
      ActiveMeans(Current());
      if started { WithinRows(Current(), limits); }
      NotDriven(Current(), id);
      StepKeeps(Current(), limits, Create(id, suite));
      if !started || closing { return Some(Unavailable); }
      var listed := ListActiveRuns();
      if listed.None? { return Some(Unavailable); }
      if exists run :: run in listed.value && run in rows && rows[run].suite == suite { return Some(EquivalentActive); }
      if |listed.value| >= limits.maxActive { return Some(AtCapacity); }
      PersistRun(id, suite);
      return None;
    }

    /** A queued run is cancelled at once; a running one is left to its service. */
    method CancelEvalRun(id: RunId) returns (error: Option<Error>, cooperative: bool)
      requires Valid()
      modifies this`rows
      ensures Valid() && Current() == Next(old(Current()), limits, Cancel(id))
      ensures error == CancelError(old(Current()), id)
      ensures error == Some(Unavailable) <==> !started || closing
      ensures error == Some(NotFound) <==> started && !closing && id !in rows
      ensures error.None? <==> started && !closing && id in rows
      ensures rows == if error.None? && old(rows)[id].status == Queued
                      then old(rows)[id := Row(old(rows)[id].suite, Cancelled)] else old(rows)
      ensures cooperative <==> error.None? && rows[id].status == Running
    {
      hide Linked, Phased, Bounded, Awake;
      RunningServed(Current(), id);
      StepKeeps(Current(), limits, Cancel(id));
      cooperative := false;
      if !started || closing { return Some(Unavailable), false; }
      if id !in rows { return Some(NotFound), false; }
      if rows[id].status == Queued {
        rows := rows[id := rows[id].(status := Cancelled)];
      } else if rows[id].status == Running {
        if id !in services { return Some(Unavailable), false; }
        cooperative := true;
      }
      return None, cooperative;
    }

    /** The first locked block of a driver: claim the run and hand it to its service. */
    method EnterDriver(t: TaskId, outcome: ClaimOutcome)
      requires Valid() && Enabled(Current(), Enter(t, outcome))
      modifies this`rows, this`live, this`services
      ensures Valid() && Current() == Next(old(Current()), limits, Enter(t, outcome))
      // While accepting, a queued run becomes running with a service and a draining driver, or failed.
      ensures var id := old(live[t].run);
              if old(closing) || id !in old(rows) || old(rows)[id].status != Queued
              then rows == old(rows) && services == old(services) && live[t].phase == Finishing
              else
                && rows == old(rows)[id := old(rows[id]).(status := if outcome == Claimed then Running else Failed)]
                && services == old(services) + (if outcome == FailedBeforeService then {} else {id})
                && live[t].phase == (if outcome == Claimed then Draining else Finishing)
      ensures forall other | other in old(live) && other != t :: other in live && live[other] == old(live)[other]
    {
      hide Linked, Phased, Bounded, Awake;
      StepKeeps(Current(), limits, Enter(t, outcome));
      var id := live[t].run;
      if closing || id !in rows || rows[id].status != Queued {
        live := live[t := live[t].(phase := Finishing)];
        return;
      }
      if outcome != FailedBeforeService { services := services + {id}; }
      if outcome == Claimed {
        rows := rows[id := rows[id].(status := Running)];
        live := live[t := live[t].(phase := Draining)];
      } else {
        rows := rows[id := rows[id].(status := Failed)];
        live := live[t := live[t].(phase := Finishing)];
      }
    }

    /** The service has ended; a run it left active is failed. */
    method DrainDriver(t: TaskId)
      requires Valid() && Enabled(Current(), Drained(t))
      modifies this`rows, this`live
      ensures Valid() && Current() == Next(old(Current()), limits, Drained(t))
      // No run is still active when its driver finishes; every other run keeps its status.
      ensures var id := old(live[t].run);
              rows == if id in old(rows) && old(rows)[id].status in {Queued, Running}
                      then old(rows)[id := Row(old(rows)[id].suite, Failed)] else old(rows)
      ensures live == old(live)[t := Task(old(live[t].run), Finishing)]
    {
      hide Linked, Phased, Bounded, Awake;
      StepKeeps(Current(), limits, Drained(t));
      var id := live[t].run;
      if id in rows && rows[id].status in {Queued, Running} { rows := rows[id := rows[id].(status := Failed)]; }
      live := live[t := live[t].(phase := Finishing)];
    }

    /** The last locked block of a driver: leave the tables and pump. */
    method ReleaseDriver(t: TaskId)
      requires Valid() && Enabled(Current(), Finish(t))
      modifies this`drivers, this`live, this`services, this`nextTask
      ensures Valid() && Current() == Next(old(Current()), limits, Finish(t))
      // The run leaves the tables, all other drivers stay, and new drivers are for idle queued runs only;
      // unless closing, every slot is taken or no run is idle.
      ensures var id := old(live[t].run);
              && id !in drivers && id !in services
              && (forall other | other in old(drivers) && other != id ::
                  other in drivers && drivers[other] == old(drivers)[other])
              && (forall k | k in old(live) && k != t :: k in live && live[k] == old(live)[k])
              && (forall other | other in drivers && other !in old(drivers) ::
                    other in rows && rows[other].status == Queued)
      ensures !closing ==> Scheduled(Current(), limits)
    {
      hide Linked, Phased, Bounded, Awake, Scheduled;
      ReleaseFacts(Current(), limits, t);
      StepKeeps(Current(), limits, Finish(t));
      var id := live[t].run;
      services := services - {id};
      drivers := drivers - {id};
      live := live - {t};
      var ok := PumpQueuedLocked();
    }

    method BeginShutdown()
      requires Valid()
      modifies this`closing
      ensures Valid() && Current() == Next(old(Current()), limits, Event.BeginShutdown) && closing
    {
      hide Linked, Phased, Bounded, Awake;
      StepKeeps(Current(), limits, Event.BeginShutdown);
      closing := true;
    }

    /** All drivers have been awaited. */
    method EndShutdown()
      requires Valid() && started && Enabled(Current(), Event.EndShutdown)
      modifies this`services
      ensures Valid() && Current() == Next(old(Current()), limits, Event.EndShutdown)
      ensures drivers == map[] && services == {} && forall id | id in rows :: rows[id].status != Running
    {
      hide Linked, Phased, Bounded, Awake;
      StepKeeps(Current(), limits, Event.EndShutdown);
      ShutdownDrains(Current(), limits);
      services := {};
      forall id | id in rows ensures rows[id].status != Running {
        assert !Has(Current(), id, Running);
      }
    }
  }

  lemma SameActive(s: State, t: State)
    requires s.order == t.order && s.rows == t.rows
    ensures ActiveIds(s) == ActiveIds(t)
  {
    SameFilter(s, t, s.order);
  }

  lemma {:induction false} SameFilter(s: State, t: State, ids: seq<RunId>)
    requires s.rows == t.rows
    ensures Filter(ids, ActiveFlag(s)) == Filter(ids, ActiveFlag(t))
  {
    if ids != [] { SameFilter(s, t, ids[1..]); }
  }
}
