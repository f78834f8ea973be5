/** The single-worker evaluation runtime: drivers, claim, cancel, pump and shutdown. Every block that runs
    under the control lock is one event; events interleave freely. */
module Scheduler {
  import opened Collections

  type RunId = nat
  type TaskId = nat
  type Suite = nat

  datatype Status = Queued | Running | Completed | Failed | Cancelled | Interrupted

  datatype Row = Row(suite: Suite, status: Status)

  /** Waiting for the lock; executing a claimed run; or about to release its driver. */
  datatype Phase = Waiting | Draining | Finishing

  datatype Task = Task(run: RunId, phase: Phase)

  datatype Error = Unavailable | NotFound | EquivalentActive | AtCapacity

  /** `order` and `rows` are the persisted runs in claim order; the rest lives in one process. */
  datatype State = State(
    order: seq<RunId>,
    rows: map<RunId, Row>,
    drivers: map<RunId, TaskId>,
    live: map<TaskId, Task>,
    nextTask: TaskId,
    services: set<RunId>,
    started: bool,
    closing: bool,
    disposed: bool)

  datatype Limits = Limits(maxActive: nat, maxRows: nat)

  predicate ValidLimits(l: Limits) {
    0 < l.maxActive <= l.maxRows
  }

  // ----- Observations

  predicate Has(s: State, id: RunId, status: Status) {
    id in s.rows && s.rows[id].status == status
  }

  predicate IsActive(s: State, id: RunId) {
    Has(s, id, Queued) || Has(s, id, Running)
  }

  predicate Idle(s: State, id: RunId) {
    Has(s, id, Queued) && id !in s.drivers
  }

  /** A run that uses one of the bounded execution slots. */
  predicate Occupied(s: State, id: RunId) {
    Has(s, id, Running) || (Has(s, id, Queued) && id in s.drivers)
  }

  function Slot(s: State): RunId -> int {
    (id: RunId) => if Occupied(s, id) then 1 else 0
  }

  function Occupancy(s: State): int {
    Sum(s.order, Slot(s))
  }

  function ActiveFlag(s: State): RunId -> bool {
    (id: RunId) => IsActive(s, id)
  }

  function ActiveIds(s: State): seq<RunId> {
    Filter(s.order, ActiveFlag(s))
  }

  // The same, as sets of persisted rows.

  ghost function WithStatus(rows: map<RunId, Row>, statuses: set<Status>): set<RunId> {
    set id | id in rows && rows[id].status in statuses
  }

  /** Running runs, and queued runs that have a driver. */
  ghost function Busy(rows: map<RunId, Row>, drivers: map<RunId, TaskId>): set<RunId> {
    set id | id in rows && (rows[id].status == Running || (rows[id].status == Queued && id in drivers))
  }

  /** The bounded listing holds exactly the queued and running rows. */
  lemma ActiveMeans(s: State)
    requires Linked(s)
    ensures forall id :: id in ActiveIds(s) <==> id in WithStatus(s.rows, {Queued, Running})
    ensures |ActiveIds(s)| == |WithStatus(s.rows, {Queued, Running})|
  {
    LinkedOrder(s);
    CountIfCard(s.order, ActiveFlag(s));
    assert Matching(s.order, ActiveFlag(s)) == WithStatus(s.rows, {Queued, Running});
  }

  lemma {:induction false} SumIsCount(s: State, ids: seq<RunId>, occupied: RunId -> bool)
    requires forall id :: occupied(id) == Occupied(s, id)
    ensures Sum(ids, Slot(s)) == CountIf(ids, occupied)
  {
    if ids != [] { SumIsCount(s, ids[1..], occupied); }
  }

  lemma OccupancyMeans(s: State)
    requires Linked(s)
    ensures Occupancy(s) == |Busy(s.rows, s.drivers)|
  {
    LinkedOrder(s);
    var occupied := (id: RunId) => Occupied(s, id);
    SumIsCount(s, s.order, occupied);
    CountIfCard(s.order, occupied);
    assert Matching(s.order, occupied) == Busy(s.rows, s.drivers);
  }

  predicate HasPhase(s: State, id: RunId, phase: Phase) {
    id in s.drivers && s.drivers[id] in s.live && s.live[s.drivers[id]].phase == phase
  }

  // ----- The effect of each event

  function SetStatus(s: State, id: RunId, status: Status): State
    requires id in s.rows
  {
    s.(rows := s.rows[id := s.rows[id].(status := status)])
  }

  function SetPhase(s: State, t: TaskId, phase: Phase): State
    requires t in s.live
  {
    s.(live := s.live[t := s.live[t].(phase := phase)])
  }

  function Schedule(s: State, id: RunId): State {
    if id in s.drivers then s
    else s.(drivers := s.drivers[id := s.nextTask],
            live := s.live[s.nextTask := Task(id, Waiting)],
            nextTask := s.nextTask + 1)
  }

  function PumpOver(s: State, active: seq<RunId>, available: nat): State
    decreases |active|
  {
    if active == [] || available == 0 then s
    else if Idle(s, active[0]) then PumpOver(Schedule(s, active[0]), active[1..], available - 1)
    else PumpOver(s, active[1..], available)
  }

  function Available(s: State, l: Limits): nat {
    if Occupancy(s) < l.maxActive then l.maxActive - Occupancy(s) else 0
  }

  /** Nothing happens while closing, nor when the bounded listing of active runs raises. */
  function Pump(s: State, l: Limits): State {
    if s.closing || |ActiveIds(s)| > l.maxRows then s
    else PumpOver(s, ActiveIds(s), Available(s, l))
  }

  function Interrupt(rows: map<RunId, Row>): map<RunId, Row> {
    map id | id in rows :: if rows[id].status == Running then rows[id].(status := Interrupted) else rows[id]
  }

  /** What the first locked block of a driver found out before it could hand the run to its service. */
  datatype ClaimOutcome = Claimed | FailedBeforeService | FailedAfterService

  datatype Event =
    | Start(resourcesOk: bool)
    | Create(id: RunId, suite: Suite)
    | Cancel(id: RunId)
    | JobEnds(id: RunId, status: Status)
    | Enter(task: TaskId, outcome: ClaimOutcome)
    | Drained(task: TaskId)
    | Finish(task: TaskId)
    | BeginShutdown
    | EndShutdown
    | Dispose
    | Restart

  predicate Accepting(s: State) {
    s.started && !s.closing
  }

  function CreateError(s: State, l: Limits, suite: Suite): Option<Error> {
    if !Accepting(s) then Some(Unavailable)
    else if |ActiveIds(s)| > l.maxRows then Some(Unavailable)
    else if exists id :: id in ActiveIds(s) && id in s.rows && s.rows[id].suite == suite then Some(EquivalentActive)
    else if |ActiveIds(s)| >= l.maxActive then Some(AtCapacity)
    else None
  }

  function CancelError(s: State, id: RunId): Option<Error> {
    if !Accepting(s) then Some(Unavailable)
    else if id !in s.rows then Some(NotFound)
    else if s.rows[id].status == Running && id !in s.services then Some(Unavailable)
    else None
  }

  function WithRow(s: State, id: RunId, suite: Suite): State {
    s.(order := s.order + [id], rows := s.rows[id := Row(suite, Queued)])
  }

  function AfterStart(s: State, l: Limits, resourcesOk: bool): State {
    if s.started || s.closing || s.disposed || !resourcesOk then s
    else
      var recovered := s.(rows := Interrupt(s.rows));
      if |ActiveIds(recovered)| > l.maxRows then recovered
      else Pump(recovered.(started := true), l)
  }

  function AfterEnter(s: State, t: TaskId, outcome: ClaimOutcome): State
    requires t in s.live
  {
    var id := s.live[t].run;
    if s.closing || !Has(s, id, Queued) then SetPhase(s, t, Finishing)
    else match outcome
      case Claimed => SetPhase(SetStatus(s, id, Running).(services := s.services + {id}), t, Draining)
      case FailedBeforeService => SetPhase(SetStatus(s, id, Failed), t, Finishing)
      case FailedAfterService => SetPhase(SetStatus(s, id, Failed).(services := s.services + {id}), t, Finishing)
  }

  function AfterDrained(s: State, t: TaskId): State
    requires t in s.live
  {
    var id := s.live[t].run;
    SetPhase(if id in s.rows && IsActive(s, id) then SetStatus(s, id, Failed) else s, t, Finishing)
  }

  /** The driver, its service and its backend leave the tables. */
  function Released(s: State, t: TaskId): State
    requires t in s.live
  {
    var id := s.live[t].run;
    s.(services := s.services - {id}, drivers := s.drivers - {id}, live := s.live - {t})
  }

  function AfterFinish(s: State, l: Limits, t: TaskId): State
    requires t in s.live
  {
    Pump(Released(s, t), l)
  }

  predicate Enabled(s: State, e: Event) {
    match e
    case Create(id, suite) => id !in s.rows
    case JobEnds(id, status) => Has(s, id, Running) && HasPhase(s, id, Draining)
        && status in {Completed, Failed, Cancelled}
    case Enter(t, _) => t in s.live && s.live[t].phase == Waiting
    case Drained(t) => t in s.live && s.live[t].phase == Draining
    case Finish(t) => t in s.live && s.live[t].phase == Finishing
    case EndShutdown => s.closing && s.live == map[]
    case Dispose => s.live == map[]
    case _ => true
  }

  function Next(s: State, l: Limits, e: Event): State
    requires Enabled(s, e)
  {
    match e
    case Start(ok) => AfterStart(s, l, ok)
    case Create(id, suite) =>
      if CreateError(s, l, suite).Some? then s
      else Schedule(WithRow(s, id, suite), id)
    case Cancel(id) =>
      if CancelError(s, id).None? && Has(s, id, Queued) then SetStatus(s, id, Cancelled) else s
    case JobEnds(id, status) => SetStatus(s, id, status)
    case Enter(t, outcome) => AfterEnter(s, t, outcome)
    case Drained(t) => AfterDrained(s, t)
    case Finish(t) => AfterFinish(s, l, t)
    case BeginShutdown => s.(closing := true)
    case EndShutdown => s.(services := {})
    case Dispose => s.(disposed := true)
    case Restart => s.(drivers := map[], live := map[], services := {}, started := false, closing := false,
        disposed := false)
  }

  // ----- Safety

  /** Persisted rows, driver table and live tasks agree: each live task is the driver of its own run. */
  predicate Linked(s: State) {
    && Distinct(s.order) && ToSet(s.order) == s.rows.Keys
    && (forall t | t in s.live :: t < s.nextTask && s.live[t].run in s.drivers && s.drivers[s.live[t].run] == t)
    && (forall id | id in s.drivers :: id in s.rows && s.drivers[id] in s.live && s.live[s.drivers[id]].run == id)
    && s.services <= s.drivers.Keys
  }

  predicate Phased(s: State) {
    && (!s.started ==> s.live == map[])
    && (forall id | id in s.rows && s.started && s.rows[id].status == Running ::
        HasPhase(s, id, Draining) && id in s.services)
    && (forall t | t in s.live && s.live[t].phase == Draining :: !Has(s, s.live[t].run, Queued))
    && (forall t | t in s.live && s.live[t].phase == Finishing && !s.closing :: !Has(s, s.live[t].run, Queued))
  }

  predicate Bounded(s: State, l: Limits) {
    s.started ==> Occupancy(s) <= l.maxActive && |ActiveIds(s)| <= l.maxRows
  }

  /** A queued run that nobody drives always has a live task whose release will pump. */
  predicate Awake(s: State) {
    Accepting(s) && (exists id :: id in s.rows && Idle(s, id)) ==> s.live != map[]
  }

  predicate Inv(s: State, l: Limits) {
    Linked(s) && Phased(s) && Bounded(s, l) && Awake(s)
  }

  predicate Core(s: State, l: Limits) {
    Linked(s) && Phased(s) && Bounded(s, l)
  }

  /** One run's slot is the only one that may differ. */
  lemma OccupancyDiffers(s: State, t: State, id: RunId)
    requires Distinct(s.order) && t.order == s.order && id in s.order
    requires forall other | other in s.order && other != id :: Occupied(s, other) == Occupied(t, other)
    ensures Occupancy(t) == Occupancy(s) + Slot(t)(id) - Slot(s)(id)
  {
    SumDiffers(s.order, Slot(s), Slot(t), id);
  }

  lemma OccupancySame(s: State, t: State)
    requires t.order == s.order
    requires forall id | id in s.order :: Occupied(t, id) ==> Occupied(s, id)
    ensures Occupancy(t) <= Occupancy(s)
  {
    SumMonotone(s.order, Slot(t), Slot(s));
  }

  lemma ActiveMonotone(s: State, t: State)
    requires t.order == s.order
    requires forall id | id in s.order :: IsActive(t, id) ==> IsActive(s, id)
    ensures |ActiveIds(t)| <= |ActiveIds(s)|
  {
    CountIfMonotone(s.order, ActiveFlag(t), ActiveFlag(s));
  }

  lemma OccupancyPositive(s: State)
    requires Occupancy(s) > 0
    ensures exists id :: id in s.order && Occupied(s, id)
  {
    if !exists id :: id in s.order && Occupied(s, id) {
      ZeroSum(s.order, Slot(s));
    }
  }

  lemma {:induction false} ZeroSum(ids: seq<RunId>, f: RunId -> int)
    requires forall id | id in ids :: f(id) == 0
    ensures Sum(ids, f) == 0
  {
    if ids != [] {
      assert ids[0] in ids;
      ZeroSum(ids[1..], f);
    }
  }

  lemma LinkedOrder(s: State)
    requires Linked(s)
    ensures Distinct(s.order)
    ensures forall id :: id in s.order <==> id in s.rows
  {
    assert forall id :: id in s.order <==> id in ToSet(s.order);
  }

  lemma ScheduleLinked(s: State, id: RunId)
    requires Linked(s) && Phased(s) && s.started && Idle(s, id)
    ensures Linked(Schedule(s, id)) && Phased(Schedule(s, id))
  {
  }

  lemma ScheduleKeeps(s: State, l: Limits, id: RunId)
    requires ValidLimits(l) && Core(s, l) && s.started && Idle(s, id) && Occupancy(s) < l.maxActive
    ensures Core(Schedule(s, id), l) && Occupancy(Schedule(s, id)) == Occupancy(s) + 1
  {
    hide Linked, Phased, Occupancy, ActiveIds;
    LinkedOrder(s);
    ScheduleLinked(s, id);
    OccupancyDiffers(s, Schedule(s, id), id);
    ActiveMonotone(s, Schedule(s, id));
  }

  /** What the pump may change: it only adds waiting drivers for idle runs. */
  predicate Pumped(s: State, t: State) {
    && t == s.(drivers := t.drivers, live := t.live, nextTask := t.nextTask)
    && (forall id | id in s.drivers :: id in t.drivers && t.drivers[id] == s.drivers[id])
    && (forall k | k in s.live :: k in t.live && t.live[k] == s.live[k])
    && (forall id | id in t.drivers && id !in s.drivers :: Idle(s, id) && HasPhase(t, id, Waiting))
  }

  lemma ScheduleIsPump(s: State, id: RunId)
    requires Linked(s) && Idle(s, id)
    ensures Pumped(s, Schedule(s, id))
  {
  }

  lemma PumpedTransitive(s: State, t: State, u: State)
    requires Pumped(s, t) && Pumped(t, u)
    ensures Pumped(s, u)
  {
    forall id | id in u.drivers && id !in s.drivers ensures Idle(s, id) && HasPhase(u, id, Waiting) {
      if id in t.drivers { assert HasPhase(t, id, Waiting); }
    }
  }

  /** The pump keeps the core invariant, and leaves a driver behind if it leaves a listed run idle. */
  lemma {:induction false} PumpOverKeeps(s: State, l: Limits, active: seq<RunId>, available: nat)
    requires ValidLimits(l) && Core(s, l) && s.started && Occupancy(s) + available <= l.maxActive
    ensures Core(PumpOver(s, active, available), l) && Pumped(s, PumpOver(s, active, available))
    ensures available > 0 && (exists id :: id in active && Idle(PumpOver(s, active, available), id)) ==>
      PumpOver(s, active, available).live != map[]
    decreases |active|
  {
    hide Linked, Phased, Bounded, Occupancy, HasPhase;
    assert forall id | id in active :: id == active[0] || id in active[1..];
    if active != [] && available > 0 {
      if Idle(s, active[0]) {
        var t := Schedule(s, active[0]);
        ScheduleKeeps(s, l, active[0]);
        ScheduleIsPump(s, active[0]);
        assert s.nextTask in t.live;
        PumpOverKeeps(t, l, active[1..], available - 1);
        PumpedTransitive(s, t, PumpOver(s, active, available));
        assert s.nextTask in PumpOver(s, active, available).live;
      } else {
        PumpOverKeeps(s, l, active[1..], available);
      }
    }
  }

  /** The pump uses up every free slot or leaves no listed run idle. */
  lemma {:induction false} PumpOverFills(s: State, l: Limits, active: seq<RunId>, available: nat)
    requires ValidLimits(l) && Core(s, l) && s.started && Occupancy(s) + available <= l.maxActive
    ensures Occupancy(PumpOver(s, active, available)) == Occupancy(s) + available
            || forall id | id in active :: !Idle(PumpOver(s, active, available), id)
    decreases |active|
  {
    hide Linked, Phased, Bounded, Occupancy, HasPhase;
    if active != [] && available > 0 {
      var head, rest := active[0], active[1..];
      assert forall id | id in active :: id == head || id in rest;
      if Idle(s, head) {
        ScheduleKeeps(s, l, head);
        PumpOverKeeps(Schedule(s, head), l, rest, available - 1);
        PumpOverFills(Schedule(s, head), l, rest, available - 1);
      } else {
        PumpOverKeeps(s, l, rest, available);
        PumpOverFills(s, l, rest, available);
      }
    }
  }

  /** After a pump every slot is taken or no run is idle, and no queued run is left without anybody to
      wake it. */
  lemma PumpKeeps(s: State, l: Limits)
    requires ValidLimits(l) && Core(s, l) && s.started
    ensures Inv(Pump(s, l), l) && Pumped(s, Pump(s, l)) && (s.closing ==> Pump(s, l) == s)
    ensures !s.closing ==> Occupancy(Pump(s, l)) == l.maxActive || forall id | id in s.rows :: !Idle(Pump(s, l), id)
  {
    hide Linked, Phased, Occupancy, PumpOver;
    var t := Pump(s, l);
    LinkedOrder(s);
    if !s.closing {
      PumpOverKeeps(s, l, ActiveIds(s), Available(s, l));
      PumpOverFills(s, l, ActiveIds(s), Available(s, l));
      forall id | id in s.rows && Idle(t, id) ensures id in ActiveIds(s) {}
      if Occupancy(s) >= l.maxActive { FullIsLive(s, l); }
    }
  }

  lemma FullIsLive(s: State, l: Limits)
    requires ValidLimits(l) && Linked(s) && Phased(s) && s.started && Occupancy(s) >= l.maxActive
    ensures s.live != map[]
  {
    hide Linked, Phased, Occupancy;
    OccupancyPositive(s);
    var id :| id in s.order && Occupied(s, id);
    OccupiedIsLive(s, id);
  }

  lemma OccupiedIsLive(s: State, id: RunId)
    requires Linked(s) && Phased(s) && s.started && Occupied(s, id)
    ensures s.live != map[]
  {
    assert s.drivers[id] in s.live;
  }

  // ----- Every event keeps the invariant

  /** A task that is not draining owns no running run. */
  lemma NotRunning(s: State, t: TaskId)
    requires Linked(s) && Phased(s) && t in s.live && s.live[t].phase != Draining
    ensures s.started && !Has(s, s.live[t].run, Running)
  {
    var id := s.live[t].run;
    assert s.drivers[id] == t && id in s.rows;
  }

  /** Fewer occupied slots and fewer active runs stay within the limits. */
  lemma ShrinkKeepsBounds(s: State, l: Limits, t: State)
    requires Bounded(s, l) && t.order == s.order && (t.started ==> s.started)
    requires forall id | id in s.order :: (Occupied(t, id) ==> Occupied(s, id)) && (IsActive(t, id) ==> IsActive(s, id))
    ensures Bounded(t, l)
  {
    OccupancySame(s, t);
    ActiveMonotone(s, t);
  }

  lemma AwakeKept(s: State, t: State)
    requires Awake(s) && t.started == s.started && t.closing == s.closing && t.live.Keys == s.live.Keys
    requires forall id | Idle(t, id) :: Idle(s, id)
    ensures Awake(t)
  {
    if s.live != map[] {
      var k :| k in s.live;
      assert k in t.live;
    }
  }

  lemma AwakeWith(t: State, k: TaskId)
    requires k in t.live
    ensures Awake(t)
  {
  }

  lemma StartKeeps(s: State, l: Limits, ok: bool)
    requires ValidLimits(l) && Inv(s, l)
    ensures Inv(AfterStart(s, l, ok), l)
  {
    if !(s.started || s.closing || s.disposed || !ok) {
      var recovered := s.(rows := Interrupt(s.rows));
      assert recovered.rows.Keys == s.rows.Keys;
      if |ActiveIds(recovered)| <= l.maxRows {
        var t := recovered.(started := true);
        assert s.drivers == map[] by {
          assert forall id :: id !in s.drivers;
        }
        StartBounded(t, l);
        ActiveMonotone(recovered, t);
        PumpKeeps(t, l);
      }
    }
  }

  lemma StartBounded(t: State, l: Limits)
    requires t.drivers == map[] && forall id | id in t.rows :: t.rows[id].status != Running
    ensures Occupancy(t) == 0
  {
    ZeroSum(t.order, Slot(t));
  }

  lemma CreateKeeps(s: State, l: Limits, id: RunId, suite: Suite)
    requires ValidLimits(l) && Inv(s, l) && id !in s.rows
    ensures Inv(Next(s, l, Create(id, suite)), l)
  {
    hide Linked, Phased, Awake, ActiveIds, Occupancy;
    if CreateError(s, l, suite).None? {
      var t := WithRow(s, id, suite);
      RowLinked(s, id, suite);
      RowPhased(s, id, suite);
      RowBounded(s, l, id, suite);
      NotDriven(s, id);
      ScheduleKeeps(t, l, id);
      AwakeWith(Schedule(t, id), s.nextTask);
    }
  }

  lemma NotDriven(s: State, id: RunId)
    requires Linked(s) && id !in s.rows
    ensures id !in s.drivers
  {
  }

  lemma RowLinked(s: State, id: RunId, suite: Suite)
    requires Linked(s) && id !in s.rows
    ensures Linked(WithRow(s, id, suite))
  {
    LinkedOrder(s);
    assert ToSet(WithRow(s, id, suite).order) == ToSet(s.order) + {id};
  }

  lemma RowPhased(s: State, id: RunId, suite: Suite)
    requires Linked(s) && Phased(s) && id !in s.rows
    ensures Phased(WithRow(s, id, suite))
  {
    var t := WithRow(s, id, suite);
    assert forall k | k in s.live :: s.live[k].run in s.rows && t.rows[s.live[k].run] == s.rows[s.live[k].run];
    forall r | r in t.rows && t.started && t.rows[r].status == Running
      ensures HasPhase(t, r, Draining) && r in t.services
    {
      assert HasPhase(s, r, Draining);
    }
  }

  lemma RowBounded(s: State, l: Limits, id: RunId, suite: Suite)
    requires ValidLimits(l) && Linked(s) && id !in s.rows && |ActiveIds(s)| < l.maxActive
    ensures Occupancy(WithRow(s, id, suite)) < l.maxActive && |ActiveIds(WithRow(s, id, suite))| <= l.maxRows
  {
    var t := WithRow(s, id, suite);
    LinkedOrder(s);
    assert id !in s.drivers;
    assert Occupancy(t) <= Occupancy(s) by {
      SumAppend(s.order, [id], Slot(t));
      SumMonotone(s.order, Slot(t), Slot(s));
    }
    assert |ActiveIds(t)| <= |ActiveIds(s)| + 1 by {
      CountIfAppend(s.order, [id], ActiveFlag(t));
      CountIfMonotone(s.order, ActiveFlag(t), ActiveFlag(s));
    }
    OccupancyCount(s, s.order);
  }

  /** Occupied slots are active runs. */
  lemma {:induction false} OccupancyCount(s: State, ids: seq<RunId>)
    ensures Sum(ids, Slot(s)) <= CountIf(ids, ActiveFlag(s))
  {
    if ids != [] {
      OccupancyCount(s, ids[1..]);
    }
  }

  lemma StatusLinked(s: State, id: RunId, status: Status)
    requires Linked(s) && Phased(s) && s.started && id in s.rows && status != Queued && status != Running
    ensures Linked(SetStatus(s, id, status)) && Phased(SetStatus(s, id, status))
  {
    var t := SetStatus(s, id, status);
    assert t.rows.Keys == s.rows.Keys;
    assert forall r | r in s.rows :: Has(t, r, Running) ==> Has(s, r, Running);
    assert forall r | r in s.rows :: Has(t, r, Queued) ==> Has(s, r, Queued);
  }

  lemma StatusBounded(s: State, l: Limits, id: RunId, status: Status)
    requires Bounded(s, l) && id in s.rows && status != Queued && status != Running
    ensures Bounded(SetStatus(s, id, status), l)
  {
    ShrinkKeepsBounds(s, l, SetStatus(s, id, status));
  }

  lemma StatusAwake(s: State, id: RunId, status: Status)
    requires Awake(s) && id in s.rows && status != Queued
    ensures Awake(SetStatus(s, id, status))
  {
    AwakeKept(s, SetStatus(s, id, status));
  }

  lemma StatusChangeKeeps(s: State, l: Limits, id: RunId, status: Status)
    requires ValidLimits(l) && Inv(s, l) && s.started && id in s.rows
    requires status != Queued && status != Running
    ensures Inv(SetStatus(s, id, status), l)
  {
    var t := SetStatus(s, id, status);
    StatusLinked(s, id, status);
    hide Linked, Phased, Bounded, Awake;
    StatusBounded(s, l, id, status);
    StatusAwake(s, id, status);
  }

  lemma PhasePhased(s: State, t: TaskId)
    requires Linked(s) && Phased(s) && t in s.live && !Has(s, s.live[t].run, Running)
    requires s.closing || !Has(s, s.live[t].run, Queued)
    ensures Linked(SetPhase(s, t, Finishing)) && Phased(SetPhase(s, t, Finishing))
  {
    var u := SetPhase(s, t, Finishing);
    forall r | r in u.rows && u.started && u.rows[r].status == Running ensures HasPhase(u, r, Draining) {
      assert HasPhase(s, r, Draining);
    }
  }

  lemma PhaseBounded(s: State, l: Limits, t: TaskId)
    requires Bounded(s, l) && t in s.live
    ensures Bounded(SetPhase(s, t, Finishing), l)
  {
    ShrinkKeepsBounds(s, l, SetPhase(s, t, Finishing));
  }

  lemma PhaseKeeps(s: State, l: Limits, t: TaskId)
    requires Inv(s, l) && t in s.live && !Has(s, s.live[t].run, Running)
    requires s.closing || !Has(s, s.live[t].run, Queued)
    ensures Inv(SetPhase(s, t, Finishing), l)
  {
    PhasePhased(s, t);
    hide Linked, Phased, Bounded, Awake;
    PhaseBounded(s, l, t);
    AwakeWith(SetPhase(s, t, Finishing), t);
  }

  lemma ClaimLinked(s: State, t: TaskId)
    requires Linked(s) && t in s.live && Has(s, s.live[t].run, Queued) && !s.closing
    ensures Linked(AfterEnter(s, t, Claimed))
  {
    assert AfterEnter(s, t, Claimed).rows.Keys == s.rows.Keys;
  }

  lemma ClaimPhased(s: State, t: TaskId)
    requires Linked(s) && Phased(s) && t in s.live && Has(s, s.live[t].run, Queued) && !s.closing
    ensures Phased(AfterEnter(s, t, Claimed))
  {
    var id := s.live[t].run;
    var u := AfterEnter(s, t, Claimed);
    assert s.drivers[id] == t;
    forall r | r in u.rows && u.rows[r].status == Running ensures HasPhase(u, r, Draining) && r in u.services {
      if r != id { assert HasPhase(s, r, Draining); }
    }
  }

  lemma ClaimBounded(s: State, l: Limits, t: TaskId)
    requires Bounded(s, l) && t in s.live && Has(s, s.live[t].run, Queued) && !s.closing && s.live[t].run in s.drivers
    ensures Bounded(AfterEnter(s, t, Claimed), l)
  {
    ShrinkKeepsBounds(s, l, AfterEnter(s, t, Claimed));
  }

  /** Claiming turns a scheduled slot into a running one. */
  lemma ClaimKeeps(s: State, l: Limits, t: TaskId)
    requires ValidLimits(l) && Inv(s, l) && t in s.live && Has(s, s.live[t].run, Queued) && !s.closing
    ensures Inv(AfterEnter(s, t, Claimed), l)
  {
    ClaimLinked(s, t);
    ClaimPhased(s, t);
    assert s.live[t].run in s.drivers;
    hide Linked, Phased, Bounded, Awake;
    ClaimBounded(s, l, t);
    AwakeWith(AfterEnter(s, t, Claimed), t);
  }

  lemma ServicesKeep(s: State, l: Limits, services: set<RunId>)
    requires Inv(s, l) && services <= s.drivers.Keys && s.services <= services
    ensures Inv(s.(services := services), l)
  {
    hide Bounded, Awake;
    var t := s.(services := services);
    ShrinkKeepsBounds(s, l, t);
    AwakeKept(s, t);
    forall r | r in t.rows && t.started && t.rows[r].status == Running ensures HasPhase(t, r, Draining) {
      assert HasPhase(s, r, Draining);
    }
  }

  lemma EnterKeeps(s: State, l: Limits, t: TaskId, outcome: ClaimOutcome)
    requires ValidLimits(l) && Inv(s, l) && Enabled(s, Enter(t, outcome))
    ensures Inv(AfterEnter(s, t, outcome), l)
  {
    hide Linked, Phased, Bounded, Awake, HasPhase;
    var id := s.live[t].run;
    NotRunning(s, t);
    LinkedRun(s, t);
    if s.closing || !Has(s, id, Queued) {
      PhaseKeeps(s, l, t);
    } else if outcome == Claimed {
      ClaimKeeps(s, l, t);
    } else {
      var failed := SetStatus(s, id, Failed);
      StatusChangeKeeps(s, l, id, Failed);
      if outcome == FailedAfterService {
        LinkedServices(s);
        ServicesKeep(failed, l, s.services + {id});
        PhaseKeeps(failed.(services := s.services + {id}), l, t);
      } else {
        PhaseKeeps(failed, l, t);
      }
    }
  }

  lemma LinkedRun(s: State, t: TaskId)
    requires Linked(s) && t in s.live
    ensures s.live[t].run in s.drivers && s.live[t].run in s.rows
  {
  }

  lemma LinkedServices(s: State)
    requires Linked(s)
    ensures s.services <= s.drivers.Keys
  {
  }

  lemma DrainedKeeps(s: State, l: Limits, t: TaskId)
    requires ValidLimits(l) && Inv(s, l) && Enabled(s, Drained(t))
    ensures Inv(AfterDrained(s, t), l)
  {
    var id := s.live[t].run;
    if id in s.rows && IsActive(s, id) {
      StatusChangeKeeps(s, l, id, Failed);
      PhaseKeeps(SetStatus(s, id, Failed), l, t);
    } else {
      PhaseKeeps(s, l, t);
    }
  }

  lemma ReleaseLinked(s: State, t: TaskId)
    requires Linked(s) && Phased(s) && t in s.live && s.live[t].phase == Finishing
    ensures Linked(Released(s, t)) && Phased(Released(s, t))
  {
    var u := Released(s, t);
    NotRunning(s, t);
    forall r | r in u.rows && u.rows[r].status == Running ensures HasPhase(u, r, Draining) && r in u.services {
      assert HasPhase(s, r, Draining);
    }
  }

  lemma ReleaseBounded(s: State, l: Limits, t: TaskId)
    requires Bounded(s, l) && t in s.live
    ensures Bounded(Released(s, t), l)
  {
    ShrinkKeepsBounds(s, l, Released(s, t));
  }

  /** A finishing driver leaves the table, and the pump runs. */
  lemma FinishKeeps(s: State, l: Limits, t: TaskId)
    requires ValidLimits(l) && Inv(s, l) && Enabled(s, Finish(t))
    ensures Inv(AfterFinish(s, l, t), l)
  {
    NotRunning(s, t);
    ReleaseLinked(s, t);
    ReleaseBounded(s, l, t);
    hide Linked, Phased, Bounded, Pump, Released;
    PumpKeeps(Released(s, t), l);
  }

  /** Every event keeps the invariant. */
  lemma StepKeeps(s: State, l: Limits, e: Event)
    requires ValidLimits(l) && Inv(s, l) && Enabled(s, e)
    ensures Inv(Next(s, l, e), l)
  {
    match e
    case Start(ok) => StartKeeps(s, l, ok);
    case Create(id, suite) => CreateKeeps(s, l, id, suite);
    case Cancel(id) =>
      if CancelError(s, id).None? && Has(s, id, Queued) { StatusChangeKeeps(s, l, id, Cancelled); }
    case JobEnds(id, status) => StatusChangeKeeps(s, l, id, status);
    case Enter(t, outcome) => EnterKeeps(s, l, t, outcome);
    case Drained(t) => DrainedKeeps(s, l, t);
    case Finish(t) => FinishKeeps(s, l, t);
    case EndShutdown => EndKeeps(s, l);
    case BeginShutdown => FlagsKeep(s, l, s.(closing := true));
    case Dispose => FlagsKeep(s, l, s.(disposed := true));
    case Restart =>
  }

  lemma FlagsKeep(s: State, l: Limits, t: State)
    requires Inv(s, l) && t == s.(closing := t.closing, disposed := t.disposed) && (s.closing ==> t.closing)
    ensures Inv(t, l)
  {
    hide Bounded;
    ShrinkKeepsBounds(s, l, t);
    forall r | r in t.rows && t.started && t.rows[r].status == Running ensures HasPhase(t, r, Draining) {
      assert HasPhase(s, r, Draining);
    }
  }

  lemma EndKeeps(s: State, l: Limits)
    requires Inv(s, l) && s.closing && s.live == map[]
    ensures Inv(s.(services := {}), l)
  {
    assert s.services == {} by {
      assert forall id :: id !in s.drivers;
    }
    assert s.(services := {}) == s;
  }

  // ----- Whole runs

  predicate Possible(s: State, l: Limits, events: seq<Event>)
    decreases |events|
  {
    events == [] || (Enabled(s, events[0]) && Possible(Next(s, l, events[0]), l, events[1..]))
  }

  function Exec(s: State, l: Limits, events: seq<Event>): State
    requires Possible(s, l, events)
    decreases |events|
  {
    if events == [] then s else Exec(Next(s, l, events[0]), l, events[1..])
  }

  const FRESH := State([], map[], map[], map[], 0, {}, false, false, false)

  lemma {:induction false} RunsKeep(s: State, l: Limits, events: seq<Event>)
    requires ValidLimits(l) && Inv(s, l) && Possible(s, l, events)
    ensures Inv(Exec(s, l, events), l)
    decreases |events|
  {
    if events != [] {
      StepKeeps(s, l, events[0]);
      RunsKeep(Next(s, l, events[0]), l, events[1..]);
    }
  }

  /** Safety of every reachable state: bounded occupancy, one driver a run, running runs executed and
      cancellable, and no lost wakeup. */
  lemma SchedulerSafety(l: Limits, events: seq<Event>)
    requires ValidLimits(l) && Possible(FRESH, l, events)
    ensures var s := Exec(FRESH, l, events);
            && (s.started ==> Occupancy(s) == |Busy(s.rows, s.drivers)| <= l.maxActive)
            && (forall a, b | a in s.live && b in s.live && s.live[a].run == s.live[b].run :: a == b)
            && (forall id | s.started && Has(s, id, Running) :: HasPhase(s, id, Draining) && id in s.services)
            && (Accepting(s) && (exists id :: Has(s, id, Queued)) ==> s.live != map[])
  {
    assert Inv(FRESH, l) by {
      assert ToSet(FRESH.order) == FRESH.rows.Keys;
    }
    RunsKeep(FRESH, l, events);
    var s := Exec(FRESH, l, events);
    OccupancyMeans(s);
    if Accepting(s) {
      forall id | Has(s, id, Queued) ensures s.live != map[] {
        if id in s.drivers { assert s.drivers[id] in s.live; } else { assert Idle(s, id); }
      }
    }
  }

  /** A shutdown that completes leaves no running run, no driver and no service behind. */
  lemma ShutdownDrains(s: State, l: Limits)
    requires ValidLimits(l) && Inv(s, l) && s.started && Enabled(s, EndShutdown)
    ensures var t := Next(s, l, EndShutdown);
            t.drivers == map[] && t.services == {} && forall id :: !Has(t, id, Running)
  {
    DriversLive(s);
  }

  lemma DriversLive(s: State)
    requires Linked(s) && Phased(s) && s.started
    ensures forall id | id in s.drivers :: s.drivers[id] in s.live
    ensures forall id | Has(s, id, Running) :: HasPhase(s, id, Draining) && id in s.services
  {
  }

  /** What the repository allows a run's status to become. */
  predicate StatusMayBecome(from: Status, to: Status) {
    || from == to
    || (from == Queued && to in {Running, Failed, Cancelled})
    || (from == Running && to in {Completed, Failed, Cancelled, Interrupted})
  }

  /** No event loses a run, changes its suite, or moves its status against the persisted lifecycle; in
      particular a terminal run never changes. */
  lemma LifecycleRespected(s: State, l: Limits, e: Event)
    requires Enabled(s, e)
    ensures forall id | id in s.rows ::
      && id in Next(s, l, e).rows && Next(s, l, e).rows[id].suite == s.rows[id].suite
      && StatusMayBecome(s.rows[id].status, Next(s, l, e).rows[id].status)
    ensures e.JobEnds? ==> Next(s, l, e).rows == s.rows[e.id := s.rows[e.id].(status := e.status)]
  {
    hide Pump, ActiveIds, HasPhase, Schedule;
    match e
    case Start(ok) => PumpRows(s.(rows := Interrupt(s.rows), started := true), l);
    case Finish(t) => PumpRows(Released(s, t), l);
    case Create(id, suite) => ScheduleRows(WithRow(s, id, suite), id);
    case Cancel(id) =>
    case JobEnds(id, status) =>
    case Enter(t, outcome) =>
    case Drained(t) =>
    case BeginShutdown =>
    case EndShutdown =>
    case Dispose =>
    case Restart =>
  }

  lemma ScheduleRows(s: State, id: RunId)
    ensures Schedule(s, id).rows == s.rows
  {
  }

  lemma PumpRows(s: State, l: Limits)
    ensures Pump(s, l) == s.(drivers := Pump(s, l).drivers, live := Pump(s, l).live, nextTask := Pump(s, l).nextTask)
  {
    PumpOverRows(s, ActiveIds(s), Available(s, l));
  }

  lemma {:induction false} PumpOverRows(s: State, active: seq<RunId>, available: nat)
    ensures var t := PumpOver(s, active, available);
            t == s.(drivers := t.drivers, live := t.live, nextTask := t.nextTask)
    ensures s.drivers.Keys <= PumpOver(s, active, available).drivers.Keys
    decreases |active|
  {
    if active != [] && available > 0 {
      if Idle(s, active[0]) { PumpOverRows(Schedule(s, active[0]), active[1..], available - 1); }
      else { PumpOverRows(s, active[1..], available); }
    }
  }

  /** The pump serves runs in claim order: it schedules none behind a run that it leaves idle. */
  lemma {:induction false} PumpInClaimOrder(s: State, active: seq<RunId>, available: nat, i: nat, j: nat)
    requires Distinct(active) && i < j < |active| && Idle(PumpOver(s, active, available), active[i])
    ensures active[j] in PumpOver(s, active, available).drivers ==> active[j] in s.drivers
    decreases |active|
  {
    if available > 0 {
      var next := if Idle(s, active[0]) then Schedule(s, active[0]) else s;
      var left := if Idle(s, active[0]) then available - 1 else available;
      PumpOverRows(next, active[1..], left);
      if i > 0 { PumpInClaimOrder(next, active[1..], left, i - 1, j - 1); }
    }
  }

  /** A new process forgets the old one: its start interrupts exactly the runs that were running, and it
      schedules queued runs as far as there are slots. */
  lemma RestartRecovers(s: State, l: Limits)
    requires ValidLimits(l) && Inv(s, l) && |WithStatus(s.rows, {Queued})| <= l.maxRows
    ensures var t := Next(Next(s, l, Restart), l, Start(true));
      && t.started && !t.closing && t.services == {} && t.rows.Keys == s.rows.Keys && t.order == s.order
      && (forall id | id in s.rows ::
            t.rows[id] == if s.rows[id].status == Running then Row(s.rows[id].suite, Interrupted) else s.rows[id])
      && (|t.drivers| == l.maxActive || t.drivers.Keys == WithStatus(s.rows, {Queued}))
      && t.drivers.Keys <= WithStatus(s.rows, {Queued}) && |t.drivers| <= l.maxActive
  {
    hide Linked, Phased, Bounded, Awake, Pump;
    var renewed := Next(s, l, Restart);
    StepKeeps(s, l, Restart);
    StartMeans(renewed, l);
    StepKeeps(renewed, l, Start(true));
    var t := Next(renewed, l, Start(true));
    FilledSlots(s, t, l);
  }

  lemma FilledSlots(s: State, t: State, l: Limits)
    requires Linked(t) && t.rows.Keys == s.rows.Keys
    requires forall id | id in s.rows ::
      t.rows[id] == if s.rows[id].status == Running then s.rows[id].(status := Interrupted) else s.rows[id]
    requires forall id | id in t.drivers :: Has(t, id, Queued)
    requires Occupancy(t) <= l.maxActive
    requires Occupancy(t) == l.maxActive || forall id | id in t.rows :: !Idle(t, id)
    ensures |t.drivers| == l.maxActive || t.drivers.Keys == WithStatus(s.rows, {Queued})
    ensures t.drivers.Keys <= WithStatus(s.rows, {Queued}) && |t.drivers| <= l.maxActive
  {
    hide Linked, Occupancy, Busy;
    OccupancyMeans(t);
    DriversOfQueued(s, t);
    if Occupancy(t) != l.maxActive {
      forall id | id in WithStatus(s.rows, {Queued}) ensures id in t.drivers { assert !Idle(t, id); }
    }
  }

  lemma DriversOfQueued(s: State, t: State)
    requires Linked(t) && t.rows.Keys == s.rows.Keys && forall id | id in t.drivers :: Has(t, id, Queued)
    requires forall id | id in s.rows ::
      t.rows[id] == if s.rows[id].status == Running then s.rows[id].(status := Interrupted) else s.rows[id]
    ensures Busy(t.rows, t.drivers) == t.drivers.Keys <= WithStatus(s.rows, {Queued})
    ensures |t.drivers| == |t.drivers.Keys|
  {
    hide Linked;
  }

  /** A start that is not refused. */
  lemma StartMeans(s: State, l: Limits)
    requires ValidLimits(l) && Inv(s, l) && !s.started && !s.closing && !s.disposed
    ensures var t := AfterStart(s, l, true);
      && (t.started <==> |WithStatus(s.rows, {Queued})| <= l.maxRows)
      && t.closing == s.closing && t.services == s.services == {} && t.order == s.order && t.rows.Keys == s.rows.Keys
      && (forall id | id in s.rows ::
            t.rows[id] == if s.rows[id].status == Running then s.rows[id].(status := Interrupted) else s.rows[id])
      && (forall id | id in t.drivers :: Has(t, id, Queued))
      && (t.started ==>
            Occupancy(t) <= l.maxActive
            && (Occupancy(t) == l.maxActive || forall id | id in t.rows :: !Idle(t, id)))
  {
    hide Bounded, Awake, Pump, Occupancy, ActiveIds;
    assert s.drivers == map[] && s.services == {} by {
      assert forall id :: id !in s.drivers;
    }
    var recovered := s.(rows := Interrupt(s.rows));
    assert recovered.rows.Keys == s.rows.Keys;
    assert Linked(recovered);
    ActiveMeans(recovered);
    assert WithStatus(recovered.rows, {Queued, Running}) == WithStatus(s.rows, {Queued});
    if |ActiveIds(recovered)| <= l.maxRows {
      var u := recovered.(started := true);
      StartBounded(u, l);
      ActiveMonotone(recovered, u);
      StartCore(u, l);
      PumpKeeps(u, l);
      WithinBounds(Pump(u, l), l);
    }
  }

  lemma WithinBounds(s: State, l: Limits)
    requires Bounded(s, l) && s.started
    ensures Occupancy(s) <= l.maxActive
  {
  }

  lemma StartCore(u: State, l: Limits)
    requires ValidLimits(l) && Linked(u) && u.drivers == map[] && Occupancy(u) == 0 && |ActiveIds(u)| <= l.maxRows
    requires forall id | id in u.rows :: u.rows[id].status != Running
    ensures Core(u, l)
  {
  }

  /** From the moment a shutdown begins, until the process ends, no run is admitted, cancelled, handed to a
      service or driven. */
  lemma ShutdownRefuses(s: State, l: Limits, e: Event)
    requires s.closing && Enabled(s, e) && e != Restart
    ensures var t := Next(s, l, e);
      && t.closing && t.rows.Keys == s.rows.Keys && t.drivers.Keys <= s.drivers.Keys && t.services <= s.services
      && forall id | id in s.rows ::
           t.rows[id].status == s.rows[id].status || s.rows[id].status == Running
               || (e.Drained? && t.rows[id].status == Failed)
  {
    hide ActiveIds;
  }

  /** A disposed process never starts. */
  lemma DisposedNeverStarts(s: State, l: Limits, e: Event)
    requires s.disposed && !s.started && Enabled(s, e) && e != Restart
    ensures Next(s, l, e).disposed && !Next(s, l, e).started && Next(s, l, e).rows.Keys == s.rows.Keys
    ensures Next(s, l, BeginShutdown).closing && (s.live == map[] ==> Next(s, l, Dispose).disposed)
  {
    hide ActiveIds, PumpOver;
    match e
    case Finish(t) => PumpRows(Released(s, t), l);
    case _ =>
  }

  // ----- Progress

  /** The steps that the drivers and their jobs take by themselves. */
  predicate DriverEvent(e: Event) {
    e.JobEnds? || e.Enter? || e.Drained? || e.Finish?
  }

  function StatusOf(s: State, id: RunId): Option<Status> {
    if id in s.rows then Some(s.rows[id].status) else None
  }

  function PhaseOf(s: State, id: RunId): Option<Phase> {
    if id in s.drivers && s.drivers[id] in s.live then Some(s.live[s.drivers[id]].phase) else None
  }

  /** How many driver steps a run can still cause. */
  function Cost(status: Option<Status>, phase: Option<Phase>, closing: bool): int {
    (if status == Some(Running) then 1 else 0)
    + match phase
      case None => if status == Some(Queued) && !closing then 5 else 0
      case Some(Waiting) => 4
      case Some(Draining) => 2
      case Some(Finishing) => 1
  }

  function Remaining(s: State): RunId -> int {
    (id: RunId) => Cost(StatusOf(s, id), PhaseOf(s, id), s.closing)
  }

  function Work(s: State): int {
    Sum(s.order, Remaining(s))
  }

  /** The event touched one task and that task's run only. */
  ghost predicate TaskStep(s: State, u: State, t: TaskId) {
    && t in s.live && u.order == s.order && u.drivers == s.drivers && u.closing == s.closing
    && t in u.live && u.live.Keys == s.live.Keys
    && (forall k | k in s.live && k != t :: u.live[k] == s.live[k])
    && (forall r | r != s.live[t].run :: StatusOf(u, r) == StatusOf(s, r))
  }

  lemma TaskStepWorks(s: State, u: State, t: TaskId)
    requires Linked(s) && TaskStep(s, u, t)
    requires var id := s.live[t].run;
             Cost(StatusOf(u, id), Some(u.live[t].phase), u.closing)
             < Cost(StatusOf(s, id), Some(s.live[t].phase), s.closing)
    ensures Work(u) < Work(s)
  {
    var id := s.live[t].run;
    LinkedOrder(s);
    assert PhaseOf(s, id) == Some(s.live[t].phase) && PhaseOf(u, id) == Some(u.live[t].phase);
    forall r | r in s.order && r != id ensures PhaseOf(u, r) == PhaseOf(s, r) {
      assert r in s.drivers ==> s.drivers[r] != t;
    }
    hide Linked, TaskStep, Cost, StatusOf, PhaseOf;
    SumMonotone(s.order, Remaining(u), Remaining(s));
  }

  lemma EnterShape(s: State, t: TaskId, outcome: ClaimOutcome)
    requires t in s.live && s.live[t].run in s.rows
    ensures var u := AfterEnter(s, t, outcome);
            && TaskStep(s, u, t)
            && (u.live[t].phase == Draining ==> StatusOf(u, s.live[t].run) == Some(Running))
            && (u.live[t].phase != Draining ==> u.live[t].phase == Finishing)
            && (StatusOf(u, s.live[t].run) == Some(Running) ==>
                u.live[t].phase == Draining || StatusOf(s, s.live[t].run) == Some(Running))
  {
  }

  lemma EnterWorks(s: State, l: Limits, t: TaskId, outcome: ClaimOutcome)
    requires Inv(s, l) && Enabled(s, Enter(t, outcome))
    ensures Work(AfterEnter(s, t, outcome)) < Work(s)
  {
    NotRunning(s, t);
    LinkedOrder(s);
    assert s.live[t].run in s.rows;
    EnterShape(s, t, outcome);
    hide Linked, Phased, Bounded, Awake, TaskStep, AfterEnter, Work;
    TaskStepWorks(s, AfterEnter(s, t, outcome), t);
  }

  lemma DrainedWorks(s: State, l: Limits, t: TaskId)
    requires Inv(s, l) && Enabled(s, Drained(t))
    ensures Work(AfterDrained(s, t)) < Work(s)
  {
    hide Linked, Phased, Bounded, Awake;
    TaskStepWorks(s, AfterDrained(s, t), t);
  }

  lemma JobWorks(s: State, l: Limits, id: RunId, status: Status)
    requires Inv(s, l) && Enabled(s, JobEnds(id, status))
    ensures Work(SetStatus(s, id, status)) < Work(s)
  {
    var t := s.drivers[id];
    assert s.live[t].run == id;
    hide Linked, Phased, Bounded, Awake;
    TaskStepWorks(s, SetStatus(s, id, status), t);
  }

  lemma ReleaseShape(s: State, t: TaskId)
    requires Linked(s) && t in s.live
    ensures var id := s.live[t].run; var u := Released(s, t);
            && u.order == s.order && u.closing == s.closing
            && id in s.order && PhaseOf(s, id) == Some(s.live[t].phase) && PhaseOf(u, id) == None
            && (forall r | r in s.order && r != id :: PhaseOf(u, r) == PhaseOf(s, r))
            && (forall r | r in s.order :: StatusOf(u, r) == StatusOf(s, r))
  {
    var id := s.live[t].run;
    LinkedOrder(s);
    forall r | r in s.order && r != id ensures PhaseOf(Released(s, t), r) == PhaseOf(s, r) {
      assert r in s.drivers ==> s.drivers[r] != t;
    }
  }

  lemma ReleaseWorks(s: State, t: TaskId)
    requires Linked(s) && t in s.live && s.live[t].phase == Finishing
    requires StatusOf(s, s.live[t].run) != Some(Running) && (s.closing || StatusOf(s, s.live[t].run) != Some(Queued))
    ensures Work(Released(s, t)) < Work(s)
  {
    ReleaseShape(s, t);
    hide Linked, StatusOf, PhaseOf, Released;
    SumMonotone(s.order, Remaining(Released(s, t)), Remaining(s));
  }

  lemma PumpWorks(s: State, t: State)
    requires Pumped(s, t) && Linked(s) && (s.closing ==> t == s)
    ensures Work(t) <= Work(s)
  {
    forall r | r in s.order ensures Remaining(t)(r) <= Remaining(s)(r) {
      if r in t.drivers && r !in s.drivers { assert HasPhase(t, r, Waiting); }
    }
    SumMonotone(s.order, Remaining(t), Remaining(s));
  }

  lemma FinishWorks(s: State, l: Limits, t: TaskId)
    requires ValidLimits(l) && Inv(s, l) && Enabled(s, Finish(t))
    ensures Work(AfterFinish(s, l, t)) < Work(s)
    ensures AfterFinish(s, l, t).started == s.started && AfterFinish(s, l, t).closing == s.closing
  {
    NotRunning(s, t);
    assert s.closing || !Has(s, s.live[t].run, Queued);
    ReleaseWorks(s, t);
    ReleaseLinked(s, t);
    ReleaseBounded(s, l, t);
    hide Linked, Phased, Bounded, Awake, Pump, Work;
    PumpKeeps(Released(s, t), l);
    PumpWorks(Released(s, t), AfterFinish(s, l, t));
  }

  /** Each driver step uses up work. */
  lemma DriverStepWorks(s: State, l: Limits, e: Event)
    requires ValidLimits(l) && Inv(s, l) && Enabled(s, e) && DriverEvent(e)
    ensures Work(Next(s, l, e)) < Work(s) && Next(s, l, e).started == s.started && Next(s, l, e).closing == s.closing
  {
    hide Linked, Phased, Bounded, Awake, Pump, Work, AfterFinish;
    match e
    case JobEnds(id, status) => JobWorks(s, l, id, status);
    case Enter(t, outcome) => EnterWorks(s, l, t, outcome);
    case Drained(t) => DrainedWorks(s, l, t);
    case Finish(t) => FinishWorks(s, l, t);
  }

  lemma WorkNonNegative(s: State)
    ensures Work(s) >= 0
  {
    var zero := (r: RunId) => 0;
    SumMonotone(s.order, zero, Remaining(s));
    ZeroSum(s.order, zero);
  }

  lemma {:induction false} DriversTerminate(s: State, l: Limits, events: seq<Event>)
    requires ValidLimits(l) && Inv(s, l) && Possible(s, l, events) && forall e | e in events :: DriverEvent(e)
    ensures |events| <= Work(s) - Work(Exec(s, l, events))
    ensures Exec(s, l, events).started == s.started && Exec(s, l, events).closing == s.closing
    decreases |events|
  {
    if events != [] {
      assert events[0] in events;
      assert forall e | e in events[1..] :: e in events;
      StepKeeps(s, l, events[0]);
      DriverStepWorks(s, l, events[0]);
      DriversTerminate(Next(s, l, events[0]), l, events[1..]);
    }
  }

  /** With drivers left to run, the queue empties: from any reachable accepting state the drivers take
      only boundedly many steps, and they stop exactly when no run is queued or running. */
  lemma QueueDrains(s: State, l: Limits, events: seq<Event>)
    requires ValidLimits(l) && Inv(s, l) && Accepting(s)
    requires Possible(s, l, events) && forall e | e in events :: DriverEvent(e)
    ensures |events| <= Work(s)
    ensures var t := Exec(s, l, events);
            (forall e | DriverEvent(e) :: !Enabled(t, e)) ==> t.live == map[] && forall id :: !IsActive(t, id)
  {
    DriversTerminate(s, l, events);
    RunsKeep(s, l, events);
    hide Inv, Work;
    var t := Exec(s, l, events);
    WorkNonNegative(t);
    if forall e | DriverEvent(e) :: !Enabled(t, e) {
      Stuck(t);
      forall id ensures !IsActive(t, id) { NobodyActive(t, l, id); }
    }
  }

  lemma Stuck(s: State)
    requires forall e | DriverEvent(e) :: !Enabled(s, e)
    ensures s.live == map[]
  {
    forall k ensures k !in s.live {
      assert !Enabled(s, Enter(k, Claimed)) && !Enabled(s, Drained(k)) && !Enabled(s, Finish(k));
    }
  }

  lemma NobodyActive(s: State, l: Limits, id: RunId)
    requires Inv(s, l) && Accepting(s) && s.live == map[]
    ensures !IsActive(s, id)
  {
    assert id in s.rows && s.rows[id].status == Running ==> HasPhase(s, id, Draining);
    assert Has(s, id, Queued) ==> Idle(s, id);
  }
}
