/** The owned-namespace protocol: one authenticated receipt, one process lock, one remote namespace,
    under provider failures, crashes and power losses at any point. A receipt call is the sequence of
    renames and directory syncs that it performs; it can stop after any of them. */
module OwnedTiny {
  import opened Collections

  type Namespace = string

  datatype State = Intent | CreatedState | Ready | CleanupRequested | NotFoundVerified

  /** What the protocol depends on in a receipt. */
  datatype Claim = Claim(namespace: Namespace, state: State)

  predicate Allowed(from: State, to: State) {
    match from
    case Intent => to == CreatedState || to == CleanupRequested
    case CreatedState => to == Ready || to == CleanupRequested
    case Ready => to == CleanupRequested
    case CleanupRequested => to == NotFoundVerified
    case NotFoundVerified => false
  }

  function Stage(state: State): nat {
    match state
    case Intent => 0
    case CreatedState => 1
    case Ready => 2
    case CleanupRequested => 3
    case NotFoundVerified => 4
  }

  /** The lifecycle advances one stage at a time, but cleanup may be requested at any stage before it. */
  lemma AllowedAdvances(from: State, to: State)
    ensures Allowed(from, to) <==>
            Stage(to) == Stage(from) + 1 || (to == CleanupRequested && Stage(from) < Stage(to))
  {
  }

  /** How far the current receipt call got. */
  datatype Phase =
    | Calm                        // no call is under way
    | Published(next: Claim)      // renamed to the unbound fixed name, not yet synced
    | Exchanged(next: Claim)      // swapped with the prior receipt, not yet synced
    | Undoing(next: Claim)        // the exchange was not verified, or the prior receipt not dropped
    | Restoring(next: Claim)      // the restore has moved the fixed name away; not yet synced
    | Removing                    // the terminal receipt was moved away; not yet synced
    | Stopped                     // the call failed, or the receipt is removed

  /** What the process that holds the account lock knows; `snapshot` is the receipt it last read or
      durably wrote. */
  datatype Session =
    | Closed
    | Open(phase: Phase, snapshot: Option<Claim>, ready: bool, absent: bool)

  /** `live` is the fixed receipt, `may` what a power loss can leave there, `present` the remote
      namespaces that hold data, `everReady` those that once passed an exact readiness check. */
  datatype World = World(
    live: Option<Claim>,
    may: set<Option<Claim>>,
    present: set<Namespace>,
    everReady: set<Namespace>,
    session: Session)

  predicate Init(w: World) {
    w == World(None, {None}, {}, {}, Closed)
  }

  predicate Holding(w: World, r: Claim) {
    w.session.Open? && w.session.phase.Calm? && w.session.snapshot == Some(r)
  }

  // ----- Renames and syncs of a receipt call

  /** One rename turns the fixed name to `value`; until a sync, a power loss may undo it. */
  function Turned(w: World, value: Option<Claim>, phase: Phase): World
    requires w.session.Open?
  {
    w.(live := value, may := w.may + {value}, session := w.session.(phase := phase))
  }

  /** One directory sync leaves only the current value. */
  function Synced(w: World, phase: Phase, snapshot: Option<Claim>): World
    requires w.session.Open?
  {
    w.(may := {w.live}, session := w.session.(phase := phase, snapshot := snapshot))
  }

  function WithPhase(w: World, phase: Phase): World
    requires w.session.Open?
  {
    w.(session := w.session.(phase := phase))
  }

  predicate InPhase(w: World, phase: Phase) {
    w.session.Open? && w.session.phase == phase
  }

  predicate Publish(w: World, w': World, r: Claim) {
    w.session == Open(Calm, None, false, false) && r.state == Intent && w' == Turned(w, Some(r), Published(r))
  }

  predicate Exchange(w: World, w': World, r: Claim, to: State) {
    && Holding(w, r) && Allowed(r.state, to)
    && (to == Ready ==> w.session.ready)
    && (to == NotFoundVerified ==> w.session.absent)
    && w' == Turned(w, Some(r.(state := to)), Exchanged(r.(state := to)))
  }

  /** The sync that ends a successful creation or transition. */
  predicate Commit(w: World, w': World, next: Claim) {
    (InPhase(w, Published(next)) || InPhase(w, Exchanged(next))) && w' == Synced(w, Calm, Some(next))
  }

  /** Reading back the exchange, or unlinking the prior receipt, failed. */
  predicate Doubt(w: World, w': World, next: Claim) {
    InPhase(w, Exchanged(next)) && w' == WithPhase(w, Undoing(next))
  }

  /** The first rename of the restore. It leaves the fixed name unbound. */
  predicate Unbind(w: World, w': World, next: Claim) {
    InPhase(w, Undoing(next)) && w' == Turned(w, None, Restoring(next))
  }

  /** The second rename of the restore: the prior receipt goes back, or what the first one moved does. */
  predicate Rebind(w: World, w': World, next: Claim, value: Option<Claim>) {
    InPhase(w, Restoring(next)) && w.live == None && value in {w.session.snapshot, Some(next)}
    && w' == Turned(w, value, Restoring(next))
  }

  /** The sync that ends a successful restore. */
  predicate Restored(w: World, w': World, next: Claim) {
    InPhase(w, Restoring(next)) && w.live == w.session.snapshot && w' == Synced(w, Stopped, w.session.snapshot)
  }

  predicate TakeAway(w: World, w': World, r: Claim) {
    Holding(w, r) && r.state == NotFoundVerified && w' == Turned(w, None, Removing)
  }

  /** What was taken away turned out wrong, and goes back. */
  predicate PutBack(w: World, w': World) {
    InPhase(w, Removing) && w.live == None && w' == Turned(w, w.session.snapshot, Removing)
  }

  /** The sync that ends a removal, or its undoing. */
  predicate Removed(w: World, w': World) {
    InPhase(w, Removing) && w' == Synced(w, Stopped, w.session.snapshot)
  }

  /** The call fails where it is. */
  predicate Fail(w: World, w': World) {
    w.session.Open? && w' == WithPhase(w, Stopped)
  }

  // ----- The rest of a command

  /** Take the lock, sync the directory, read the receipt. */
  predicate Begin(w: World, w': World) {
    && w.session.Closed?
    && w' == w.(may := {w.live}, session := Open(Calm, w.live, false, false))
  }

  /** A remote write, confirmed or not; it may have taken effect either way. */
  predicate Write(w: World, w': World, r: Claim) {
    && Holding(w, r) && r.state in {Intent, CreatedState, Ready}
    && (w' == w || w' == w.(present := w.present + {r.namespace}))
  }

  /** An exact readiness check passes. */
  predicate Inspect(w: World, w': World, r: Claim) {
    && Holding(w, r) && r.state in {Intent, CreatedState, Ready}
    && w' == w.(everReady := w.everReady + {r.namespace}, session := w.session.(ready := true))
  }

  /** A remote deletion, confirmed or not. */
  predicate Delete(w: World, w': World, r: Claim) {
    && Holding(w, r) && r.state == CleanupRequested
    && (w' == w || w' == w.(present := w.present - {r.namespace}))
  }

  /** The provider reports NOT_FOUND for the namespace. */
  predicate Probe(w: World, w': World, r: Claim) {
    && Holding(w, r) && r.state == CleanupRequested
    && r.namespace !in w.present
    && w' == w.(session := w.session.(absent := true))
  }

  /** The process ends or dies; the lock goes with it. */
  predicate End(w: World, w': World) {
    w' == w.(session := Closed)
  }

  predicate PowerFails(w: World, w': World) {
    w'.live in w.may && w' == w.(live := w'.live, may := {w'.live}, session := Closed)
  }

  /** A rename or sync of a creation or a replacement, other than the first rename of a restore. */
  ghost predicate ReplaceStep(w: World, w': World) {
    || (exists r :: Publish(w, w', r))
    || (exists r, to :: Exchange(w, w', r, to))
    || (exists next :: Commit(w, w', next))
    || (exists next :: Doubt(w, w', next))
    || (exists next, value :: Rebind(w, w', next, value))
    || (exists next :: Restored(w, w', next))
  }

  ghost predicate RemoveStep(w: World, w': World) {
    (exists r :: TakeAway(w, w', r)) || PutBack(w, w') || Removed(w, w') || Fail(w, w')
  }

  ghost predicate RemoteStep(w: World, w': World) {
    || (exists r :: Write(w, w', r))
    || (exists r :: Inspect(w, w', r))
    || (exists r :: Delete(w, w', r))
    || (exists r :: Probe(w, w', r))
  }

  ghost predicate Step(w: World, w': World) {
    Begin(w, w') || End(w, w') || PowerFails(w, w') || ReplaceStep(w, w') || RemoveStep(w, w') || RemoteStep(w, w')
  }

  ghost predicate UnbindStep(w: World, w': World) {
    exists next :: Unbind(w, w', next)
  }

  ghost predicate Run(run: seq<World>) {
    && run != [] && Init(run[0])
    && forall i {:trigger run[i]} | 0 < i < |run| :: Step(run[i - 1], run[i]) || UnbindStep(run[i - 1], run[i])
  }

  // ----- Safety

  predicate Covers(value: Option<Claim>, namespace: Namespace) {
    value.Some? && value.value.namespace == namespace && value.value.state != NotFoundVerified
  }

  /** No orphan: whatever a power loss leaves, every namespace with data is named by the fixed receipt
      and that receipt is not terminal. */
  predicate NoOrphan(w: World) {
    forall n, v | n in w.present && v in w.may :: Covers(v, n)
  }

  /** READY is only ever claimed of a namespace that passed an exact readiness check. */
  predicate ReadyChecked(w: World) {
    forall v | v in w.may && v.Some? && v.value.state == Ready :: v.value.namespace in w.everReady
  }

  /** What the calls of the lock holder have left at the fixed name. */
  predicate PhaseSound(w: World)
    requires w.session.Open?
  {
    var snapshot := w.session.snapshot;
    match w.session.phase
    case Calm => w.live == snapshot && w.may == {snapshot}
    case Published(next) => snapshot == None && w.live == Some(next) && w.may == {None, Some(next)}
    case Exchanged(next) => Replacing(snapshot, next) && w.live == Some(next) && w.may == {snapshot, Some(next)}
    case Undoing(next) => Replacing(snapshot, next) && w.live == Some(next) && w.may == {snapshot, Some(next)}
    case Restoring(next) => Replacing(snapshot, next) && w.may == {snapshot, Some(next), None}
    case Removing => snapshot.Some? && w.may == {snapshot, None}
    case Stopped => true
  }

  predicate Replacing(snapshot: Option<Claim>, next: Claim) {
    snapshot.Some? && Allowed(snapshot.value.state, next.state) && next == snapshot.value.(state := next.state)
  }

  /** The fixed receipt is among the recoverable ones, and what the lock holder believes is true. */
  predicate SessionSound(w: World) {
    w.live in w.may &&
    (w.session.Open? ==>
      && PhaseSound(w)
      && (w.session.ready ==> w.session.snapshot.Some? && w.session.snapshot.value.namespace in w.everReady)
      && (w.session.absent ==> w.session.snapshot.Some? && w.session.snapshot.value.namespace !in w.present
                               && w.session.snapshot.value.state in {CleanupRequested, NotFoundVerified}))
  }

  predicate Inv(w: World) {
    NoOrphan(w) && ReadyChecked(w) && SessionSound(w)
  }

  lemma StepKeepsSound(w: World, w': World)
    requires ReadyChecked(w) && SessionSound(w) && (Step(w, w') || UnbindStep(w, w'))
    ensures ReadyChecked(w') && SessionSound(w')
  {
    hide ReplaceStep, RemoveStep, RemoteStep;
    if ReplaceStep(w, w') { ReplaceKeepsSound(w, w'); }
    if RemoveStep(w, w') { RemoveKeepsSound(w, w'); }
    if RemoteStep(w, w') { RemoteKeepsSound(w, w'); }
  }

  lemma RemoveKeepsSound(w: World, w': World)
    requires ReadyChecked(w) && SessionSound(w) && RemoveStep(w, w')
    ensures ReadyChecked(w') && SessionSound(w')
  {
  }

  lemma RemoteKeepsSound(w: World, w': World)
    requires ReadyChecked(w) && SessionSound(w) && RemoteStep(w, w')
    ensures ReadyChecked(w') && SessionSound(w')
  {
  }

  lemma ExchangeKeepsSound(w: World, w': World, r: Claim, to: State)
    requires ReadyChecked(w) && SessionSound(w) && Exchange(w, w', r, to)
    ensures ReadyChecked(w') && SessionSound(w')
  {
    assert Replacing(Some(r), r.(state := to));
  }

  lemma CommitKeepsSound(w: World, w': World, next: Claim)
    requires ReadyChecked(w) && SessionSound(w) && Commit(w, w', next)
    ensures ReadyChecked(w') && SessionSound(w')
  {
  }

  lemma ReplaceKeepsSound(w: World, w': World)
    requires ReadyChecked(w) && SessionSound(w) && ReplaceStep(w, w')
    ensures ReadyChecked(w') && SessionSound(w')
  {
    hide Exchange, Commit;
    if exists r, to :: Exchange(w, w', r, to) {
      var r, to :| Exchange(w, w', r, to);
      ExchangeKeepsSound(w, w', r, to);
    } else if exists next :: Commit(w, w', next) {
      var next :| Commit(w, w', next);
      CommitKeepsSound(w, w', next);
    }
  }

  lemma StepKeepsNoOrphan(w: World, w': World)
    requires NoOrphan(w) && SessionSound(w) && Step(w, w')
    ensures NoOrphan(w')
  {
    hide RemoteStep;
    if RemoteStep(w, w') { RemoteKeepsNoOrphan(w, w'); }
  }

  lemma RemoteKeepsNoOrphan(w: World, w': World)
    requires NoOrphan(w) && SessionSound(w) && RemoteStep(w, w')
    ensures NoOrphan(w')
  {
  }

  /** The first rename of a restore breaks safety exactly when a namespace holds data. */
  lemma UnbindOrphansExactly(w: World, w': World)
    requires NoOrphan(w) && UnbindStep(w, w')
    ensures NoOrphan(w') <==> w.present == {}
  {
    if w.present != {} {
      var n :| n in w.present;
      assert None in w'.may && !Covers(None, n);
    }
  }

  /** In the first `n` worlds, no restore renamed the fixed name away while a namespace held data. */
  ghost predicate RestoresHarmless(run: seq<World>, n: nat) {
    forall i {:trigger run[i]} | 0 < i < |run| && i < n && UnbindStep(run[i - 1], run[i]) :: run[i - 1].present == {}
  }

  lemma {:induction false} PrefixSafe(run: seq<World>, n: nat)
    requires Run(run) && 0 < n <= |run| && RestoresHarmless(run, n)
    ensures forall i | 0 <= i < n :: Inv(run[i])
  {
    hide Step, UnbindStep, NoOrphan, ReadyChecked, SessionSound;
    if n == 1 {
      InitSound(run[0]);
    } else {
      PrefixSafe(run, n - 1);
      var w, w' := run[n - 2], run[n - 1];
      if UnbindStep(w, w') {
        UnbindOrphansExactly(w, w');
      } else {
        StepKeepsNoOrphan(w, w');
      }
      StepKeepsSound(w, w');
    }
  }

  /** Over every run: no namespace is ever orphaned, by crash or power loss at any point, if and only
      if no restore ever makes its first rename while a namespace holds data. */
  lemma NoOrphanOverRuns(run: seq<World>)
    requires Run(run)
    ensures RestoresHarmless(run, |run|) <==> forall i | 0 <= i < |run| :: NoOrphan(run[i])
  {
    if RestoresHarmless(run, |run|) {
      PrefixSafe(run, |run|);
    } else {
      FirstHarmful(run, |run|);
    }
  }

  lemma {:induction false} FirstHarmful(run: seq<World>, n: nat)
    requires Run(run) && n <= |run| && !RestoresHarmless(run, n)
    ensures exists i | 0 < i < n ::
              UnbindStep(run[i - 1], run[i]) && run[i - 1].present != {} && !NoOrphan(run[i])
  {
    if n > 0 {
      if RestoresHarmless(run, n - 1) {
        PrefixSafe(run, n - 1);
        UnbindOrphansExactly(run[n - 2], run[n - 1]);
      } else {
        FirstHarmful(run, n - 1);
      }
    }
  }

  lemma InitSound(w: World)
    requires Init(w)
    ensures Inv(w)
  {
  }

  /** Over every run, harmful restores included, a READY receipt is backed by an exact readiness check. */
  lemma {:induction false} ReadyOverRuns(run: seq<World>, n: nat)
    requires Run(run) && 0 < n <= |run|
    ensures forall i | 0 <= i < n :: ReadyChecked(run[i]) && SessionSound(run[i])
  {
    hide Step, UnbindStep, ReadyChecked, SessionSound;
    if n == 1 {
      InitSound(run[0]);
    } else {
      ReadyOverRuns(run, n - 1);
      StepKeepsSound(run[n - 2], run[n - 1]);
    }
  }

  /** The receipt disappears, or turns terminal, only once its namespace is gone; and there is never
      more than one generated namespace. */
  lemma RemovalOverRuns(run: seq<World>)
    requires Run(run) && RestoresHarmless(run, |run|)
    ensures forall i | 0 <= i < |run| && None in run[i].may :: run[i].present == {}
    ensures forall i, r | 0 <= i < |run| && Some(r) in run[i].may && r.state == NotFoundVerified :: run[i].present == {}
    ensures forall i | 0 <= i < |run| :: |run[i].present| <= 1
  {
    PrefixSafe(run, |run|);
    forall i | 0 <= i < |run|
      ensures None in run[i].may ==> run[i].present == {}
      ensures forall r | Some(r) in run[i].may && r.state == NotFoundVerified :: run[i].present == {}
      ensures |run[i].present| <= 1
    {
      var w := run[i];
      if w.present != {} {
        var n :| n in w.present;
        assert forall v | v in w.may :: Covers(v, n);
        assert forall m | m in w.present :: Covers(w.live, m);
        assert w.present == {n};
      }
    }
  }

  lemma RunExtends(run: seq<World>, w: World)
    requires Run(run) && (Step(run[|run| - 1], w) || UnbindStep(run[|run| - 1], w))
    ensures Run(run + [w])
  {
  }

  /** A first creation, from a world without receipt and data of its own, and a write. */
  lemma CreateAndWrite(run: seq<World>, r: Claim) returns (longer: seq<World>)
    requires Run(run) && run[|run| - 1].session.Closed? && run[|run| - 1].live == None && r.state == Intent
    ensures Run(longer) && longer[|longer| - 1] ==
              World(Some(r), {Some(r)}, run[|run| - 1].present + {r.namespace}, run[|run| - 1].everReady,
                  Open(Calm, Some(r), false, false))
  {
    var w := run[|run| - 1];
    var w1 := World(None, {None}, w.present, w.everReady, Open(Calm, None, false, false));
    var w2 := World(Some(r), {None, Some(r)}, w.present, w.everReady, Open(Published(r), None, false, false));
    var w3 := World(Some(r), {Some(r)}, w.present, w.everReady, Open(Calm, Some(r), false, false));
    var w4 := w3.(present := w3.present + {r.namespace});
    assert Begin(w, w1) && Publish(w1, w2, r) && Commit(w2, w3, r) && Write(w3, w4, r);
    longer := run;
    RunExtends(longer, w1); longer := longer + [w1];
    RunExtends(longer, w2); longer := longer + [w2];
    RunExtends(longer, w3); longer := longer + [w3];
    RunExtends(longer, w4); longer := longer + [w4];
  }

  /** The failing family is real: confirm a write, lose the process between the two renames of the
      restore, and the next ingestion makes a second namespace while nothing names the first. */
  lemma InterruptedRestoreOrphans(a: Namespace, b: Namespace)
    requires a != b
    ensures exists run: seq<World> ::
              Run(run) && run[|run| - 1].present == {a, b} && run[|run| - 1].live == Some(Claim(b, Intent))
  {
    var ra, next := Claim(a, Intent), Claim(a, CreatedState);
    var run := CreateAndWrite([World(None, {None}, {}, {}, Closed)], ra);
    var w := run[|run| - 1];
    var w1 := World(Some(next), {Some(ra), Some(next)}, {a}, {}, Open(Exchanged(next), Some(ra), false, false));
    var w2 := w1.(session := w1.session.(phase := Undoing(next)));
    var w3 := World(None, {Some(ra), Some(next), None}, {a}, {}, Open(Restoring(next), Some(ra), false, false));
    var w4 := w3.(session := Closed);
    assert Exchange(w, w1, ra, CreatedState) && Doubt(w1, w2, next) && Unbind(w2, w3, next) && End(w3, w4);
    RunExtends(run, w1); run := run + [w1];
    RunExtends(run, w2); run := run + [w2];
    RunExtends(run, w3); run := run + [w3];
    RunExtends(run, w4); run := run + [w4];
    run := CreateAndWrite(run, Claim(b, Intent));
  }
}
