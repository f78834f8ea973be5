/** The receipt calls and the protocol together: every history of commands, crashes and power losses on
    the directory is a run of the protocol, and the protocol's safety is safety of the directory. */
module ReceiptHistory {
  import opened Collections
  import opened Disks
  import opened ReceiptStore
  import P = OwnedTiny

  ghost function ViewOf(c: Codec<P.Claim>, w: P.World): View {
    View({c.Raw(w.live)}, c.Raws(w.may))
  }

  /** The directory is as the protocol's world says; while a restore is under way it can be lost. */
  ghost predicate Shows(c: Codec<P.Claim>, d: Disk, w: P.World) {
    d.Within(ViewOf(c, w)) && (w.session.Open? && w.session.phase.Restoring? ==> d.Unbindable())
  }

  lemma Depicted(c: Codec<P.Claim>, d: Disk, view: View, w: P.World)
    requires d.Within(view) && Fixed(d) == c.Raw(w.live) && view.later <= c.Raws(w.may)
    requires w.session.Open? && w.session.phase.Restoring? ==> d.Unbindable()
    ensures Shows(c, d, w)
  {
    WithinNow(d, view);
    WithinWider(d, View({Fixed(d)}, view.later), ViewOf(c, w));
  }

  // ----- A history: the states of the directory, the run, and which world each state shows

  /** The first `n` states of `trace` show worlds of the run, in order, and every first rename of a
      restore is one of those states. */
  ghost predicate Depicts(c: Codec<P.Claim>, trace: seq<Disk>, n: nat, run: seq<P.World>, at: seq<nat>) {
    && run != [] && P.Run(run) && |at| == n <= |trace|
    && (forall k | 0 <= k < n :: at[k] < |run| && Shows(c, trace[k], run[at[k]]))
    && (forall j, k | 0 <= j <= k < n :: at[j] <= at[k])
    && (forall i {:trigger run[i]} | 0 < i < |run| && P.UnbindStep(run[i - 1], run[i]) :: i in at)
  }

  /** More states and worlds, with no remote effect, and each new state showing a world from here on. */
  ghost predicate Continues(run: seq<P.World>, at: seq<nat>, run': seq<P.World>, at': seq<nat>)
    requires run != []
  {
    && run <= run' && at <= at'
    && (forall i | |run| <= i < |run'| :: run'[i].present == run[|run| - 1].present)
    && (forall k | |at| <= k < |at'| :: |run| - 1 <= at'[k])
  }

  /** The states from `n` up to `m` show the last world. */
  lemma Stay(c: Codec<P.Claim>, trace: seq<Disk>, n: nat, m: nat, run: seq<P.World>, at: seq<nat>)
    returns (at': seq<nat>)
    requires Depicts(c, trace, n, run, at) && n <= m <= |trace|
    requires forall k | n <= k < m :: Shows(c, trace[k], run[|run| - 1])
    ensures Continues(run, at, run, at') && Depicts(c, trace, m, run, at')
  {
    at' := at + seq(m - n, i => |run| - 1);
  }

  lemma Take(c: Codec<P.Claim>, trace: seq<Disk>, n: nat, run: seq<P.World>, at: seq<nat>, w: P.World)
    requires Depicts(c, trace, n, run, at) && P.Step(run[|run| - 1], w) && !P.UnbindStep(run[|run| - 1], w)
    ensures Depicts(c, trace, n, run + [w], at)
  {
    hide P.Step, P.UnbindStep, Shows;
    P.RunExtends(run, w);
  }

  lemma ContinuesOn(run: seq<P.World>, at: seq<nat>, run1: seq<P.World>, at1: seq<nat>, run2: seq<P.World>,
                    at2: seq<nat>)
    requires run != [] && Continues(run, at, run1, at1) && Continues(run1, at1, run2, at2)
    ensures Continues(run, at, run2, at2)
  {
    assert run1[|run1| - 1].present == run[|run| - 1].present;
  }

  /** A step without remote effect, shown by the states from `n` up to `m`. */
  lemma TakeAndStay(c: Codec<P.Claim>, trace: seq<Disk>, n: nat, m: nat, run: seq<P.World>, at: seq<nat>, w: P.World)
    returns (run': seq<P.World>, at': seq<nat>)
    requires Depicts(c, trace, n, run, at) && P.Step(run[|run| - 1], w) && n <= m <= |trace|
    requires run[|run| - 1].session.Open? && !run[|run| - 1].session.phase.Undoing?
               && w.present == run[|run| - 1].present
    requires forall k | n <= k < m :: Shows(c, trace[k], w)
    ensures run' == run + [w] && Continues(run, at, run', at') && Depicts(c, trace, m, run', at')
  {
    hide P.Step, P.UnbindStep, P.Run, Shows;
    OnlyUndoingUnbinds(run[|run| - 1], w);
    Take(c, trace, n, run, at, w);
    run' := run + [w];
    at' := Stay(c, trace, n, m, run', at);
  }

  /** A first rename of a restore, shown by the next state at least. */
  lemma TakeUnbind(c: Codec<P.Claim>, trace: seq<Disk>, n: nat, m: nat, run: seq<P.World>, at: seq<nat>, w: P.World)
    returns (at': seq<nat>)
    requires Depicts(c, trace, n, run, at) && P.UnbindStep(run[|run| - 1], w) && n < m <= |trace|
    requires forall k | n <= k < m :: Shows(c, trace[k], w)
    ensures w.present == run[|run| - 1].present ==> Continues(run, at, run + [w], at')
    ensures Depicts(c, trace, m, run + [w], at')
  {
    hide P.Step, P.UnbindStep, Shows;
    P.RunExtends(run, w);
    at' := at + seq(m - n, i => |run|);
    assert at'[n] == |run|;
  }

  lemma Longer(c: Codec<P.Claim>, trace: seq<Disk>, trace': seq<Disk>, run: seq<P.World>, at: seq<nat>)
    requires Depicts(c, trace, |trace|, run, at) && trace <= trace'
    ensures Depicts(c, trace', |trace|, run, at)
  {
    hide Shows;
  }

  lemma RunPrefix(run: seq<P.World>, n: nat)
    requires P.Run(run) && 0 < n <= |run|
    ensures P.Run(run[..n])
  {
    hide P.UnbindStep, P.Step;
    var shorter := run[..n];
    forall i {:trigger shorter[i]} | 0 < i < |shorter|
      ensures P.Step(shorter[i - 1], shorter[i]) || P.UnbindStep(shorter[i - 1], shorter[i])
    {
      assert shorter[i] == run[i] && shorter[i - 1] == run[i - 1];
    }
  }

  /** A history cut short is a history. */
  lemma Shorter(c: Codec<P.Claim>, trace: seq<Disk>, run: seq<P.World>, at: seq<nat>, k: nat)
    requires Depicts(c, trace, |trace|, run, at) && k < |trace|
    ensures Depicts(c, trace[..k + 1], k + 1, run[..at[k] + 1], at[..k + 1])
  {
    hide Shows, P.UnbindStep, P.Step, P.Run;
    RunPrefix(run, at[k] + 1);
    ShownPrefix(c, trace, run, at, k);
    UnbindsPrefix(run, at, k);
  }

  lemma ShownPrefix(c: Codec<P.Claim>, trace: seq<Disk>, run: seq<P.World>, at: seq<nat>, k: nat)
    requires k < |trace| == |at| && (forall j | 0 <= j < |at| :: at[j] < |run| && Shows(c, trace[j], run[at[j]]))
    requires forall i, j | 0 <= i <= j < |at| :: at[i] <= at[j]
    ensures var cut, shorter := at[..k + 1], run[..at[k] + 1];
            && (forall j | 0 <= j <= k :: cut[j] < |shorter| && Shows(c, trace[..k + 1][j], shorter[cut[j]]))
            && (forall i, j | 0 <= i <= j <= k :: cut[i] <= cut[j])
  {
    hide Shows;
    var cut, shorter := at[..k + 1], run[..at[k] + 1];
    forall j | 0 <= j <= k ensures cut[j] < |shorter| && Shows(c, trace[..k + 1][j], shorter[cut[j]]) {
      assert at[j] <= at[k] && cut[j] == at[j] && trace[..k + 1][j] == trace[j];
    }
  }

  lemma UnbindsPrefix(run: seq<P.World>, at: seq<nat>, k: nat)
    requires k < |at| && (forall j | 0 <= j < |at| :: at[j] < |run|)
               && (forall i, j | 0 <= i <= j < |at| :: at[i] <= at[j])
    requires forall i {:trigger run[i]} | 0 < i < |run| && P.UnbindStep(run[i - 1], run[i]) :: i in at
    ensures var cut, shorter := at[..k + 1], run[..at[k] + 1];
            forall i {:trigger shorter[i]} | 0 < i < |shorter| && P.UnbindStep(shorter[i - 1], shorter[i]) :: i in cut
  {
    hide P.UnbindStep;
    var cut, shorter := at[..k + 1], run[..at[k] + 1];
    forall i {:trigger shorter[i]} | 0 < i < |shorter| && P.UnbindStep(shorter[i - 1], shorter[i]) ensures i in cut {
      assert shorter[i] == run[i] && shorter[i - 1] == run[i - 1];
      var j :| 0 <= j < |at| && at[j] == i;
      assert j > k ==> at[k] <= at[j];
      assert cut[if j > k then k else j] == i;
    }
  }

  // ----- Safety of the directory

  /** Whatever a power loss at any point leaves in the directory, the next command reads there a receipt
      that names every namespace with data and is not terminal. */
  ghost predicate NothingOrphaned(c: Codec<P.Claim>, trace: seq<Disk>, run: seq<P.World>, at: seq<nat>)
    requires |at| == |trace| && forall k | 0 <= k < |at| :: at[k] < |run|
  {
    forall k, after, n | 0 <= k < |trace| && PowerLoss(trace[k], after) && n in run[at[k]].present ::
      P.Covers(c.Read(Fixed(after)), n)
  }

  lemma RecoversMay(c: Codec<P.Claim>, d: Disk, w: P.World, after: Disk)
    requires c.Faithful() && d.Valid() && Shows(c, d, w) && PowerLoss(d, after)
    ensures c.Read(Fixed(after)) in w.may && Fixed(after) == c.Raw(c.Read(Fixed(after)))
  {
    ReadsRecoverable(c, d, {c.Raw(w.live)}, w.may, after);
  }

  /** Over every history: no namespace is orphaned on the directory, by crash or power loss at any point,
      if and only if no restore ever makes its first rename while a namespace holds data. */
  lemma NothingOrphanedExactly(c: Codec<P.Claim>, trace: seq<Disk>, run: seq<P.World>, at: seq<nat>)
    requires c.Faithful() && Depicts(c, trace, |trace|, run, at) && forall d | d in trace :: d.Valid()
    ensures P.RestoresHarmless(run, |run|) <==> NothingOrphaned(c, trace, run, at)
  {
    hide P.Step, P.UnbindStep, P.Run, Shows, Disk.Valid, PowerLoss, Fixed;
    P.NoOrphanOverRuns(run);
    if P.RestoresHarmless(run, |run|) {
      forall k, after, n | 0 <= k < |trace| && PowerLoss(trace[k], after) && n in run[at[k]].present
        ensures P.Covers(c.Read(Fixed(after)), n)
      {
        RecoversMay(c, trace[k], run[at[k]], after);
        assert P.NoOrphan(run[at[k]]);
      }
    } else {
      HarmShows(c, trace, run, at);
    }
  }

  lemma HarmShows(c: Codec<P.Claim>, trace: seq<Disk>, run: seq<P.World>, at: seq<nat>)
    requires Depicts(c, trace, |trace|, run, at)
               && (forall d | d in trace :: d.Valid()) && !P.RestoresHarmless(run, |run|)
    ensures !NothingOrphaned(c, trace, run, at)
  {
    hide P.Step, P.Run, Disk.Valid, PowerLoss, Fixed, Disk.Within, Disk.Unbindable;
    P.FirstHarmful(run, |run|);
    var i :| 0 < i < |run| && P.UnbindStep(run[i - 1], run[i]) && run[i - 1].present != {};
    var k :| 0 <= k < |at| && at[k] == i;
    var n :| n in run[i].present;
    UnboundIsPowerLoss(trace[k]);
    var after :| PowerLoss(trace[k], after) && Fixed(after) == None;
    assert !P.Covers(c.Read(Fixed(after)), n);
  }

  // ----- One receipt call as steps of the run

  function Last(run: seq<P.World>): P.World
    requires run != []
  {
    run[|run| - 1]
  }

  lemma OnlyUndoingUnbinds(w: P.World, w': P.World)
    requires w.session.Open? ==> !w.session.phase.Undoing?
    ensures !P.UnbindStep(w, w')
  {
  }

  /** States that show what the world shows, with no more recoverable than it allows. */
  lemma RangeShows(c: Codec<P.Claim>, d: Directory, from: nat, to: nat, view: View, w: P.World)
    requires d.Ranges(from, to, view) && view.now <= {c.Raw(w.live)} && view.later <= c.Raws(w.may)
    requires w.session.Open? ==> !w.session.phase.Restoring?
    ensures forall k | from <= k < to && k < |d.trace| :: Shows(c, d.trace[k], w)
  {
    forall k | from <= k < to && k < |d.trace| ensures Shows(c, d.trace[k], w) {
      WithinWider(d.trace[k], view, ViewOf(c, w));
    }
  }

  /** The call stops here, its last state still showing the world it had reached. */
  lemma StopHere(c: Codec<P.Claim>, d: Directory, run: seq<P.World>, at: seq<nat>) returns (longer: seq<P.World>)
    requires Depicts(c, d.trace, |d.trace|, run, at) && Shows(c, d.disk, Last(run)) && Last(run).session.Open?
    ensures longer == run + [P.WithPhase(Last(run), P.Stopped)]
    ensures Continues(run, at, longer, at) && Depicts(c, d.trace, |d.trace|, longer, at)
              && Shows(c, d.disk, Last(longer))
  {
    var w := P.WithPhase(Last(run), P.Stopped);
    assert P.Fail(Last(run), w);
    assert !P.UnbindStep(Last(run), w);
    Take(c, d.trace, |d.trace|, run, at, w);
    longer := run + [w];
  }

  /** Where the fixed name is bound again. */
  lemma {:induction false} FirstBound(d: Directory, from: nat, to: nat) returns (m: nat)
    requires from <= to <= |d.trace| && Settling(d, from)
    ensures from <= m <= to
    ensures forall k | from <= k < m :: d.trace[k].live.receipt == None
    ensures forall k | m <= k < to :: d.trace[k].live.receipt != None
  {
    if from == to || d.trace[to - 1].live.receipt == None {
      m := to;
    } else {
      m := FirstBound(d, from, to - 1);
    }
  }

  lemma ShowsUnbound(c: Codec<P.Claim>, d: Disk, view: View, w: P.World)
    requires d.Within(view) && d.live.receipt == None && w.live == None && view.later <= c.Raws(w.may)
    ensures Shows(c, d, w) && d.Unbindable()
  {
    UnboundShowsNone(d);
    Depicted(c, d, view, w);
  }

  lemma BoundShowsSome(d: Disk, view: View)
    requires d.Within(view) && d.live.receipt.Some?
    ensures Fixed(d).Some?
  {
  }

  /** An exchanged replacement: committed, or stopped before any restore. */
  lemma ExchangeDepicted(c: Codec<P.Claim>, d: Directory, n: nat, run: seq<P.World>, at: seq<nat>, r: P.Claim,
                         to: P.State, done: bool)
    returns (run': seq<P.World>, at': seq<nat>)
    requires run != [] && n <= |d.trace| && Depicts(c, d.trace, n, run, at) && CanReplace(Last(run), r, to)
    requires var view := ViewOf(c, Last(run)).Turned(Some(c.encode(r.(state := to))));
             d.Ranges(n, |d.trace|, view)
                 && d.disk.Within(if done then Exactly(Some(c.encode(r.(state := to)))) else view)
    ensures Continues(run, at, run', at') && run' != [] && Depicts(c, d.trace, |d.trace|, run', at')
              && Shows(c, d.disk, Last(run'))
    ensures Ends(Last(run), Last(run'), r.(state := to), done)
  {
    hide Disk.Within, Disk.Unbindable, P.UnbindStep, P.Run, Depicts, Shows, Continues;
    var w, next := Last(run), r.(state := to);
    var view, exchanged := ViewOf(c, w).Turned(Some(c.encode(next))), P.Turned(w, Some(next), P.Exchanged(next));
    RawsAdd(c, w.may, Some(next));
    assert P.Exchange(w, exchanged, r, to);
    RangeShows(c, d, n, |d.trace|, view, exchanged);
    var run1, at1 := TakeAndStay(c, d.trace, n, |d.trace|, run, at, exchanged);
    at' := at1;
    run' := CommitOrStop(c, d, run1, at1, next, view, done);
    ContinuesOn(run, at, run1, at1, run', at1);
  }

  /** A new receipt at the fixed name is synced, or the call stops. */
  lemma CommitOrStop(c: Codec<P.Claim>, d: Directory, run: seq<P.World>, at: seq<nat>, next: P.Claim, view: View,
                     done: bool)
    returns (run': seq<P.World>)
    requires run != [] && Depicts(c, d.trace, |d.trace|, run, at) && Last(run).live == Some(next)
    requires P.InPhase(Last(run), P.Published(next)) || P.InPhase(Last(run), P.Exchanged(next))
    requires view.now == {Some(c.encode(next))} && view.later <= c.Raws(Last(run).may)
    requires d.disk.Within(if done then Exactly(Some(c.encode(next))) else view)
    ensures Continues(run, at, run', at) && run' != [] && Depicts(c, d.trace, |d.trace|, run', at)
              && Shows(c, d.disk, Last(run'))
    ensures Last(run') == if done then P.Synced(Last(run), P.Calm, Some(next)) else P.WithPhase(Last(run), P.Stopped)
  {
    hide Disk.Within, Disk.Unbindable, P.UnbindStep, P.Run, Depicts;
    var w := Last(run);
    if done {
      var settled := P.Synced(w, P.Calm, Some(next));
      assert P.Commit(w, settled, next);
      OnlyUndoingUnbinds(w, settled);
      Take(c, d.trace, |d.trace|, run, at, settled);
      run' := run + [settled];
      WithinWider(d.disk, Exactly(Some(c.encode(next))), ViewOf(c, settled));
    } else {
      WithinWider(d.disk, view, ViewOf(c, w));
      run' := StopHere(c, d, run, at);
    }
  }

  predicate CanReplace(w: P.World, r: P.Claim, to: P.State) {
    && P.Holding(w, r) && P.Allowed(r.state, to) && w.live == Some(r) && w.may == {Some(r)}
    && (to == P.Ready ==> w.session.ready) && (to == P.NotFoundVerified ==> w.session.absent)
  }

  /** How a creation or a replacement ends: with `next` durable and held, or stopped. */
  predicate Ends(w: P.World, w': P.World, next: P.Claim, done: bool) {
    && w'.present == w.present && w'.everReady == w.everReady && w.session.Open? && w'.session.Open?
    && (if done then w'.live == Some(next) && w'.may == {Some(next)} && w'.session == w.session.(snapshot := Some(next))
        else w'.session == w.session.(phase := P.Stopped))
  }

  /** The states of a restore that was begun: the exchange, its first rename, and what follows. */
  ghost predicate RestoreStates(c: Codec<P.Claim>, d: Directory, x: nat, u: nat, view: View)
    reads d
  {
    && x < u < |d.trace| && Window(d, x, u, view) && Losable(d, u)
  }

  /** The exchange and the restore's first rename, up to where the fixed name is bound again. */
  lemma UnbindDepicted(c: Codec<P.Claim>, d: Directory, x: nat, u: nat, end: nat, run: seq<P.World>, at: seq<nat>,
                       r: P.Claim, to: P.State)
    returns (run': seq<P.World>, at': seq<nat>, m: nat)
    requires run != [] && x <= |d.trace| && Depicts(c, d.trace, x, run, at) && CanReplace(Last(run), r, to)
    requires RestoreStates(c, d, x, u, ViewOf(c, Last(run)).Turned(Some(c.encode(r.(state := to)))))
    requires u < end <= |d.trace|
    ensures Continues(run, at, run', at') && u < m <= end && Depicts(c, d.trace, m, run', at')
    ensures forall k | u <= k < m :: d.trace[k].live.receipt == None && Shows(c, d.trace[k], Last(run'))
    ensures forall k | m <= k < end :: d.trace[k].live.receipt != None
    ensures Last(run') == Unbound(Last(run), r, r.(state := to))
  {
    hide Disk.Within, Disk.Unbindable, P.UnbindStep, P.Run, Depicts, Shows, Continues;
    var w, next := Last(run), r.(state := to);
    var view := ViewOf(c, w).Turned(Some(c.encode(next)));
    RawsAdd(c, w.may, Some(next));
    var exchanged := P.Turned(w, Some(next), P.Exchanged(next));
    var doubted := P.WithPhase(exchanged, P.Undoing(next));
    var unbound := P.Turned(doubted, None, P.Restoring(next));
    assert P.Exchange(w, exchanged, r, to) && P.Doubt(exchanged, doubted, next);
    RangeShows(c, d, x, u, view, exchanged);
    var run1, at1 := TakeAndStay(c, d.trace, x, u, run, at, exchanged);
    var run2, at2 := TakeAndStay(c, d.trace, u, u, run1, at1, doubted);
    ContinuesOn(run, at, run1, at1, run2, at2);
    RawsAdd(c, doubted.may, None);
    m := FirstBound(d, u, end);
    forall k | u <= k < m ensures Shows(c, d.trace[k], unbound) {
      ShowsUnbound(c, d.trace[k], view.Lost(Fixed(d.disk)), unbound);
    }
    UnbindIsStep(doubted, unbound, next);
    at' := TakeUnbind(c, d.trace, u, m, run2, at2, unbound);
    run' := run2 + [unbound];
    ContinuesOn(run, at, run2, at2, run', at');
  }

  function Unbound(w: P.World, r: P.Claim, next: P.Claim): P.World
    requires w.session.Open?
  {
    P.Turned(P.WithPhase(P.Turned(w, Some(next), P.Exchanged(next)), P.Undoing(next)), None, P.Restoring(next))
  }

  lemma UnbindIsStep(w: P.World, w': P.World, next: P.Claim)
    requires P.Unbind(w, w', next)
    ensures P.UnbindStep(w, w')
  {
  }

  /** A restore after its first rename: stopped somewhere, or synced with the prior receipt back. */
  lemma RestoreDepicted(c: Codec<P.Claim>, d: Directory, x: nat, u: nat, run: seq<P.World>, at: seq<nat>, r: P.Claim,
                        to: P.State)
    returns (run': seq<P.World>, at': seq<nat>)
    requires run != [] && x <= |d.trace| && Depicts(c, d.trace, x, run, at) && CanReplace(Last(run), r, to)
    requires RestoreStates(c, d, x, u, ViewOf(c, Last(run)).Turned(Some(c.encode(r.(state := to)))))
    requires d.disk.Unbindable() || d.disk.Within(Exactly(Some(c.encode(r))))
    ensures Continues(run, at, run', at') && run' != [] && Depicts(c, d.trace, |d.trace|, run', at')
              && Shows(c, d.disk, Last(run'))
    ensures Ends(Last(run), Last(run'), r.(state := to), false)
  {
    hide Disk.Within, Disk.Unbindable, P.UnbindStep, P.Run, Depicts, Shows, Continues;
    var w, next := Last(run), r.(state := to);
    var view := ViewOf(c, w).Turned(Some(c.encode(next)));
    UnboundIsUnbindable(d.disk);
    var end := if d.disk.Unbindable() then |d.trace| else |d.trace| - 1;
    var run1, at1, m := UnbindDepicted(c, d, x, u, end, run, at, r, to);
    var run2, at2 := run1, at1;
    if d.disk.live.receipt != None {
      ReplacedRaws(c, w, r, next);
      run2, at2 := ReboundDepicted(c, d, m, end, run1, at1, Some(r), next, view);
      ContinuesOn(run, at, run1, at1, run2, at2);
    }
    if end == |d.trace| {
      at' := at2;
      run' := StopHere(c, d, run2, at2);
    } else {
      run', at' := RestoredDepicted(c, d, run2, at2, r, next);
    }
    ContinuesOn(run, at, run2, at2, run', at');
  }

  lemma UnboundIsUnbindable(d: Disk)
    ensures d.live.receipt == None ==> d.Unbindable()
  {
  }

  lemma ReplacedRaws(c: Codec<P.Claim>, w: P.World, r: P.Claim, next: P.Claim)
    requires w.may == {Some(r)}
    ensures ViewOf(c, w).Turned(Some(c.encode(next))).later == {c.Raw(Some(r)), Some(c.encode(next))}
  {
  }

  /** The sync at the end of a restore, with the prior receipt back. */
  lemma RestoredDepicted(c: Codec<P.Claim>, d: Directory, run: seq<P.World>, at: seq<nat>, r: P.Claim, next: P.Claim)
    returns (run': seq<P.World>, at': seq<nat>)
    requires |d.trace| > 0 && d.disk == d.trace[|d.trace| - 1] && Depicts(c, d.trace, |d.trace| - 1, run, at)
    requires P.InPhase(Last(run), P.Restoring(next)) && Last(run).session.snapshot == Some(r)
               && Last(run).live == Some(r)
    requires d.disk.Within(Exactly(Some(c.encode(r))))
    ensures Continues(run, at, run', at') && run' != [] && Depicts(c, d.trace, |d.trace|, run', at')
              && Shows(c, d.disk, Last(run'))
    ensures Last(run') == P.Synced(Last(run), P.Stopped, Some(r))
  {
    hide Disk.Within, Disk.Unbindable, P.UnbindStep, P.Run;
    var restored := P.Synced(Last(run), P.Stopped, Some(r));
    assert P.Restored(Last(run), restored, next);
    OnlyUndoingUnbinds(Last(run), restored);
    Take(c, d.trace, |d.trace| - 1, run, at, restored);
    run' := run + [restored];
    WithinWider(d.disk, Exactly(Some(c.encode(r))), ViewOf(c, restored));
    at' := Stay(c, d.trace, |d.trace| - 1, |d.trace|, run', at);
  }

  /** The restore's second rename, and the states that show it. */
  lemma ReboundDepicted(c: Codec<P.Claim>, d: Directory, m: nat, end: nat, run: seq<P.World>, at: seq<nat>,
                        prior: Option<P.Claim>, next: P.Claim, view: View)
    returns (run': seq<P.World>, at': seq<nat>)
    requires m <= end <= |d.trace| && Depicts(c, d.trace, m, run, at)
    requires prior.Some? && P.InPhase(Last(run), P.Restoring(next)) && Last(run).session.snapshot == prior
               && Last(run).live == None
    requires view.later == {c.Raw(prior), Some(c.encode(next))} && {prior, Some(next), None} <= Last(run).may
    requires |d.trace| > 0 && d.disk == d.trace[|d.trace| - 1] && d.disk.live.receipt != None
    requires d.Ranges(m, |d.trace|, view.Lost(Fixed(d.disk))) && m < |d.trace|
    requires forall k | m <= k < end :: d.trace[k].live.receipt != None && d.trace[k].Unbindable()
    ensures Continues(run, at, run', at') && Depicts(c, d.trace, end, run', at')
    ensures var v := if Fixed(d.disk) == c.Raw(prior) then prior else Some(next);
            Last(run') == P.Turned(Last(run), v, P.Restoring(next))
    ensures d.disk.Within(Exactly(c.Raw(prior))) ==> Fixed(d.disk) == c.Raw(prior)
    ensures end == |d.trace| ==> Shows(c, d.disk, Last(run'))
  {
    hide Disk.Within, Disk.Unbindable, P.UnbindStep, P.Run;
    var during := view.Lost(Fixed(d.disk));
    WithinNow(d.disk, during);
    BoundShowsSome(d.disk, during);
    if d.disk.Within(Exactly(c.Raw(prior))) { WithinNow(d.disk, Exactly(c.Raw(prior))); }
    var v := if Fixed(d.disk) == c.Raw(prior) then prior else Some(next);
    var rebound := P.Turned(Last(run), v, P.Restoring(next));
    assert P.Rebind(Last(run), rebound, next, v);
    OnlyUndoingUnbinds(Last(run), rebound);
    Take(c, d.trace, m, run, at, rebound);
    run' := run + [rebound];
    forall k | m <= k < end ensures Shows(c, d.trace[k], rebound) {
      WithinNow(d.trace[k], during);
      BoundShowsSome(d.trace[k], during);
      Depicted(c, d.trace[k], during, rebound);
    }
    at' := Stay(c, d.trace, m, end, run', at);
  }

  // ----- First creation and terminal removal

  predicate CanCreate(w: P.World, r: P.Claim) {
    w.session == P.Open(P.Calm, None, false, false) && w.live == None && w.may == {None} && r.state == P.Intent
  }

  /** A published first receipt: committed, or stopped. */
  lemma PublishDepicted(c: Codec<P.Claim>, d: Directory, n: nat, run: seq<P.World>, at: seq<nat>, r: P.Claim,
                        done: bool)
    returns (run': seq<P.World>, at': seq<nat>)
    requires run != [] && n <= |d.trace| && Depicts(c, d.trace, n, run, at) && CanCreate(Last(run), r)
    requires var view := ViewOf(c, Last(run)).Turned(Some(c.encode(r)));
             d.Ranges(n, |d.trace|, view) && d.disk.Within(if done then Exactly(Some(c.encode(r))) else view)
    ensures Continues(run, at, run', at') && run' != [] && Depicts(c, d.trace, |d.trace|, run', at')
              && Shows(c, d.disk, Last(run'))
    ensures Ends(Last(run), Last(run'), r, done)
  {
    hide Disk.Within, Disk.Unbindable, P.UnbindStep, P.Run, Depicts, Shows, Continues;
    var w := Last(run);
    var view, published := ViewOf(c, w).Turned(Some(c.encode(r))), P.Turned(w, Some(r), P.Published(r));
    RawsAdd(c, w.may, Some(r));
    assert P.Publish(w, published, r);
    RangeShows(c, d, n, |d.trace|, view, published);
    var run1, at1 := TakeAndStay(c, d.trace, n, |d.trace|, run, at, published);
    at' := at1;
    run' := CommitOrStop(c, d, run1, at1, r, view, done);
    ContinuesOn(run, at, run1, at1, run', at1);
  }

  predicate CanRemove(w: P.World, r: P.Claim) {
    P.Holding(w, r) && r.state == P.NotFoundVerified && w.live == Some(r) && w.may == {Some(r)}
  }

  /** How a removal ends: durably absent, or stopped. */
  predicate EndsRemoved(w: P.World, w': P.World, done: bool) {
    && w'.present == w.present && w'.everReady == w.everReady && w.session.Open?
    && w'.session == w.session.(phase := P.Stopped)
    && (done ==> w'.live == None && w'.may == {None})
  }

  /** A terminal receipt that was moved away: durably gone, put back, or stopped. */
  lemma RemovalDepicted(c: Codec<P.Claim>, d: Directory, n: nat, run: seq<P.World>, at: seq<nat>, r: P.Claim,
                        done: bool)
    returns (run': seq<P.World>, at': seq<nat>)
    requires run != [] && n < |d.trace| && Depicts(c, d.trace, n, run, at) && CanRemove(Last(run), r)
    requires d.trace[n].live.receipt == None && Settling(d, n) && d.disk == d.trace[|d.trace| - 1]
    requires d.Ranges(n, |d.trace|, ViewOf(c, Last(run)).Lost(Fixed(d.disk)))
    requires done ==> d.disk.Within(Exactly(None)) && d.disk.live.receipt == None
    ensures Continues(run, at, run', at') && run' != [] && Depicts(c, d.trace, |d.trace|, run', at')
              && Shows(c, d.disk, Last(run'))
    ensures EndsRemoved(Last(run), Last(run'), done)
  {
    hide Disk.Within, Disk.Unbindable, P.UnbindStep, P.Run, Depicts, Shows, Continues;
    var w := Last(run);
    var during := ViewOf(c, w).Lost(Fixed(d.disk));
    var away := P.Turned(w, None, P.Removing);
    RawsAdd(c, w.may, None);
    assert P.TakeAway(w, away, r);
    var m := FirstBound(d, n, |d.trace|);
    forall k | n <= k < m ensures Shows(c, d.trace[k], away) {
      ShowsUnbound(c, d.trace[k], during, away);
    }
    var run1, at1 := TakeAndStay(c, d.trace, n, m, run, at, away);
    if m < |d.trace| {
      run', at' := BackDepicted(c, d, m, run1, at1, r, during);
    } else if done {
      var removed := P.Synced(away, P.Stopped, Some(r));
      assert P.Removed(away, removed);
      GoneShows(c, d.disk, removed);
      run', at' := TakeAndStay(c, d.trace, m, m, run1, at1, removed);
    } else {
      at' := at1;
      run' := StopHere(c, d, run1, at1);
    }
    ContinuesOn(run, at, run1, at1, run', at');
  }

  lemma GoneShows(c: Codec<P.Claim>, d: Disk, w: P.World)
    requires d.Within(Exactly(None)) && w.live == None && w.may == {None} && w.session.Open? && w.session.phase.Stopped?
    ensures Shows(c, d, w)
  {
    WithinWider(d, Exactly(None), ViewOf(c, w));
  }

  /** What was moved away is put back. */
  lemma BackDepicted(c: Codec<P.Claim>, d: Directory, m: nat, run: seq<P.World>, at: seq<nat>, r: P.Claim, during: View)
    returns (run': seq<P.World>, at': seq<nat>)
    requires run != [] && m < |d.trace| && Depicts(c, d.trace, m, run, at) && d.disk == d.trace[|d.trace| - 1]
    requires P.InPhase(Last(run), P.Removing) && Last(run).live == None && Last(run).session.snapshot == Some(r)
    requires during.now == {None, Fixed(d.disk)} && during.later == {Some(c.encode(r)), None}
               && Last(run).may == {Some(r), None}
    requires d.Ranges(m, |d.trace|, during) && forall k | m <= k < |d.trace| :: d.trace[k].live.receipt != None
    ensures Continues(run, at, run', at') && run' != [] && Depicts(c, d.trace, |d.trace|, run', at')
              && Shows(c, d.disk, Last(run'))
    ensures Last(run') == P.WithPhase(P.Turned(Last(run), Some(r), P.Removing), P.Stopped)
  {
    hide Disk.Within, Disk.Unbindable, P.UnbindStep, P.Run, Depicts, Continues;
    var back := P.Turned(Last(run), Some(r), P.Removing);
    assert P.PutBack(Last(run), back);
    forall k | m <= k < |d.trace| ensures Shows(c, d.trace[k], back) {
      WithinNow(d.trace[k], during);
      BoundShowsSome(d.trace[k], during);
      Depicted(c, d.trace[k], during, back);
    }
    var run1, at1 := TakeAndStay(c, d.trace, m, |d.trace|, run, at, back);
    at' := at1;
    run' := StopHere(c, d, run1, at1);
    ContinuesOn(run, at, run1, at1, run', at');
  }

  // ----- Whole calls

  /** A replacement call, however it went: `x` is the point of its exchange and `u` that of a restore's
      first rename. */
  lemma ReplaceDepicted(c: Codec<P.Claim>, d: Directory, n: nat, x: nat, u: nat, run: seq<P.World>, at: seq<nat>,
                        r: P.Claim, to: P.State, done: bool)
    returns (run': seq<P.World>, at': seq<nat>)
    requires run != [] && n <= x <= u <= |d.trace| && Depicts(c, d.trace, n, run, at) && CanReplace(Last(run), r, to)
    requires d.Ranges(n, x, ViewOf(c, Last(run)))
    requires x == |d.trace| ==> !done && d.disk.Within(ViewOf(c, Last(run)))
    requires x < |d.trace| ==>
               Window(d, x, u, ViewOf(c, Last(run)).Turned(Some(c.encode(r.(state := to))))) && Losable(d, u)
    requires done ==> u == |d.trace| && d.disk.Within(Exactly(Some(c.encode(r.(state := to)))))
    requires u < |d.trace| ==> d.disk.Unbindable() || d.disk.Within(Exactly(Some(c.encode(r))))
    ensures Continues(run, at, run', at') && run' != [] && Depicts(c, d.trace, |d.trace|, run', at')
              && Shows(c, d.disk, Last(run'))
    ensures Ends(Last(run), Last(run'), r.(state := to), done)
  {
    hide Disk.Within, Disk.Unbindable, P.UnbindStep, P.Run, Depicts, Continues;
    RangeShows(c, d, n, x, ViewOf(c, Last(run)), Last(run));
    var at1 := Stay(c, d.trace, n, x, run, at);
    at' := at1;
    if x == |d.trace| {
      run' := StopHere(c, d, run, at1);
    } else if u == |d.trace| {
      run', at' := ExchangeDepicted(c, d, x, run, at1, r, to, done);
    } else {
      run', at' := RestoreDepicted(c, d, x, u, run, at1, r, to);
    }
    ContinuesOn(run, at, run, at1, run', at');
  }

  lemma CreateDepicted(c: Codec<P.Claim>, d: Directory, n: nat, x: nat, run: seq<P.World>, at: seq<nat>, r: P.Claim,
                       done: bool)
    returns (run': seq<P.World>, at': seq<nat>)
    requires run != [] && n <= x <= |d.trace| && Depicts(c, d.trace, n, run, at) && CanCreate(Last(run), r)
    requires d.Ranges(n, x, ViewOf(c, Last(run)))
    requires x == |d.trace| ==> !done && d.disk.Within(ViewOf(c, Last(run)))
    requires x < |d.trace| ==> d.CrashesWithin(x, ViewOf(c, Last(run)).Turned(Some(c.encode(r))))
    requires done ==> d.disk.Within(Exactly(Some(c.encode(r))))
    ensures Continues(run, at, run', at') && run' != [] && Depicts(c, d.trace, |d.trace|, run', at')
              && Shows(c, d.disk, Last(run'))
    ensures Ends(Last(run), Last(run'), r, done)
  {
    hide Disk.Within, Disk.Unbindable, P.UnbindStep, P.Run, Depicts, Continues;
    RangeShows(c, d, n, x, ViewOf(c, Last(run)), Last(run));
    var at1 := Stay(c, d.trace, n, x, run, at);
    at' := at1;
    if x == |d.trace| {
      run' := StopHere(c, d, run, at1);
    } else {
      run', at' := PublishDepicted(c, d, x, run, at1, r, done);
    }
    ContinuesOn(run, at, run, at1, run', at');
  }

  lemma RemoveDepicted(c: Codec<P.Claim>, d: Directory, n: nat, x: nat, run: seq<P.World>, at: seq<nat>, r: P.Claim,
                       done: bool)
    returns (run': seq<P.World>, at': seq<nat>)
    requires run != [] && n <= x <= |d.trace| && Depicts(c, d.trace, n, run, at) && CanRemove(Last(run), r)
    requires Window(d, n, x, ViewOf(c, Last(run)))
    requires done ==> x < |d.trace| && d.disk.Within(Exactly(None)) && d.disk.live.receipt == None
    ensures Continues(run, at, run', at') && run' != [] && Depicts(c, d.trace, |d.trace|, run', at')
              && Shows(c, d.disk, Last(run'))
    ensures EndsRemoved(Last(run), Last(run'), done)
  {
    hide Disk.Within, Disk.Unbindable, P.UnbindStep, P.Run, Depicts, Continues;
    RangeShows(c, d, n, x, ViewOf(c, Last(run)), Last(run));
    var at1 := Stay(c, d.trace, n, x, run, at);
    at' := at1;
    if x == |d.trace| {
      run' := StopHere(c, d, run, at1);
    } else {
      run', at' := RemovalDepicted(c, d, x, run, at1, r, done);
    }
    ContinuesOn(run, at, run, at1, run', at');
  }

  /** Some power loss at a point from `start` on leaves nothing at the fixed name. */
  ghost predicate MayLose(d: Directory, start: nat)
    reads d
  {
    exists k, after | start <= k < |d.trace| && PowerLoss(d.trace[k], after) :: Fixed(after) == None
  }

  /** A file with these bytes was renamed away from the fixed name. */
  ghost predicate MovedAway(d: Directory, start: nat, raw: Bytes)
    reads d
  {
    exists k | start < k < |d.trace| :: Fixed(d.trace[k - 1]) == Some(raw) && d.trace[k].live.receipt == None
  }

  lemma NotUnbindable(d: Disk, view: View)
    requires d.Within(view) && None !in view.later
    ensures !d.Unbindable()
  {
    forall e | e in d.past + [d.live] ensures e.receipt != None {
      assert d.RecoversOnly(e, view.later);
    }
    assert d.live in d.past + [d.live];
  }

  lemma LostExactly(c: Codec<P.Claim>, d: Directory, n: nat, x: nat, u: nat, w: P.World, r: P.Claim, next: P.Claim)
    requires d.Valid() && n <= x <= u <= |d.trace| && w.live == Some(r) && w.may == {Some(r)}
    requires d.Ranges(n, x, ViewOf(c, w))
    requires x == |d.trace| ==> d.disk.Within(ViewOf(c, w))
    requires x < |d.trace| ==> n < x && Window(d, x, u, ViewOf(c, w).Turned(Some(c.encode(next))))
    ensures MayLose(d, n) <==> MovedAway(d, n, c.encode(next))
    ensures MayLose(d, n) <==> u < |d.trace|
    ensures u == |d.trace| || d.disk.Within(Exactly(Some(c.encode(r)))) ==> !d.disk.Unbindable()
  {
    hide Disk.Within, Disk.Unbindable, Disk.Valid, PowerLoss, Fixed;
    if d.disk.Within(Exactly(Some(c.encode(r)))) { NotUnbindable(d.disk, Exactly(Some(c.encode(r)))); }
    var before, turned := ViewOf(c, w), ViewOf(c, w).Turned(Some(c.encode(next)));
    forall k | n <= k < |d.trace| ensures k < u ==> !d.trace[k].Unbindable() {
      if k < x { NotUnbindable(d.trace[k], before); }
      if x <= k < u { NotUnbindable(d.trace[k], turned); }
    }
    forall k | n <= k < |d.trace|
      ensures d.trace[k].Unbindable() <==> exists after :: PowerLoss(d.trace[k], after) && Fixed(after) == None
    {
      assert d.trace[k] in d.trace;
      UnboundIsPowerLoss(d.trace[k]);
    }
    if u == |d.trace| {
      NotUnbindable(d.disk, if x == |d.trace| then before else turned);
      if MovedAway(d, n, c.encode(next)) {
        var k :| n < k < |d.trace| && d.trace[k].live.receipt == None;
        UnboundIsUnbindable(d.trace[k]);
      }
    } else {
      UnboundIsUnbindable(d.trace[u]);
      WithinNow(d.trace[u - 1], turned);
      assert Fixed(d.trace[u - 1]) == Some(c.encode(next));
    }
  }

  // ----- The installation

  /** One installation: the state directory, the provider, and the process that holds the account lock. */
  class Account {
    const d: Directory
    const codec: Codec<P.Claim>
    // The file object the process last read or wrote, and what it knows.
    var held: Option<Snapshot>
    var session: P.Session
    // The namespaces that hold data at the provider.
    var remote: set<P.Namespace>
    // The run of the protocol so far, and which of its worlds each state of the directory shows.
    ghost var run: seq<P.World>
    ghost var at: seq<nat>

    /** Between two calls. */
    ghost predicate Sound()
      reads this, d
    {
      && codec.Faithful() && d.Valid()
      && Depicts(codec, d.trace, |d.trace|, run, at) && run != []
      && Shows(codec, d.disk, Last(run))
      && Last(run).session == session && Last(run).present == remote
      && Knows()
    }

    /** The held snapshot is the file at the fixed name. */
    predicate Knows()
      reads this, d
    {
      session.Open? ==>
        (session.phase.Calm? || session.phase.Stopped?) &&
        (session.phase.Calm? ==>
           match session.snapshot
           case None => d.disk.live.receipt == None
           case Some(r) =>
             && held.Some? && held.value.raw == codec.encode(r)
             && d.disk.live.receipt == Some(held.value.file) && d.disk.Settled(held.value.file, held.value.raw))
    }

    /** An installation without a receipt. */
    constructor (directory: Directory, codec: Codec<P.Claim>)
      requires directory.Valid() && directory.trace == [] && directory.disk.Within(Exactly(None)) && codec.Faithful()
      ensures Sound() && d == directory && this.codec == codec
    {
      d := directory;
      this.codec := codec;
      held := None;
      session := P.Closed;
      remote := {};
      run := [P.World(None, {None}, {}, {}, P.Closed)];
      at := [];
      new;
      WithinWider(d.disk, Exactly(None), ViewOf(codec, Last(run)));
    }

    /** Replace the receipt: every state of the directory on the way shows a world of the longer run. */
    method TransitionReceipt(r: P.Claim, to: P.State) returns (ok: bool)
      requires Sound() && session.Open? && session.phase.Calm? && session.snapshot == Some(r) && P.Allowed(r.state, to)
      requires (to == P.Ready ==> session.ready) && (to == P.NotFoundVerified ==> session.absent)
      modifies this, d
      ensures d.Valid() && old(d.trace) <= d.trace && old(d.rebinds) <= d.rebinds && remote == old(remote)
      ensures d.rebinds == old(d.rebinds) ==>
                && Sound() && Continues(old(run), old(at), run, at)
                && Ends(Last(old(run)), Last(run), r.(state := to), ok)
                && (d.faults == old(d.faults) ==> ok)
                // A power loss during the call can lose the receipt exactly if the restore of the exchange made
                // its first rename; and one failing call alone never leaves the directory so.
                && (MayLose(d, |old(d.trace)|) <==> MovedAway(d, |old(d.trace)|, codec.encode(r.(state := to))))
                && (MayLose(d, |old(d.trace)|) ==> !ok)
                && (d.faults <= old(d.faults) + 1 ==> !d.disk.Unbindable())
    {
      hide Disk.Within, Disk.Unbindable, Depicts, Shows, Continues, Fixed, Disk.Valid, Window, Losable,
          Directory.Ranges, MayLose, MovedAway;
      var next := r.(state := to);
      ghost var w, start := Last(run), |d.trace|;
      KnownWorld(codec, d.trace, run, at);
      ShowsWithin(codec, d.disk, w);
      var file, x, u := AtomicReplaceReceipt(d, held.value, codec.encode(next), ViewOf(codec, w));
      ok := file.Some?;
      if d.rebinds == old(d.rebinds) {
        Longer(codec, old(d.trace), d.trace, run, at);
        LostExactly(codec, d, start, x, u, w, r, next);
        run, at := ReplaceDepicted(codec, d, start, x, u, run, at, r, to, ok);
      }
      session := if ok then session.(snapshot := Some(next)) else session.(phase := P.Stopped);
      if ok { held := Some(Snapshot(file.value, codec.encode(next))); }
    }

    /** Publish the first receipt. */
    method CreateFirstReceipt(r: P.Claim) returns (ok: bool)
      requires Sound() && session == P.Open(P.Calm, None, false, false) && r.state == P.Intent
      modifies this, d
      ensures d.Valid() && old(d.trace) <= d.trace && old(d.rebinds) <= d.rebinds && remote == old(remote)
      ensures d.rebinds == old(d.rebinds) ==>
                && Sound() && Continues(old(run), old(at), run, at)
                && Ends(Last(old(run)), Last(run), r, ok)
                && (d.faults == old(d.faults) ==> ok)
    {
      hide Disk.Within, Disk.Unbindable, P.UnbindStep, P.Run, Depicts, Continues, Fixed, Disk.Valid;
      ghost var w, start := Last(run), |d.trace|;
      KnownWorld(codec, d.trace, run, at);
      var file, x := AtomicCreateReceipt(d, codec.encode(r), ViewOf(codec, w));
      ok := file.Some?;
      if d.rebinds == old(d.rebinds) {
        Longer(codec, old(d.trace), d.trace, run, at);
        run, at := CreateDepicted(codec, d, start, x, run, at, r, ok);
      }
      session := if ok then session.(snapshot := Some(r)) else session.(phase := P.Stopped);
      if ok { held := Some(Snapshot(file.value, codec.encode(r))); }
    }

    /** Remove the terminal receipt. */
    method RemoveTerminalReceipt(r: P.Claim) returns (ok: bool)
      requires Sound() && session.Open? && session.phase.Calm? && session.snapshot == Some(r)
                 && r.state == P.NotFoundVerified
      modifies this, d
      ensures d.Valid() && old(d.trace) <= d.trace && old(d.rebinds) <= d.rebinds && remote == old(remote)
      ensures d.rebinds == old(d.rebinds) ==>
                && Sound() && Continues(old(run), old(at), run, at)
                && EndsRemoved(Last(old(run)), Last(run), ok)
                && (d.faults == old(d.faults) ==> ok)
    {
      hide Disk.Within, Disk.Unbindable, P.UnbindStep, P.Run, Depicts, Continues, Fixed, Disk.Valid;
      ghost var w, start := Last(run), |d.trace|;
      KnownWorld(codec, d.trace, run, at);
      ghost var x;
      ok, x := RemoveReceiptCas(d, held.value, ViewOf(codec, w));
      if d.rebinds == old(d.rebinds) {
        Longer(codec, old(d.trace), d.trace, run, at);
        run, at := RemoveDepicted(codec, d, start, x, run, at, r, ok);
      }
      session := session.(phase := P.Stopped);
    }

    /** Take the lock, sync the directory, read the receipt; a failure refuses the command. */
    method BeginOperation() returns (ok: bool)
      requires Sound() && session.Closed?
      modifies this, d
      ensures d.Valid() && old(d.trace) <= d.trace && old(d.rebinds) <= d.rebinds && remote == old(remote)
      ensures d.rebinds == old(d.rebinds) ==>
                && Sound() && Continues(old(run), old(at), run, at)
                && (if ok then P.Begin(Last(old(run)), Last(run)) else session.Closed?)
                && (d.faults == old(d.faults) ==> ok)
    {
      hide Disk.Within, Disk.Unbindable, Depicts, Shows, Continues, Fixed, Disk.Valid, Directory.Ranges;
      ghost var w, start := Last(run), |d.trace|;
      ShowsWithin(codec, d.disk, w);
      var found;
      ok, found := SyncAndRead(ViewOf(codec, w));
      if d.rebinds == old(d.rebinds) {
        Longer(codec, old(d.trace), d.trace, run, at);
        WithinShows(codec, d.disk, w);
        run, at := BeginDepicted(codec, d, start, run, at, ok);
      }
      if ok {
        held := if found.None? then None else Some(Snapshot(found.value.0, found.value.1));
        session := P.Open(P.Calm, if found.None? then None else codec.decode(found.value.1), false, false);
      }
    }

    method SyncAndRead(ghost view: View) returns (ok: bool, found: Option<(File, Bytes)>)
      requires d.Valid()
      modifies d
      ensures d.Follows()
      ensures d.rebinds == old(d.rebinds) && old(d.disk.Within(view)) ==>
                && d.CrashesWithin(|old(d.trace)|, view) && Fixed(d.disk) == old(Fixed(d.disk))
                && (ok ==> d.disk.Within(Exactly(Fixed(d.disk))))
                && (d.faults == old(d.faults) ==> ok)
                && (ok && found.None? ==> Fixed(d.disk) == None && d.disk.live.receipt == None)
                && (ok && found.Some? ==>
                    d.disk.live.receipt == Some(found.value.0) && Fixed(d.disk) == Some(found.value.1)
                                          && d.disk.Settled(found.value.0, found.value.1))
    {
      hide Disk.Within, Disk.Unbindable, Fixed, Disk.Valid, Disk.NeverFixed;
      ok := SyncDirectory(d, view);
      found := None;
      if d.disk.Within(view) { DurableReceipt(d.disk, view); }
      if ok { ok, found := d.ReadReceipt(); }
    }

    /** A step of the protocol that leaves the fixed name alone, and does not claim to hold more. */
    method Advance(now: P.Session, data: set<P.Namespace>, ghost w: P.World)
      requires Sound() && P.Step(Last(run), w) && w.session == now && w.present == data
      requires w.live == Last(run).live && w.may == Last(run).may
      requires now.Open? ==>
                 (now.phase.Stopped? || (session.Open? && now.phase == session.phase
                 && now.snapshot == session.snapshot))
      modifies this`session, this`remote, this`run
      ensures Sound() && run == old(run) + [w] && at == old(at) && session == now && remote == data
    {
      hide Disk.Within, Disk.Unbindable, P.UnbindStep, P.Run, P.Step, Depicts, Fixed, Disk.Valid;
      OnlyUndoingUnbinds(Last(run), w);
      Take(codec, d.trace, |d.trace|, run, at, w);
      run := run + [w];
      session := now;
      remote := data;
    }

    /** The command ends, or a local check fails. */
    method EndOperation()
      requires Sound() && session.Open?
      modifies this
      ensures Sound() && old(run) <= run && at == old(at) && session.Closed?
    {
      hide Depicts, Shows;
      assert P.End(Last(run), Last(run).(session := P.Closed));
      Advance(P.Closed, remote, Last(run).(session := P.Closed));
    }

    /** Re-read the receipt, then call the provider, with any outcome that the provider may have. */
    method CallProvider(r: P.Claim) returns (ok: bool)
      requires Sound() && session.Open? && session.phase.Calm? && session.snapshot == Some(r)
      modifies this, d
      ensures d.Valid() && old(d.trace) <= d.trace && old(d.rebinds) <= d.rebinds
      ensures d.rebinds == old(d.rebinds) ==> Sound() && old(run) <= run && old(at) <= at
    {
      hide Disk.Within, Disk.Unbindable, P.UnbindStep, P.Run, Depicts, Continues, Fixed, Disk.Valid;
      ghost var w, start := Last(run), |d.trace|;
      var rebinds := d.rebinds;
      ok := d.ReceiptMatches(held.value.file, held.value.raw);
      if d.rebinds != rebinds { return; }
      Longer(codec, old(d.trace), d.trace, run, at);
      at := Stay(codec, d.trace, start, |d.trace|, run, at);
      if !ok { return; }
      if r.state in {P.Intent, P.CreatedState, P.Ready} {
        if * {
          assert P.Write(w, w.(present := w.present + {r.namespace}), r);
          Advance(session, remote + {r.namespace}, w.(present := w.present + {r.namespace}));
        } else if * {
          ghost var inspected := w.(everReady := w.everReady + {r.namespace}, session := w.session.(ready := true));
          assert P.Inspect(w, inspected, r);
          Advance(session.(ready := true), remote, inspected);
        }
      } else if r.state == P.CleanupRequested {
        if * {
          assert P.Delete(w, w.(present := w.present - {r.namespace}), r);
          Advance(session, remote - {r.namespace}, w.(present := w.present - {r.namespace}));
        } else if r.namespace !in remote {
          assert P.Probe(w, w.(session := w.session.(absent := true)), r);
          Advance(session.(absent := true), remote, w.(session := w.session.(absent := true)));
        }
      }
    }

    /** The process dies at the state `k` of the directory, in the middle of its last calls. */
    method Die(k: nat)
      requires Sound() && k < |d.trace| && run[at[k]].present == remote
      modifies this, d
      ensures Sound() && d.rebinds == old(d.rebinds) && session.Closed?
      ensures d.trace == old(d.trace)[..k + 1] && d.disk == d.trace[k]
      ensures run == old(run)[..old(at)[k] + 1] + [old(run)[old(at)[k]].(session := P.Closed)]
    {
      hide Disk.Within, Disk.Unbindable, P.UnbindStep, P.Run, Depicts, Fixed, Disk.Valid;
      DepictsAt(codec, d.trace, run, at, k);
      Shorter(codec, d.trace, run, at, k);
      d.DieAt(k);
      run := run[..at[k] + 1];
      at := at[..k + 1];
      ghost var dead := Last(run).(session := P.Closed);
      assert P.End(Last(run), dead);
      OnlyClosing(Last(run), dead);
      Take(codec, d.trace, |d.trace|, run, at, dead);
      run := run + [dead];
      session := P.Closed;
    }

    /** Power fails. */
    method LosePower()
      requires Sound()
      modifies this, d
      ensures Sound() && d.rebinds == old(d.rebinds) && session.Closed?
      ensures old(run) <= run && old(at) <= at && PowerLoss(old(d.disk), d.disk)
    {
      hide Disk.Within, Disk.Unbindable, P.UnbindStep, P.Run, Depicts, Fixed, Disk.Valid, PowerLoss;
      ghost var w, n := Last(run), |d.trace|;
      ghost var before := d.disk;
      d.LosePower();
      RecoversMay(codec, before, w, d.disk);
      PowerLossWithin(before, d.disk, ViewOf(codec, w));
      ghost var v := codec.Read(Fixed(d.disk));
      ghost var after := w.(live := v, may := {v}, session := P.Closed);
      assert P.PowerFails(w, after);
      OnlyClosing(w, after);
      Longer(codec, old(d.trace), d.trace, run, at);
      Take(codec, d.trace, n, run, at, after);
      run := run + [after];
      WithinWider(d.disk, Exactly(Fixed(d.disk)), ViewOf(codec, after));
      at := Stay(codec, d.trace, n, |d.trace|, run, at);
      session := P.Closed;
    }
  }

  lemma WithinShows(c: Codec<P.Claim>, d: Disk, w: P.World)
    requires d.Within(ViewOf(c, w)) && (w.session.Open? ==> !w.session.phase.Restoring?)
    ensures Shows(c, d, w) && Fixed(d) == c.Raw(w.live)
  {
  }

  lemma ShowsWithin(c: Codec<P.Claim>, d: Disk, w: P.World)
    requires Shows(c, d, w)
    ensures d.Within(ViewOf(c, w))
  {
  }

  lemma OnlyClosing(w: P.World, w': P.World)
    requires w'.session.Closed?
    ensures !P.UnbindStep(w, w')
  {
  }

  lemma DepictsAt(c: Codec<P.Claim>, trace: seq<Disk>, run: seq<P.World>, at: seq<nat>, k: nat)
    requires Depicts(c, trace, |trace|, run, at) && k < |trace|
    ensures |at| == |trace| && at[k] < |run| && Shows(c, trace[k], run[at[k]])
  {
  }

  /** The bytes of a settled receipt. */
  lemma DurableReceipt(d: Disk, view: View)
    requires d.Within(view)
    ensures d.live.receipt.Some? ==> Fixed(d).Some? && d.Settled(d.live.receipt.value, Fixed(d).value)
    ensures d.live.receipt.None? ==> Fixed(d).None?
  {
  }

  /** A sync and a read; if both succeed, the command begins. */
  lemma BeginDepicted(c: Codec<P.Claim>, d: Directory, n: nat, run: seq<P.World>, at: seq<nat>, ok: bool)
    returns (run': seq<P.World>, at': seq<nat>)
    requires run != [] && n <= |d.trace| && Depicts(c, d.trace, n, run, at) && Last(run).session.Closed?
    requires d.CrashesWithin(n, ViewOf(c, Last(run)))
    requires ok ==> d.disk.Within(Exactly(c.Raw(Last(run).live)))
    ensures Depicts(c, d.trace, |d.trace|, run', at') && Continues(run, at, run', at') && run' != []
    ensures Shows(c, d.disk, Last(run')) && if ok then P.Begin(Last(run), Last(run')) else Last(run') == Last(run)
  {
    hide Disk.Within, Disk.Unbindable, P.UnbindStep, P.Run, Depicts, Fixed, Continues;
    var w := Last(run);
    RangeShows(c, d, n, |d.trace|, ViewOf(c, w), w);
    at' := Stay(c, d.trace, n, |d.trace|, run, at);
    run' := run;
    WithinShows(c, d.disk, w);
    if ok {
      run' := Begun(c, d, run, at');
      ContinuesOn(run, at, run, at', run', at');
    }
  }

  lemma Begun(c: Codec<P.Claim>, d: Directory, run: seq<P.World>, at: seq<nat>) returns (run': seq<P.World>)
    requires run != [] && Depicts(c, d.trace, |d.trace|, run, at) && Last(run).session.Closed?
    requires d.disk.Within(Exactly(c.Raw(Last(run).live)))
    ensures Depicts(c, d.trace, |d.trace|, run', at) && Continues(run, at, run', at) && run' != []
    ensures Shows(c, d.disk, Last(run')) && P.Begin(Last(run), Last(run'))
  {
    hide Disk.Within, Disk.Unbindable, P.UnbindStep, P.Run, Depicts, Fixed;
    var w := Last(run);
    var open := w.(may := {w.live}, session := P.Open(P.Calm, w.live, false, false));
    assert P.Begin(w, open);
    OnlyUndoingUnbinds(w, open);
    Take(c, d.trace, |d.trace|, run, at, open);
    run' := run + [open];
    WithinWider(d.disk, Exactly(c.Raw(w.live)), ViewOf(c, open));
  }

  /** Any history of commands on one installation: calls in any order that the code allows, each failing or
      stopping anywhere, provider calls with any outcome, deaths in the middle of calls and power losses. While
      no foreign process rebinds the fixed name, it is a run of the protocol, and nothing is orphaned on the
      directory if and only if no restore made its first rename while a namespace held data. */
  method AnyHistory(a: Account, steps: nat)
    requires a.Sound()
    modifies a, a.d
    ensures a.d.rebinds == old(a.d.rebinds) ==>
              && a.Sound()
              && (P.RestoresHarmless(a.run, |a.run|) <==> NothingOrphaned(a.codec, a.d.trace, a.run, a.at))
  {
    hide Depicts, Shows, Disk.Within, Disk.Valid, P.Run, P.RestoresHarmless, NothingOrphaned, Continues;
    var rebinds := a.d.rebinds;
    for i := 0 to steps
      invariant a.d.rebinds == rebinds && a.Sound()
    {
      if * {
        a.LosePower();
      } else {
        var start := |a.d.trace|;
        ghost var before, shown := a.run, a.at;
        SameLength(a.codec, a.d.trace, a.run, a.at);
        var local := AnyCall(a);
        if a.d.rebinds != rebinds { return; }
        // The process may have died at any point of a local call.
        var k: nat :| true;
        if local && start <= k < |a.d.trace| {
          SamePresent(a.codec, a.d.trace, before, shown, a.run, a.at);
          a.Die(k);
        }
      }
    }
    NothingOrphanedExactly(a.codec, a.d.trace, a.run, a.at);
  }

  /** One call that the session allows; `local` when it does not involve the provider. */
  method AnyCall(a: Account) returns (local: bool)
    requires a.Sound()
    modifies a, a.d
    ensures a.d.Valid() && old(a.d.trace) <= a.d.trace && old(a.d.rebinds) <= a.d.rebinds
    ensures a.d.rebinds == old(a.d.rebinds) ==> a.Sound()
    ensures a.d.rebinds == old(a.d.rebinds) && local ==>
              Continues(old(a.run), old(a.at), a.run, a.at) && a.remote == old(a.remote)
  {
    hide Depicts, Shows, Disk.Within, Disk.Valid, P.Run, Continues;
    var ok;
    local := true;
    var leave: bool := *;
    if a.session.Closed? {
      ok := a.BeginOperation();
    } else if leave || a.session.phase.Stopped? {
      a.EndOperation();
      local := false;
    } else if a.session == P.Open(P.Calm, None, false, false) {
      var namespace: P.Namespace :| true;
      ok := a.CreateFirstReceipt(P.Claim(namespace, P.Intent));
    } else if a.session.snapshot.Some? {
      var r := a.session.snapshot.value;
      var to: P.State :| true;
      if r.state == P.NotFoundVerified {
        ok := a.RemoveTerminalReceipt(r);
      } else if P.Allowed(r.state, to) && (to == P.Ready ==> a.session.ready)
          && (to == P.NotFoundVerified ==> a.session.absent) {
        ok := a.TransitionReceipt(r, to);
      } else {
        ok := a.CallProvider(r);
        local := false;
      }
    } else {
      local := false;
    }
  }

  lemma SameLength(c: Codec<P.Claim>, trace: seq<Disk>, run: seq<P.World>, at: seq<nat>)
    requires Depicts(c, trace, |trace|, run, at)
    ensures |at| == |trace|
  {
  }

  lemma SamePresent(c: Codec<P.Claim>, trace: seq<Disk>, run: seq<P.World>, at: seq<nat>, run': seq<P.World>,
                    at': seq<nat>)
    requires run != [] && Continues(run, at, run', at') && Depicts(c, trace, |trace|, run', at')
    ensures |at'| == |trace|
              && forall k | |at| <= k < |at'| :: at'[k] < |run'| && run'[at'[k]].present == Last(run).present
  {
  }

  lemma KnownWorld(c: Codec<P.Claim>, trace: seq<Disk>, run: seq<P.World>, at: seq<nat>)
    requires run != [] && Depicts(c, trace, |trace|, run, at)
    ensures P.InPhase(Last(run), P.Calm) ==>
              Last(run).live == Last(run).session.snapshot && Last(run).may == {Last(run).live}
  {
    P.ReadyOverRuns(run, |run|);
  }
}
