/** Publishing, replacing and removing the fixed receipt file, call by call. */
module ReceiptStore {
  import opened Collections
  import opened Disks

  /** An authenticated receipt: the file object it was read from and its bytes. */
  datatype Snapshot = Snapshot(file: File, raw: Bytes)

  lemma RangesWider(d: Directory, from: nat, to: nat, a: View, b: View)
    requires d.Ranges(from, to, a) && a.Inside(b)
    ensures d.Ranges(from, to, b)
  {
    forall k | from <= k < to && k < |d.trace| ensures d.trace[k].Within(b) {
      WithinWider(d.trace[k], a, b);
    }
  }

  /** One rename: the fixed name turns to `value`. */
  lemma Turn(a: Disk, b: Disk, view: View, value: Option<Bytes>)
    requires a.Within(view) && Adds(a, b, {value}) && Fixed(b) == value
    ensures b.Within(view.Turned(value))
  {
    var wider := View(view.now + {value}, view.later + {value});
    WithinWider(a, view, wider);
    WithinNow(b, wider);
  }

  lemma UnboundShowsNone(d: Disk)
    requires d.live.receipt == None
    ensures Fixed(d) == None
  {
  }

  lemma LostIsTurned(view: View)
    ensures view.Lost(None) == view.Turned(None)
  {
    assert view.Lost(None).now == view.Turned(None).now;
  }

  lemma SettledShows(d: Disk, snapshot: Snapshot)
    requires d.Settled(snapshot.file, snapshot.raw) && d.live.receipt == Some(snapshot.file)
    ensures Fixed(d) == Some(snapshot.raw)
  {
  }

  lemma ShowsSettled(d: Disk, snapshot: Snapshot, view: View)
    requires d.Within(view) && d.Settled(snapshot.file, snapshot.raw) && d.live.receipt == Some(snapshot.file)
    ensures Fixed(d) == Some(snapshot.raw) && Fixed(d) in view.now && Fixed(d) in view.later
  {
    WithinNow(d, view);
  }

  method SyncDirectory(d: Directory, ghost view: View)
    returns (ok: bool)
    requires d.Valid()
    modifies d
    ensures d.Follows() && d.disk.files == old(d.disk.files) && d.disk.live.staged == old(d.disk.live.staged)
    ensures |d.trace| == |old(d.trace)| + 2
    ensures forall k | |old(d.trace)| <= k < |d.trace| ::
              d.trace[k].live == d.disk.live && d.trace[k].files == d.disk.files
    ensures old(d.OccupantFixed()) ==> d.OccupantFixed()
    ensures d.rebinds == old(d.rebinds) ==>
              && d.disk.live == old(d.disk.live) && d.trace[|old(d.trace)|] == old(d.disk)
              && Fixed(d.disk) == old(Fixed(d.disk)) && (!ok ==> d.disk == old(d.disk))
              && (d.faults == old(d.faults) ==> ok)
              && (forall raw | ok && d.disk.live.receipt.Some? && d.disk.Settled(d.disk.live.receipt.value, raw) ::
                    d.disk.Within(Exactly(Some(raw))))
    ensures ok && d.disk.live.receipt == None ==> d.disk.Within(Exactly(None))
    ensures d.rebinds == old(d.rebinds) && old(d.disk.Within(view)) ==> d.CrashesWithin(|old(d.trace)|, view)
    ensures ok ==> d.faults == old(d.faults) && d.disk.past == []
  {
    hide Disk.Within, Disk.Valid, Disk.NeverFixed, Disk.Named, Disk.Unbindable, Fixed;
    ghost var mid;
    ok, mid := d.FsyncDirectory();
  }

  /** Read a staged file back and compare. */
  method Recognise(d: Directory, n: nat, file: File, raw: Bytes, ghost view: View)
    returns (yes: bool)
    requires d.Valid()
    modifies d
    ensures d.Follows() && d.disk.files == old(d.disk.files) && d.disk.live.staged == old(d.disk.live.staged)
    ensures d.trace == old(d.trace) + [d.disk]
    ensures yes ==> d.disk.Holds(n, file)
    ensures d.rebinds > old(d.rebinds) ==> d.OccupantFixed()
    ensures d.rebinds == old(d.rebinds) ==> d.disk == old(d.disk)
    ensures d.faults == old(d.faults) && d.disk.Holds(n, file) && d.disk.Settled(file, raw) ==> yes
    ensures yes ==> d.faults == old(d.faults)
  {
    hide Disk.Within, Disk.Valid, Disk.NeverFixed, Disk.Named, Disk.Unbindable, Fixed;
    yes := d.StagedMatches(n, file, raw);
  }

  // ----- Staging

  method WriteAll(d: Directory, f: Inode, value: Bytes, ghost view: View)
    returns (ok: bool)
    requires d.Valid() && d.disk.NeverFixed(Own(f)) && f in d.disk.files && d.disk.files[f] == [[]]
    modifies d
    ensures d.Follows() && d.disk.NeverFixed(Own(f))
    ensures d.disk.live.staged == old(d.disk.live.staged)
    ensures d.disk.files.Keys == old(d.disk.files.Keys)
    ensures forall g | g in d.disk.files && g != f :: d.disk.files[g] == old(d.disk.files)[g]
    ensures d.disk.files[f] != []
    ensures ok ==> d.disk.Content(Own(f)) == value
    ensures d.faults == old(d.faults) ==> ok
    ensures old(d.OccupantFixed()) ==> d.OccupantFixed()
    ensures d.rebinds == old(d.rebinds) ==> d.disk.live == old(d.disk.live)
    ensures d.rebinds == old(d.rebinds) && old(d.disk.Within(view)) ==> d.CrashesWithin(|old(d.trace)|, view)
    ensures ok ==> d.faults == old(d.faults)
  {
    hide Disk.Within, Disk.Valid, Disk.NeverFixed, Disk.Named, Disk.Unbindable, Fixed;
    var offset := 0;
    while offset < |value|
      invariant 0 <= offset <= |value|
      invariant d.Follows() && d.disk.NeverFixed(Own(f))
      invariant d.disk.live.staged == old(d.disk.live.staged)
      invariant d.disk.files.Keys == old(d.disk.files.Keys)
      invariant forall g | g in d.disk.files && g != f :: d.disk.files[g] == old(d.disk.files)[g]
      invariant d.disk.files[f] != [] && d.disk.Content(Own(f)) == value[..offset] && d.faults == old(d.faults)
      invariant old(d.OccupantFixed()) ==> d.OccupantFixed()
      invariant d.rebinds == old(d.rebinds) ==> d.disk.live == old(d.disk.live)
      invariant d.rebinds == old(d.rebinds) && old(d.disk.Within(view)) ==> d.CrashesWithin(|old(d.trace)|, view)
    {
      var written, mid := d.Write(f, value[offset..]);
      if written == 0 { return false; }
      assert value[..offset] + value[offset..][..written] == value[..offset + written];
      offset := offset + written;
    }
    assert value[..offset] == value;
    return true;
  }

  method Fill(d: Directory, f: Inode, value: Bytes, ghost view: View)
    returns (ok: bool)
    requires d.Valid() && d.disk.NeverFixed(Own(f)) && f in d.disk.files && d.disk.files[f] == [[]]
    modifies d
    ensures d.Follows() && d.disk.NeverFixed(Own(f))
    ensures d.disk.live.staged == old(d.disk.live.staged)
    ensures d.disk.files.Keys == old(d.disk.files.Keys)
    ensures forall g | g in d.disk.files && g != f :: d.disk.files[g] == old(d.disk.files)[g]
    ensures ok ==> d.disk.Settled(Own(f), value)
    ensures d.faults == old(d.faults) ==> ok
    ensures old(d.OccupantFixed()) ==> d.OccupantFixed()
    ensures d.rebinds == old(d.rebinds) ==> d.disk.live == old(d.disk.live)
    ensures d.rebinds == old(d.rebinds) && old(d.disk.Within(view)) ==> d.CrashesWithin(|old(d.trace)|, view)
    ensures ok ==> d.faults == old(d.faults)
  {
    hide Disk.Within, Disk.Valid, Disk.NeverFixed, Disk.Named, Disk.Unbindable, Fixed;
    ok := WriteAll(d, f, value, view);
    if ok {
      ghost var mid;
      ok, mid := d.FsyncFile(f);
    }
  }

  /** Unlink a staging name only if it still is the given file with the given bytes. */
  method RemoveKnown(d: Directory, n: nat, file: File, raw: Bytes, ghost view: View)
    returns (ok: bool)
    requires d.Valid()
    modifies d
    ensures d.Follows() && d.disk.files == old(d.disk.files)
    ensures ok ==> old(d.disk.Holds(n, file))
    ensures d.disk.live.staged == if ok then old(d.disk.live.staged) - {n} else old(d.disk.live.staged)
    ensures d.faults == old(d.faults) && old(d.disk.Holds(n, file) && d.disk.Settled(file, raw)) ==> ok
    ensures old(d.OccupantFixed()) ==> d.OccupantFixed()
    ensures d.rebinds == old(d.rebinds) ==>
              && d.disk.live.receipt == old(d.disk.live.receipt)
              && (forall k | |old(d.trace)| <= k < |d.trace| :: d.trace[k].live.receipt == d.disk.live.receipt)
              && d.trace != [] && d.disk == d.trace[|d.trace| - 1]
              && (old(d.disk.Unbindable()) ==> d.StaysUnbindable(|old(d.trace)|))
    ensures d.rebinds == old(d.rebinds) && old(d.disk.Within(view)) ==> d.CrashesWithin(|old(d.trace)|, view)
    ensures ok ==> d.faults == old(d.faults)
  {
    hide Disk.Within, Disk.Valid, Disk.NeverFixed, Disk.Named, Disk.Unbindable, Fixed;
    ok := d.StagedMatches(n, file, raw);
    if ok {
      ghost var mid;
      ok, mid := d.Unlink(n);
    }
  }

  /** An empty new file under a random staging name. */
  method CreateStaged(d: Directory, ghost view: View)
    returns (name: Option<nat>, file: File)
    requires d.Valid()
    modifies d
    ensures d.Follows()
    ensures forall f | f in old(d.disk.files) :: f in d.disk.files && d.disk.files[f] == old(d.disk.files)[f]
    ensures name.None? ==> d.disk.live.staged == old(d.disk.live.staged)
    ensures name.Some? ==>
              && name.value !in old(d.disk.live.staged)
                  && d.disk.live.staged == old(d.disk.live.staged)[name.value := file]
              && file.Own? && file.inode !in old(d.disk.files) && file.inode in d.disk.files
              && d.disk.files[file.inode] == [[]] && d.disk.NeverFixed(file)
    ensures d.faults == old(d.faults) ==> name.Some?
    ensures old(d.OccupantFixed()) ==> d.OccupantFixed()
    ensures d.rebinds == old(d.rebinds) ==> d.disk.live.receipt == old(d.disk.live.receipt)
    ensures d.rebinds == old(d.rebinds) && old(d.disk.Within(view)) ==> d.CrashesWithin(|old(d.trace)|, view)
    ensures name.Some? ==> d.faults == old(d.faults)
  {
    hide Disk.Within, Disk.Valid, Disk.NeverFixed, Disk.Named, Disk.Unbindable, Fixed;
    var drawn := d.FreshName();
    ghost var mid;
    var ok;
    ok, file, mid := d.CreateExclusive(drawn);
    name := if ok then Some(drawn) else None;
  }

  /** Stage `raw` durably under a random name. On failure only that name may remain. */
  method PrepareTemporary(d: Directory, raw: Bytes, ghost view: View)
    returns (r: Option<(nat, File)>)
    requires d.Valid()
    modifies d
    ensures d.Follows()
    ensures forall f | f in old(d.disk.files) :: f in d.disk.files && d.disk.files[f] == old(d.disk.files)[f]
    ensures forall n | n in old(d.disk.live.staged) ::
              n in d.disk.live.staged && d.disk.live.staged[n] == old(d.disk.live.staged)[n]
    ensures r.Some? ==> var (n, file) := r.value;
              && n !in old(d.disk.live.staged) && d.disk.Holds(n, file)
              && d.disk.live.staged == old(d.disk.live.staged)[n := file]
              && file.Own? && file.inode !in old(d.disk.files) && d.disk.Settled(file, raw) && d.disk.NeverFixed(file)
    ensures d.faults == old(d.faults) ==> r.Some?
    // A single failing call leaves no temporary behind.
    ensures r.None? && d.faults <= old(d.faults) + 1 ==> d.disk.live.staged == old(d.disk.live.staged)
    ensures old(d.OccupantFixed()) ==> d.OccupantFixed()
    ensures d.rebinds == old(d.rebinds) ==> d.disk.live.receipt == old(d.disk.live.receipt)
    ensures d.rebinds == old(d.rebinds) && old(d.disk.Within(view)) ==> d.CrashesWithin(|old(d.trace)|, view)
    ensures r.Some? ==> d.faults == old(d.faults)
  {
    hide Disk.Within, Disk.Valid, Disk.NeverFixed, Disk.Named, Disk.Unbindable, Fixed;
    var name, file := CreateStaged(d, view);
    if name.None? { return None; }
    var ok := Fill(d, file.inode, raw, view);
    if ok { return Some((name.value, file)); }
    // Cleanup by identity only, whatever was written.
    ghost var mid;
    ok, mid := d.Unlink(name.value);
    return None;
  }

  // ----- Replacement

  /** The foreign file, if any, is at the fixed name, or was displaced from it to staging name `n`
      by the exchange that put `file` there. */
  ghost predicate Displaced(d: Directory, n: nat, file: File)
    reads d
  {
    (d.occupant.Some? ==>
       || d.disk.live.receipt == d.occupant
       || (d.disk.Holds(n, d.occupant.value) && d.disk.live.receipt == Some(file)))
  }

  /** The exchange has happened: `file` is at the fixed name and the prior receipt at `n`. */
  predicate Swapped(disk: Disk, n: nat, prior: Snapshot, file: File)
  {
    disk.live.receipt == Some(file) && disk.Holds(n, prior.file) && disk.Settled(prior.file, prior.raw)
  }

  /** From `emptied` on the fixed name has been moved away: it is unbound, or shows what it shows now. Until
      then it was within the view. */
  ghost predicate Window(d: Directory, start: nat, emptied: nat, view: View)
    reads d
  {
    && start <= emptied <= |d.trace|
    && d.Ranges(start, emptied, view)
    && (emptied == |d.trace| ==> d.disk.Within(view))
    && (emptied < |d.trace| ==>
          && start < emptied && d.trace[emptied].live.receipt == None && Settling(d, emptied)
          && d.Ranges(emptied, |d.trace|, view.Lost(Fixed(d.disk)))
          && d.disk == d.trace[|d.trace| - 1])
  }

  /** Once the fixed name is bound again it stays bound. */
  ghost predicate Settling(d: Directory, start: nat)
    reads d
  {
    forall j, k | start <= j <= k < |d.trace| && d.trace[k].live.receipt == None :: d.trace[j].live.receipt == None
  }

  /** A power loss inside the window may find the fixed name unbound, up to the directory sync at its end. */
  ghost predicate Losable(d: Directory, emptied: nat)
    reads d
  {
    forall k | emptied <= k < |d.trace| - 1 :: d.trace[k].Unbindable()
  }

  /** A foreign file is at the fixed name, or was moved from it to staging name `n`. */
  ghost predicate Aside(d: Directory, n: nat)
    reads d
  {
    d.occupant.Some? ==>
      || d.disk.live.receipt == d.occupant
      || (d.disk.Holds(n, d.occupant.value) && d.disk.live.receipt == None)
  }

  /** Move the fixed name to a fresh staging name. */
  method MoveAway(d: Directory, quarantine: nat, ghost view: View)
    returns (ok: bool)
    requires d.Valid()
    modifies d
    ensures d.Follows() && d.disk.files == old(d.disk.files)
    ensures |d.trace| == |old(d.trace)| + 2
              && forall k | |old(d.trace)| <= k < |d.trace| :: d.trace[k].files == d.disk.files
    ensures d.trace[|old(d.trace)|].live.staged == old(d.disk.live.staged)
    ensures !ok ==> d.disk.live.staged == old(d.disk.live.staged)
    ensures ok ==>
              && d.disk.live.receipt == None && quarantine !in old(d.disk.live.staged)
              && quarantine in d.disk.live.staged
              && d.disk.live.staged == old(d.disk.live.staged)[quarantine := d.disk.live.staged[quarantine]]
              && d.trace[|old(d.trace)|].live.receipt == Some(d.disk.live.staged[quarantine])
    ensures d.rebinds > old(d.rebinds) ==>
              if ok then d.occupant.Some? && d.disk.Holds(quarantine, d.occupant.value) else d.OccupantFixed()
    ensures d.rebinds == old(d.rebinds) ==>
              && (ok ==> old(d.disk.live.receipt) == Some(d.disk.live.staged[quarantine]) && d.disk.Unbindable())
              && (!ok ==> d.disk == old(d.disk))
              && (d.faults == old(d.faults) && old(d.disk.live.receipt.Some? && quarantine !in d.disk.live.staged) ==>
                    ok)
    ensures d.rebinds == old(d.rebinds) && old(d.disk.Within(view)) ==>
              if ok
              then d.Ranges(|old(d.trace)|, |d.trace| - 1, view) && d.disk.Within(view.Turned(None))
              else d.CrashesWithin(|old(d.trace)|, view)
    ensures ok ==> d.faults == old(d.faults)
  {
    hide Disk.Within, Disk.Valid, Disk.NeverFixed, Disk.Named, Disk.Unbindable, Fixed;
    ghost var mid;
    ok, mid := d.MoveReceiptTo(quarantine);
    if ok && mid.Within(view) { Turn(mid, d.disk, view, None); }
  }

  /** Move a staging name to the fixed name, never over anything. */
  method MoveBack(d: Directory, n: nat, ghost raw: Bytes, ghost view: View)
    returns (ok: bool)
    requires d.Valid()
    modifies d
    ensures d.Follows() && d.disk.files == old(d.disk.files)
    ensures |d.trace| == |old(d.trace)| + 2
              && forall k | |old(d.trace)| <= k < |d.trace| :: d.trace[k].files == d.disk.files
    ensures d.faults == old(d.faults) && old(Aside(d, n)) ==> d.OccupantFixed()
    ensures d.trace[|old(d.trace)|].live.staged == old(d.disk.live.staged)
    ensures d.disk.live.staged == if ok then old(d.disk.live.staged) - {n} else old(d.disk.live.staged)
    ensures d.rebinds == old(d.rebinds) ==>
              && d.trace[|old(d.trace)|] == old(d.disk)
              && (ok ==> n in old(d.disk.live.staged) && old(d.disk.live.receipt) == None
                         && d.disk.live.receipt == Some(old(d.disk.live.staged)[n]))
              && (!ok ==> d.disk == old(d.disk))
              && (old(d.disk.Unbindable()) ==> d.disk.Unbindable())
              && (d.faults == old(d.faults) && n in old(d.disk.live.staged) && old(d.disk.live.receipt) == None ==> ok)
    ensures d.rebinds == old(d.rebinds) && n in old(d.disk.live.staged)
              && old(d.disk.Settled(d.disk.live.staged[n], raw))
            && old(d.disk.Within(view.Turned(None))) && Some(raw) in view.later ==>
              d.CrashesWithin(|old(d.trace)|, view.Lost(Fixed(d.disk)))
    ensures ok ==> d.faults == old(d.faults)
  {
    hide Disk.Within, Disk.Valid, Disk.NeverFixed, Disk.Named, Disk.Unbindable, Fixed;
    ghost var mid;
    ok, mid := d.MoveToReceipt(n);
    if mid.Within(view.Turned(None)) { WithinWider(mid, view.Turned(None), view.Lost(Fixed(d.disk))); }
  }

  /** The staging name keeps its file. */
  ghost predicate KeepsStaged(d: Directory, start: nat, n: nat, file: File)
    reads d
  {
    d.disk.Holds(n, file) && forall k | start <= k < |d.trace| :: d.trace[k].Holds(n, file)
  }

  /** Read the moved file; if it is not `file`, move it back. */
  method KeepOrReturn(d: Directory, n: nat, quarantine: nat, file: File, raw: Bytes, ghost view: View)
    returns (ok: bool)
    requires d.Valid() && d.disk.Settled(file, raw) && d.disk.live.receipt == None
    modifies d
    ensures d.Follows() && d.disk.files == old(d.disk.files)
    ensures ok ==> d.disk.Holds(quarantine, file) && d.disk.live.staged == old(d.disk.live.staged)
    ensures n != quarantine && n in old(d.disk.live.staged) ==>
              KeepsStaged(d, |old(d.trace)|, n, old(d.disk.live.staged)[n])
    ensures d.faults == old(d.faults) && old(Aside(d, quarantine)) && !ok ==> d.OccupantFixed()
    ensures old(Aside(d, n)) && ok ==> Aside(d, n)
    ensures d.faults == old(d.faults) && old(d.disk.Holds(quarantine, file)) ==> ok
    ensures d.rebinds == old(d.rebinds) ==>
              && (ok ==> d.disk.live.receipt == None) && Settling(d, |old(d.trace)|)
              && (d.disk.live.receipt.Some? ==>
                  quarantine in old(d.disk.live.staged)
                  && d.disk.live.receipt == Some(old(d.disk.live.staged)[quarantine]))
              && (old(d.disk.Unbindable()) ==> d.StaysUnbindable(|old(d.trace)|))
    ensures d.rebinds == old(d.rebinds) && old(d.disk.Holds(quarantine, file) && d.disk.Within(view.Turned(None)))
            && Some(raw) in view.later ==>
              d.CrashesWithin(|old(d.trace)|, view.Lost(Fixed(d.disk)))
  {
    hide Disk.Within, Disk.Valid, Disk.NeverFixed, Disk.Named, Disk.Unbindable, Fixed;
    ghost var moved := d.disk;
    UnboundShowsNone(moved);
    LostIsTurned(view);
    ok := Recognise(d, quarantine, file, raw, view);
    if !ok {
      var returned := MoveBack(d, quarantine, raw, view);
      if moved.Within(view.Turned(None)) { WithinWider(moved, view.Turned(None), view.Lost(Fixed(d.disk))); }
    }
  }

  /** Move the fixed name aside; if it was not `file`, move it back. */
  method SetAside(d: Directory, n: nat, file: File, raw: Bytes, ghost view: View)
    returns (r: Option<nat>, ghost emptied: nat)
    requires d.Valid() && d.disk.Settled(file, raw)
    modifies d
    ensures d.Follows() && d.disk.files == old(d.disk.files)
    ensures n in old(d.disk.live.staged) ==> KeepsStaged(d, |old(d.trace)|, n, old(d.disk.live.staged)[n])
    ensures r.Some? ==> d.disk.Holds(r.value, file) && r.value !in old(d.disk.live.staged)
    ensures d.faults == old(d.faults) && old(Displaced(d, n, file)) ==>
              if r.None? then d.OccupantFixed() else Aside(d, n)
    ensures d.rebinds == old(d.rebinds) && old(d.disk.live.receipt) == Some(file) ==>
              && (r.Some? ==> d.disk.live.receipt == None)
              && (r.None? ==> d.disk.live.receipt == None || d.disk.live.receipt == Some(file))
              && (d.faults == old(d.faults) ==> r.Some?)
    ensures d.rebinds == old(d.rebinds) && old(d.disk.live.receipt == Some(file) && d.disk.Within(view))
              && Some(raw) in view.later ==>
              && Window(d, |old(d.trace)|, emptied, view) && Losable(d, emptied)
              && (emptied < |d.trace| ==> d.disk.Unbindable())
              && (r.Some? ==> emptied < |d.trace|)
  {
    hide Disk.Within, Disk.Valid, Disk.NeverFixed, Disk.Named, Disk.Unbindable, Fixed;
    var quarantine := d.FreshName();
    var ok := MoveAway(d, quarantine, view);
    if !ok { return None, |d.trace|; }
    emptied := |d.trace| - 1;
    ghost var moved := d.disk;
    ok := KeepOrReturn(d, n, quarantine, file, raw, view);
    if moved.Within(view.Turned(None)) { WithinWider(moved, view.Turned(None), view.Lost(Fixed(d.disk))); }
    r := if ok then Some(quarantine) else None;
  }

  /** Undo an exchange: the fixed name goes back to whatever the exchange displaced. Between the two
      renames the fixed name is unbound. */
  method RestoreExchange(d: Directory, n: nat, file: File, raw: Bytes, ghost prior: Snapshot, ghost view: View)
    returns (ok: bool, ghost emptied: nat)
    requires d.Valid() && d.disk.Settled(file, raw)
    modifies d
    ensures d.Follows() && d.disk.files == old(d.disk.files)
    ensures d.faults == old(d.faults) && old(Displaced(d, n, file)) ==> d.OccupantFixed()
    ensures d.rebinds == old(d.rebinds) && old(Swapped(d.disk, n, prior, file)) ==>
              && (d.disk.live.receipt == None || d.disk.live.receipt == Some(prior.file)
                  || d.disk.live.receipt == Some(file))
              && (d.disk.live.receipt == Some(prior.file) || d.disk.Holds(n, prior.file))
              && (ok ==> d.disk.live.receipt == Some(prior.file) && d.disk.Within(Exactly(Some(prior.raw))))
              && (d.faults == old(d.faults) ==> ok)
              // The prior receipt has a name throughout.
              && (forall k | |old(d.trace)| <= k < |d.trace| ::
                    d.trace[k].live.receipt == Some(prior.file) || d.trace[k].Holds(n, prior.file))
    ensures d.rebinds == old(d.rebinds) && old(Swapped(d.disk, n, prior, file) && d.disk.Within(view))
            && {Some(raw), Some(prior.raw)} <= view.later ==>
              && Window(d, |old(d.trace)|, emptied, view) && Losable(d, emptied)
              && (ok ==> emptied < |d.trace|)
              && (emptied < |d.trace| && !ok ==> d.disk.Unbindable())
  {
    hide Disk.Within, Disk.Valid, Disk.NeverFixed, Disk.Named, Disk.Unbindable, Fixed;
    var quarantine;
    quarantine, emptied := SetAside(d, n, file, raw, view);
    if quarantine.None? { return false, emptied; }
    ghost var start := |d.trace|;
    if d.disk.live.receipt == None { UnboundShowsNone(d.disk); }
    LostIsTurned(view);
    ok := FinishRestore(d, n, quarantine.value, file, raw, prior, view);
    if d.Ranges(emptied, start, view.Turned(None)) {
      RangesWider(d, emptied, start, view.Turned(None), view.Lost(Fixed(d.disk)));
    }
  }

  /** Why the restore is not atomic: right after its first rename a power loss can leave nothing at the
      fixed name, although both receipts are complete beside it. */
  lemma RestoreCanLose(d: Disk, n: nat, quarantine: nat, prior: Snapshot, file: File)
    requires d.Valid() && Swapped(d, n, prior, file) && quarantine !in d.live.staged
    ensures var moved := d.Append(Entries(None, d.live.staged[quarantine := file]));
            exists after: Disk :: PowerLoss(moved, after) && Fixed(after) == None && after.Holds(n, prior.file)
  {
    var moved := d.Append(Entries(None, d.live.staged[quarantine := file]));
    var after := Disk([], moved.live, map f | f in moved.files :: [moved.files[f][0]]);
    assert PowerLoss(moved, after);
  }

  /** The second half of a restore: the displaced file goes back, the replacement goes, and that is synced. */
  method FinishRestore(d: Directory, n: nat, quarantine: nat, file: File, raw: Bytes, ghost prior: Snapshot,
                       ghost view: View)
    returns (ok: bool)
    requires d.Valid() && d.disk.Settled(file, raw)
    modifies d
    ensures d.Follows() && d.disk.files == old(d.disk.files)
    ensures d.faults == old(d.faults) && old(Aside(d, n)) ==> d.OccupantFixed()
    ensures d.rebinds == old(d.rebinds)
            && old(d.disk.live.receipt == None && d.disk.Holds(n, prior.file) && n != quarantine
                && d.disk.Settled(prior.file, prior.raw)) ==>
              && (d.disk.live.receipt == Some(prior.file)
                  || (d.disk.live.receipt == None && d.disk.Holds(n, prior.file)))
              && (ok ==> d.disk.live.receipt == Some(prior.file) && d.disk.Within(Exactly(Some(prior.raw))))
              && (d.faults == old(d.faults) && old(d.disk.Holds(quarantine, file)) ==> ok)
              && Settling(d, |old(d.trace)|)
              && (forall k | |old(d.trace)| <= k < |d.trace| ::
                    d.trace[k].live.receipt == Some(prior.file) || d.trace[k].Holds(n, prior.file))
              && (old(d.disk.Unbindable()) ==> Losable(d, |old(d.trace)|) && (!ok ==> d.disk.Unbindable()))
              && (old(d.disk.Within(view.Turned(None))) && Some(prior.raw) in view.later ==>
                    d.CrashesWithin(|old(d.trace)|, view.Lost(Fixed(d.disk))))
  {
    hide Disk.Within, Disk.Valid, Disk.NeverFixed, Disk.Named, Disk.Unbindable, Fixed;
    ok := MoveBack(d, n, prior.raw, view);
    if !ok { return; }
    ok := DropAndSync(d, quarantine, file, raw, prior, view.Lost(Fixed(d.disk)));
  }

  /** Unlink a known staged file and sync, with the prior receipt back at the fixed name. */
  method DropAndSync(d: Directory, n: nat, file: File, raw: Bytes, ghost prior: Snapshot, ghost view: View)
    returns (ok: bool)
    requires d.Valid() && d.disk.Settled(file, raw)
    modifies d
    ensures d.Follows() && d.disk.files == old(d.disk.files)
    ensures old(d.OccupantFixed()) ==> d.OccupantFixed()
    ensures d.rebinds == old(d.rebinds)
              && old(d.disk.live.receipt == Some(prior.file) && d.disk.Settled(prior.file, prior.raw)) ==>
              && d.disk.live.receipt == Some(prior.file) && Fixed(d.disk) == old(Fixed(d.disk))
              && (forall k | |old(d.trace)| <= k < |d.trace| :: d.trace[k].live.receipt == Some(prior.file))
              && (ok ==> d.disk.Within(Exactly(Some(prior.raw))))
              && (d.faults == old(d.faults) && old(d.disk.Holds(n, file)) ==> ok)
              && (old(d.disk.Unbindable()) ==> Losable(d, |old(d.trace)|) && (!ok ==> d.disk.Unbindable()))
    ensures d.rebinds == old(d.rebinds) && old(d.disk.Within(view)) ==> d.CrashesWithin(|old(d.trace)|, view)
    ensures ok ==> d.faults == old(d.faults) && d.disk.past == [] && d.disk.live.staged == old(d.disk.live.staged) - {n}
  {
    hide Disk.Within, Disk.Valid, Disk.NeverFixed, Disk.Named, Disk.Unbindable, Fixed;
    ghost var settled := d.disk.live.receipt == Some(prior.file) && d.disk.Settled(prior.file, prior.raw);
    if settled { SettledShows(d.disk, prior); }
    ok := RemoveKnown(d, n, file, raw, view);
    if settled && d.disk.live.receipt == Some(prior.file) { SettledShows(d.disk, prior); }
    if !ok { return; }
    ok := SyncDirectory(d, view);
  }

  /** Check continuity and swap the staged file with whatever is at the fixed name. */
  method Exchange(d: Directory, n: nat, file: File, raw: Bytes, ghost view: View)
    returns (ok: bool)
    requires d.Valid() && d.disk.Holds(n, file) && d.disk.Settled(file, raw)
    modifies d
    ensures d.Follows() && d.disk.files == old(d.disk.files)
    ensures !ok ==> d.disk.live.staged == old(d.disk.live.staged)
    ensures ok ==> d.disk.live.staged.Keys == old(d.disk.live.staged).Keys
    ensures ok ==> d.disk.live.receipt == Some(file) && n in d.disk.live.staged
                   && |d.trace| > |old(d.trace)| + 1
                       && d.trace[|d.trace| - 2].live.receipt == Some(d.disk.live.staged[n])
    ensures old(d.OccupantFixed()) ==> if ok then Displaced(d, n, file) else d.OccupantFixed()
    ensures d.rebinds == old(d.rebinds) ==>
              && (ok ==> Some(d.disk.live.staged[n]) == old(d.disk.live.receipt))
              && (!ok ==> d.disk == old(d.disk))
              && (d.faults == old(d.faults) && old(d.disk.live.receipt).Some? ==> ok)
    ensures d.rebinds == old(d.rebinds) && old(d.disk.Within(view)) ==>
              if ok
              then d.Ranges(|old(d.trace)|, |d.trace| - 1, view) && d.disk.Within(view.Turned(Some(raw)))
              else d.CrashesWithin(|old(d.trace)|, view)
    ensures ok ==> d.faults == old(d.faults)
  {
    hide Disk.Within, Disk.Valid, Disk.NeverFixed, Disk.Named, Disk.Unbindable, Fixed;
    ok := d.Check();
    if ok {
      ghost var mid;
      ok, mid := d.ExchangeWithReceipt(n);
      if ok && mid.Within(view) { Turn(mid, d.disk, view, Some(raw)); }
    }
  }

  /** Stage the replacement and exchange it with the fixed name. */
  method StageAndExchange(d: Directory, replacement: Bytes, ghost view: View)
    returns (r: Option<(nat, File)>)
    requires d.Valid()
    modifies d
    ensures d.Follows()
    ensures forall f | f in old(d.disk.files) :: f in d.disk.files && d.disk.files[f] == old(d.disk.files)[f]
    ensures r.Some? ==> var (n, file) := r.value;
              && file.Own? && file.inode !in old(d.disk.files) && d.disk.Settled(file, replacement)
              && d.disk.live.receipt == Some(file) && n in d.disk.live.staged
              && |d.trace| > |old(d.trace)| + 1 && d.trace[|d.trace| - 1] == d.disk
              && d.trace[|d.trace| - 2].live.receipt == Some(d.disk.live.staged[n])
    ensures old(d.OccupantFixed()) ==> if r.Some? then Displaced(d, r.value.0, r.value.1) else d.OccupantFixed()
    ensures d.rebinds == old(d.rebinds) ==>
              if r.Some? then Some(d.disk.live.staged[r.value.0]) == old(d.disk.live.receipt)
              else d.disk.live.receipt == old(d.disk.live.receipt)
    ensures d.rebinds == old(d.rebinds) && d.faults == old(d.faults) && old(d.disk.live.receipt).Some? ==> r.Some?
    ensures d.rebinds == old(d.rebinds) && old(d.disk.live.receipt).Some? && r.None?
              && d.faults <= old(d.faults) + 1 ==>
              d.disk.live.staged == old(d.disk.live.staged)
    ensures d.rebinds == old(d.rebinds) && old(d.disk.Within(view)) ==>
              if r.Some?
              then d.Ranges(|old(d.trace)|, |d.trace| - 1, view) && d.disk.Within(view.Turned(Some(replacement)))
              else d.CrashesWithin(|old(d.trace)|, view)
    ensures r.Some? ==> d.faults == old(d.faults)
    ensures r.Some? ==> d.disk.live.staged.Keys == old(d.disk.live.staged).Keys + {r.value.0}
    ensures r.Some? ==> r.value.0 !in old(d.disk.live.staged)
  {
    hide Disk.Within, Disk.Valid, Disk.NeverFixed, Disk.Named, Disk.Unbindable, Fixed;
    var staged := PrepareTemporary(d, replacement, view);
    if staged.None? { return None; }
    var (n, file) := staged.value;
    var ok := Exchange(d, n, file, replacement, view);
    if ok { return staged; }
    ok := RemoveKnown(d, n, file, replacement, view);
    return None;
  }

  /** Both sides of the exchange are read back, and the fixed name once more. */
  method VerifyExchange(d: Directory, n: nat, prior: Snapshot, file: File, raw: Bytes, ghost view: View)
    returns (ok: bool)
    requires d.Valid()
    modifies d
    ensures d.Follows() && d.disk.files == old(d.disk.files) && d.disk.live.staged == old(d.disk.live.staged)
    ensures ok ==> d.disk.Holds(n, prior.file) && d.disk.live.receipt == Some(file)
    ensures old(Displaced(d, n, file)) ==> Displaced(d, n, file)
    ensures d.rebinds == old(d.rebinds) ==> d.disk == old(d.disk)
    ensures d.rebinds == old(d.rebinds) && d.faults == old(d.faults)
            && old(Swapped(d.disk, n, prior, file) && d.disk.Settled(file, raw)) ==>
              ok
    ensures d.rebinds == old(d.rebinds) && old(d.disk.Within(view)) ==> d.CrashesWithin(|old(d.trace)|, view)
    // Three reads: the displaced file, and twice the fixed name.
    ensures ok ==> d.faults == old(d.faults) && |d.trace| == |old(d.trace)| + 3
    ensures ok ==> d.trace[|d.trace| - 2].live.receipt == d.trace[|d.trace| - 1].live.receipt == Some(file)
  {
    hide Disk.Within, Disk.Valid, Disk.NeverFixed, Disk.Named, Disk.Unbindable, Fixed;
    var displaced := d.StagedMatches(n, prior.file, prior.raw);
    var installed := d.ReceiptMatches(file, raw);
    ok := displaced && installed;
    if ok { ok := d.ReceiptMatches(file, raw); }
  }

  /** Drop the displaced prior receipt once the replacement is verified in place, or undo. */
  method CommitOrRestore(d: Directory, n: nat, prior: Snapshot, file: File, raw: Bytes, ghost view: View)
    returns (installed: bool, ghost emptied: nat)
    requires d.Valid() && d.disk.Settled(file, raw) && prior.file.Own?
    modifies d
    ensures d.Follows() && d.disk.files == old(d.disk.files)
    ensures installed ==> old(d.disk.Holds(n, prior.file))
    ensures d.faults == old(d.faults) && old(Displaced(d, n, file)) ==> d.OccupantFixed()
    ensures d.rebinds == old(d.rebinds) && old(Swapped(d.disk, n, prior, file)) ==>
              && (installed ==> d.disk.live.receipt == Some(file))
              && (!installed ==> d.disk.live.receipt == Some(prior.file) || d.disk.Holds(n, prior.file))
              && (d.faults == old(d.faults) ==> installed)
              && (d.faults <= old(d.faults) + 1 && !installed ==>
                    d.disk.live.receipt == Some(prior.file) && d.disk.Within(Exactly(Some(prior.raw))))
    ensures d.rebinds == old(d.rebinds) && old(Swapped(d.disk, n, prior, file) && d.disk.Within(view))
            && {Some(raw), Some(prior.raw)} <= view.later ==>
              && Window(d, |old(d.trace)|, emptied, view) && Losable(d, emptied)
              && (installed ==> emptied == |d.trace|)
              && (emptied < |d.trace| ==> d.disk.Unbindable() || d.disk.Within(Exactly(Some(prior.raw))))
    ensures installed ==> d.faults == old(d.faults) && d.disk.live.staged == old(d.disk.live.staged) - {n}
  {
    hide Disk.Within, Disk.Valid, Disk.NeverFixed, Disk.Named, Disk.Unbindable, Fixed;
    installed := VerifyExchange(d, n, prior, file, raw, view);
    if installed { installed := RemoveKnown(d, n, prior.file, prior.raw, view); }
    emptied := |d.trace|;
    if !installed {
      var restored;
      restored, emptied := RestoreExchange(d, n, file, raw, prior, view);
    }
  }

  /** Replace the fixed receipt: it succeeds only if one atomic step turned exactly the prior receipt
      into the replacement. `exchanged` and `emptied` are the points at which the exchange, and the first
      rename of a restore, took effect; the end of the trace stands for never. */
  method AtomicReplaceReceipt(d: Directory, prior: Snapshot, replacement: Bytes, ghost view: View)
    returns (r: Option<File>, ghost exchanged: nat, ghost emptied: nat)
    requires d.Valid() && d.disk.Settled(prior.file, prior.raw)
    modifies d
    ensures d.Follows()
    // Old files keep their bytes.
    ensures forall f | f in old(d.disk.files) :: f in d.disk.files && d.disk.files[f] == old(d.disk.files)[f]
    // Compare-and-swap, against any foreign rebinding.
    ensures r.Some? ==> exists k | |old(d.trace)| < k < |d.trace| ::
                d.trace[k - 1].live.receipt == Some(prior.file) && d.trace[k].live.receipt == r
    ensures r.Some? ==> d.disk.Settled(r.value, replacement)
    // A foreign file last left at the fixed name is still there, however the calls interleave.
    ensures d.faults == old(d.faults) && old(d.OccupantFixed()) ==> d.OccupantFixed()
    // Undisturbed: success is durable, failure leaves the prior receipt named.
    ensures d.rebinds == old(d.rebinds) && old(d.disk.live.receipt == Some(prior.file)) ==>
              && (r.Some? ==> d.disk.live.receipt == r && d.disk.Within(Exactly(Some(replacement))))
              && (d.disk.Named(prior.file) || Fixed(d.disk) == Some(replacement))
              && (d.faults == old(d.faults) ==> r.Some?)
              && (d.faults <= old(d.faults) + 1 ==>
                  Fixed(d.disk) == Some(prior.raw) || Fixed(d.disk) == Some(replacement))
    // Undisturbed, every crash point: nothing new before the exchange, then the replacement, and the fixed
    // name can be lost only once a restore has moved the replacement away again.
    ensures d.rebinds == old(d.rebinds) && old(d.disk.live.receipt == Some(prior.file) && d.disk.Within(view)) ==>
              && |old(d.trace)| <= exchanged <= emptied <= |d.trace|
              && d.Ranges(|old(d.trace)|, exchanged, view)
              && (exchanged == |d.trace| ==> r.None? && d.disk.Within(view))
              && (exchanged < |d.trace| ==>
                    && |old(d.trace)| < exchanged && d.trace[exchanged - 1].live.receipt == Some(prior.file)
                    && Window(d, exchanged, emptied, view.Turned(Some(replacement))) && Losable(d, emptied))
              && (r.Some? ==> emptied == |d.trace|)
              && (emptied < |d.trace| ==> d.disk.Unbindable() || d.disk.Within(Exactly(Some(prior.raw))))
              // One failing call never leaves the window open.
              && (d.faults <= old(d.faults) + 1 && emptied < |d.trace| ==> d.disk.Within(Exactly(Some(prior.raw))))
    // Success means that no call failed, that nothing is left beside it, and that all of it is durable.
    ensures r.Some? ==> d.faults == old(d.faults) && d.disk.past == []
    ensures r.Some? ==> d.disk.live.staged.Keys == old(d.disk.live.staged).Keys
  {
    hide Disk.Within, Disk.Valid, Disk.NeverFixed, Disk.Unbindable;
    var staged := StageAndExchange(d, replacement, view);
    if staged.None? { return None, |d.trace|, |d.trace|; }
    var (n, file) := staged.value;
    exchanged := |d.trace| - 1;
    ghost var turned := view.Turned(Some(replacement));
    if old(d.disk.Within(view)) { WithinNow(old(d.disk), view); }
    ghost var start := |d.trace|;
    var installed;
    installed, emptied := CommitOrRestore(d, n, prior, file, replacement, turned);
    if !installed { return None, exchanged, emptied; }
    var ok := SyncDirectory(d, turned);
    emptied := |d.trace|;
    assert d.trace[start - 2].live.receipt == Some(prior.file) && d.trace[start - 1].live.receipt == Some(file);
    r := if ok then Some(file) else None;
  }

  // ----- Creation

  /** Exclusive rename of the staged file to the fixed name; the staged file goes if that fails. */
  method PublishStaged(d: Directory, n: nat, file: File, raw: Bytes, ghost view: View)
    returns (ok: bool)
    requires d.Valid() && d.disk.Settled(file, raw) && d.disk.Holds(n, file)
    modifies d
    ensures d.Follows() && d.disk.files == old(d.disk.files)
    ensures ok ==> |d.trace| > |old(d.trace)| + 1 && d.trace[|d.trace| - 1] == d.disk
                   && d.trace[|d.trace| - 2].live.receipt == None && d.disk.live.receipt == Some(file)
    ensures ok ==> d.disk.live.staged == old(d.disk.live.staged) - {n}
    ensures old(d.OccupantFixed()) ==> d.OccupantFixed()
    ensures d.rebinds == old(d.rebinds) ==>
              && (ok ==> old(d.disk.live.receipt) == None && d.disk.live.receipt == Some(file))
              && (!ok ==> d.disk.live.receipt == old(d.disk.live.receipt))
              && (d.faults == old(d.faults) && old(d.disk.live.receipt) == None ==> ok)
    // Unpublished, the temporary is removed again.
    ensures d.rebinds == old(d.rebinds) && !ok
            && d.faults <= old(d.faults) + (if old(d.disk.live.receipt) == None then 1 else 0) ==>
              d.disk.live.staged == old(d.disk.live.staged) - {n}
    ensures d.rebinds == old(d.rebinds) && old(d.disk.Within(view)) ==>
              if ok
              then d.Ranges(|old(d.trace)|, |d.trace| - 1, view) && d.disk.Within(view.Turned(Some(raw)))
              else d.CrashesWithin(|old(d.trace)|, view)
    ensures ok ==> d.faults == old(d.faults)
  {
    hide Disk.Within, Disk.Valid, Disk.NeverFixed, Disk.Named, Disk.Unbindable, Fixed;
    ghost var mid;
    ok := d.Check();
    if ok {
      ok, mid := d.MoveToReceipt(n);
      if ok && mid.Within(view) && d.disk.live.receipt == Some(file) { Turn(mid, d.disk, view, Some(raw)); }
    }
    if !ok { var removed := RemoveKnown(d, n, file, raw, view); }
  }

  /** Read the published receipt back, then sync. */
  method ConfirmPublished(d: Directory, file: File, raw: Bytes, ghost view: View)
    returns (ok: bool)
    requires d.Valid() && d.disk.Settled(file, raw)
    modifies d
    ensures d.Follows() && d.disk.files == old(d.disk.files) && d.disk.live.staged == old(d.disk.live.staged)
    ensures |d.trace| > |old(d.trace)|
    ensures ok ==> d.faults == old(d.faults) && d.trace[|old(d.trace)|].live.receipt == Some(file) && d.disk.past == []
    ensures old(d.OccupantFixed()) ==> d.OccupantFixed()
    ensures d.rebinds == old(d.rebinds) ==>
              && d.disk.live == old(d.disk.live) && Fixed(d.disk) == old(Fixed(d.disk))
              && (ok && d.disk.live.receipt == Some(file) ==> d.disk.Within(Exactly(Some(raw))))
              && (d.faults == old(d.faults) && d.disk.live.receipt == Some(file) ==> ok)
    ensures d.rebinds == old(d.rebinds) && old(d.disk.Within(view)) ==> d.CrashesWithin(|old(d.trace)|, view)
  {
    hide Disk.Within, Disk.Valid, Disk.NeverFixed, Disk.Named, Disk.Unbindable, Fixed;
    ok := d.ReceiptMatches(file, raw);
    if ok { ok := SyncDirectory(d, view); }
  }

  /** Publish the first receipt; an occupied fixed name is never touched. `published` is the point at which
      the rename took effect; the end of the trace stands for never. */
  method AtomicCreateReceipt(d: Directory, raw: Bytes, ghost view: View)
    returns (r: Option<File>, ghost published: nat)
    requires d.Valid()
    modifies d
    ensures d.Follows()
    ensures forall f | f in old(d.disk.files) :: f in d.disk.files && d.disk.files[f] == old(d.disk.files)[f]
    ensures r.Some? ==> d.disk.Settled(r.value, raw) && r.value.inode !in old(d.disk.files)
    // Against any foreign rebinding, the new file went to an unbound name, and was seen there once more.
    ensures r.Some? ==> exists k | |old(d.trace)| < k < |d.trace| - 1 ::
                d.trace[k - 1].live.receipt == None && d.trace[k].live.receipt == r && d.trace[k + 1].live.receipt == r
    ensures old(d.OccupantFixed()) ==> d.OccupantFixed()
    ensures d.rebinds == old(d.rebinds) ==>
              && (r.Some? ==> old(d.disk.live.receipt) == None && d.disk.live.receipt == r)
              && (r.Some? ==> d.disk.Within(Exactly(Some(raw))))
              && (d.disk.live.receipt == old(d.disk.live.receipt)
                  || (old(d.disk.live.receipt) == None && Fixed(d.disk) == Some(raw)))
              && (d.faults == old(d.faults) && old(d.disk.live.receipt) == None ==> r.Some?)
    // Undisturbed, a temporary that is not published is removed again, unless that fails too.
    ensures d.rebinds == old(d.rebinds) && published == |d.trace|
            && d.faults <= old(d.faults) + (if old(d.disk.live.receipt) == None then 1 else 0) ==>
              d.disk.live.staged == old(d.disk.live.staged)
    // Undisturbed, every crash point: nothing new before the rename, then the complete receipt.
    ensures d.rebinds == old(d.rebinds) && old(d.disk.Within(view)) ==>
              && |old(d.trace)| <= published <= |d.trace|
              && d.Ranges(|old(d.trace)|, published, view)
              && (published == |d.trace| ==> r.None? && d.disk.Within(view))
              && (published < |d.trace| ==>
                    && |old(d.trace)| < published && d.trace[published - 1].live.receipt == None
                    && d.CrashesWithin(published, view.Turned(Some(raw))))
    // Success means that no call failed, that nothing is left beside it, and that all of it is durable.
    ensures r.Some? ==> d.faults == old(d.faults) && d.disk.past == []
    ensures r.Some? ==> d.disk.live.staged.Keys == old(d.disk.live.staged).Keys
  {
    hide Disk.Within, Disk.Valid, Disk.NeverFixed, Disk.Named, Disk.Unbindable;
    var staged := PrepareTemporary(d, raw, view);
    if staged.None? { return None, |d.trace|; }
    var (n, file) := staged.value;
    var ok := PublishStaged(d, n, file, raw, view);
    if !ok { return None, |d.trace|; }
    published := |d.trace| - 1;
    ok := ConfirmPublished(d, file, raw, view.Turned(Some(raw)));
    assert d.trace[published - 1].live.receipt == None && d.trace[published].live.receipt == Some(file);
    r := if ok then Some(file) else None;
  }

  // ----- Terminal removal

  method MoveAside(d: Directory, ghost view: View)
    returns (r: Option<nat>, ghost at: nat)
    requires d.Valid()
    modifies d
    ensures d.Follows() && d.disk.files == old(d.disk.files)
    ensures forall k | |old(d.trace)| <= k < |d.trace| :: d.trace[k].files == d.disk.files
    ensures r.Some? ==> d.disk.live.receipt == None && r.value in d.disk.live.staged
    ensures r.Some? ==> at == |d.trace| - 1 > |old(d.trace)| && d.trace[at] == d.disk
                        && d.trace[at - 1].live.receipt == Some(d.disk.live.staged[r.value])
    ensures old(d.OccupantFixed()) ==> if r.Some? then Aside(d, r.value) else d.OccupantFixed()
    ensures d.rebinds == old(d.rebinds) ==>
              if r.Some? then Some(d.disk.live.staged[r.value]) == old(d.disk.live.receipt)
                  else d.disk.live.receipt == old(d.disk.live.receipt)
    ensures d.rebinds == old(d.rebinds) && d.faults == old(d.faults) && old(d.disk.live.receipt).Some? ==> r.Some?
    ensures d.rebinds == old(d.rebinds) && old(d.disk.Within(view)) ==>
              if r.Some?
              then d.Ranges(|old(d.trace)|, at, view) && d.disk.Within(view.Turned(None))
              else d.CrashesWithin(|old(d.trace)|, view)
    ensures r.Some? ==> d.faults == old(d.faults) && d.disk.live.staged.Keys == old(d.disk.live.staged).Keys + {r.value}
    ensures r.Some? ==> r.value !in old(d.disk.live.staged)
  {
    hide Disk.Within, Disk.Valid, Disk.NeverFixed, Disk.Named, Disk.Unbindable, Fixed;
    var quarantine := d.FreshName();
    var ok := d.Check();
    if ok { ok := MoveAway(d, quarantine, view); }
    at := |d.trace| - 1;
    return if ok then Some(quarantine) else None, at;
  }

  /** Authenticate the moved file, see the fixed name empty, and make that durable. */
  method ValidateMoved(d: Directory, quarantine: nat, prior: Snapshot, ghost view: View)
    returns (ok: bool)
    requires d.Valid() && d.disk.Settled(prior.file, prior.raw)
    modifies d
    ensures d.Follows() && d.disk.files == old(d.disk.files) && d.disk.live.staged == old(d.disk.live.staged)
    ensures forall k | |old(d.trace)| <= k < |d.trace| :: d.trace[k].files == d.disk.files
    ensures ok ==> d.disk.Holds(quarantine, prior.file) && d.disk.NeverFixed(prior.file)
    ensures old(Aside(d, quarantine)) ==> Aside(d, quarantine)
    ensures d.rebinds == old(d.rebinds) ==>
              d.disk.live == old(d.disk.live)
                  && forall k | |old(d.trace)| <= k < |d.trace| :: d.trace[k].live == d.disk.live
    ensures d.rebinds == old(d.rebinds) && old(d.disk.live.receipt) == None ==>
              && (ok ==> d.disk.Within(Exactly(None)))
              && (d.faults == old(d.faults) && old(d.disk.Holds(quarantine, prior.file)) ==> ok)
    ensures d.rebinds == old(d.rebinds) && old(d.disk.Within(view)) ==> d.CrashesWithin(|old(d.trace)|, view)
    ensures ok ==> d.faults == old(d.faults) && d.disk.past == []
  {
    hide Disk.Within, Disk.Valid, Disk.Named, Disk.Unbindable, Fixed;
    ok := d.StagedMatches(quarantine, prior.file, prior.raw);
    if ok { ok := d.ReceiptAbsent(); }
    ghost var mid;
    if ok { ok, mid := d.FsyncDirectory(); }
  }

  /** Move the quarantined file back by an exclusive rename. */
  method PutBack(d: Directory, quarantine: nat, prior: Snapshot, ghost view: View)
    requires d.Valid() && d.disk.Settled(prior.file, prior.raw)
    modifies d
    ensures d.Follows() && d.disk.files == old(d.disk.files)
    ensures forall k | |old(d.trace)| <= k < |d.trace| :: d.trace[k].files == d.disk.files
    ensures d.faults == old(d.faults) && old(Aside(d, quarantine)) ==> d.OccupantFixed()
    ensures d.rebinds == old(d.rebinds) && old(d.disk.live.receipt == None && d.disk.Holds(quarantine, prior.file)) ==>
              && (d.disk.live.receipt == None || d.disk.live.receipt == Some(prior.file)) && Settling(d, |old(d.trace)|)
              && (old(d.disk.Within(view.Turned(None))) && Some(prior.raw) in view.later ==>
                    d.CrashesWithin(|old(d.trace)|, view.Lost(Fixed(d.disk))))
    ensures d.rebinds == old(d.rebinds) && d.faults == old(d.faults)
            && old(d.disk.live.receipt == None && d.disk.Holds(quarantine, prior.file)) ==>
              d.disk.live.receipt == Some(prior.file) && d.disk.past == []
    ensures d.disk.live.staged == old(d.disk.live.staged) && quarantine in d.disk.live.staged ==>
              |d.trace| == |old(d.trace)| + 2
  {
    hide Disk.Within, Disk.Valid, Disk.NeverFixed, Disk.Named, Disk.Unbindable, Fixed;
    var ok := MoveBack(d, quarantine, prior.raw, view);
    if ok { ok := SyncDirectory(d, view.Lost(Fixed(d.disk))); }
  }

  /** Authenticate the moved receipt and make its absence durable, or move it back. */
  method ConfirmMoved(d: Directory, quarantine: nat, prior: Snapshot, ghost view: View)
    returns (ok: bool)
    requires d.Valid() && d.disk.Settled(prior.file, prior.raw)
    modifies d
    ensures d.Follows() && d.disk.files == old(d.disk.files)
    ensures forall k | |old(d.trace)| <= k < |d.trace| :: d.trace[k].files == d.disk.files
    ensures ok ==> d.disk.live.staged == old(d.disk.live.staged)
    ensures ok ==> d.disk.Holds(quarantine, prior.file) && d.disk.NeverFixed(prior.file)
    ensures d.faults == old(d.faults) && old(Aside(d, quarantine)) ==> d.OccupantFixed()
    ensures d.rebinds == old(d.rebinds) && old(d.disk.live.receipt == None && d.disk.Holds(quarantine, prior.file)) ==>
              && (ok ==> d.disk.live.receipt == None && d.disk.Within(Exactly(None)))
              && (!ok ==> d.disk.live.receipt == None || d.disk.live.receipt == Some(prior.file))
              && (d.faults == old(d.faults) ==> ok) && Settling(d, |old(d.trace)|)
              && (old(d.disk.Within(view.Turned(None))) && Some(prior.raw) in view.later ==>
                    d.CrashesWithin(|old(d.trace)|, view.Lost(Fixed(d.disk))))
    ensures ok ==> d.faults == old(d.faults) && d.disk.past == []
  {
    hide Disk.Within, Disk.Valid, Disk.NeverFixed, Disk.Named, Disk.Unbindable, Fixed;
    ghost var start := |d.trace|;
    ok := ValidateMoved(d, quarantine, prior, view.Turned(None));
    if d.disk.live.receipt == None { UnboundShowsNone(d.disk); }
    LostIsTurned(view);
    if !ok {
      ghost var middle := |d.trace|;
      PutBack(d, quarantine, prior, view);
      if d.Ranges(start, middle, view.Turned(None)) {
        RangesWider(d, start, middle, view.Turned(None), view.Lost(Fixed(d.disk)));
      }
    }
  }

  /** Move the fixed receipt aside, authenticate it there, and make its absence durable; otherwise
      move it back, never over anything. */
  method TakeTerminal(d: Directory, prior: Snapshot, ghost view: View)
    returns (r: Option<nat>, ghost moved: nat)
    requires d.Valid() && d.disk.Settled(prior.file, prior.raw)
    modifies d
    ensures d.Follows() && d.disk.files == old(d.disk.files)
    ensures forall k | |old(d.trace)| <= k < |d.trace| :: d.trace[k].files == d.disk.files
    ensures r.Some? ==> d.disk.Holds(r.value, prior.file) && d.disk.NeverFixed(prior.file)
    ensures r.Some? ==> exists k | |old(d.trace)| < k < |d.trace| ::
                d.trace[k - 1].live.receipt == Some(prior.file) && d.trace[k].live.receipt == None
    ensures d.faults == old(d.faults) && old(d.OccupantFixed()) ==> d.OccupantFixed()
    ensures d.rebinds == old(d.rebinds) && old(d.disk.live.receipt == Some(prior.file)) ==>
              && (r.Some? ==> d.disk.live.receipt == None && d.disk.Within(Exactly(None)))
              && (r.None? ==> d.disk.live.receipt == None || d.disk.live.receipt == Some(prior.file))
              && (d.faults == old(d.faults) ==> r.Some?)
    ensures d.rebinds == old(d.rebinds) && old(d.disk.live.receipt == Some(prior.file) && d.disk.Within(view)) ==>
              Window(d, |old(d.trace)|, moved, view) && (r.Some? ==> moved < |d.trace|)
    ensures r.Some? ==> d.faults == old(d.faults) && d.disk.live.staged.Keys == old(d.disk.live.staged).Keys + {r.value}
    ensures r.Some? ==> r.value !in old(d.disk.live.staged)
  {
    hide Disk.Within, Disk.Valid, Disk.NeverFixed, Disk.Named, Disk.Unbindable, Fixed;
    if old(d.disk.Within(view) && d.disk.live.receipt == Some(prior.file)) { ShowsSettled(old(d.disk), prior, view); }
    r, moved := MoveAside(d, view);
    if r.None? { return None, |d.trace|; }
    ghost var aside := d.disk;
    var ok := ConfirmMoved(d, r.value, prior, view);
    if aside.Within(view.Turned(None)) { WithinWider(aside, view.Turned(None), view.Lost(Fixed(d.disk))); }
    if !ok { return None, moved; }
    assert d.trace[moved - 1].live.receipt == Some(prior.file) && d.trace[moved].live.receipt == None;
  }

  /** Truncate the file and make that durable. */
  method EmptyFile(d: Directory, prior: Snapshot, ghost view: View)
    returns (ok: bool)
    requires d.Valid() && d.disk.Settled(prior.file, prior.raw) && d.disk.NeverFixed(prior.file)
    modifies d
    ensures d.Follows() && d.disk.live.staged == old(d.disk.live.staged)
    ensures d.disk.files.Keys == old(d.disk.files.Keys)
    ensures forall g | g in d.disk.files && g != prior.file.inode :: d.disk.files[g] == old(d.disk.files)[g]
    ensures d.disk.NeverFixed(prior.file)
              && forall k | |old(d.trace)| <= k < |d.trace| :: d.trace[k].NeverFixed(prior.file)
    ensures ok ==> d.disk.Settled(prior.file, [])
    ensures old(d.OccupantFixed()) ==> d.OccupantFixed()
    ensures d.faults == old(d.faults) ==> ok
    ensures d.rebinds == old(d.rebinds) ==>
              d.disk.live == old(d.disk.live)
                  && forall k | |old(d.trace)| <= k < |d.trace| :: d.trace[k].live == d.disk.live
    ensures d.rebinds == old(d.rebinds) && old(d.disk.Within(view)) ==> d.CrashesWithin(|old(d.trace)|, view)
    ensures ok ==> d.faults == old(d.faults)
  {
    hide Disk.Within, Disk.Valid, Disk.NeverFixed, Disk.Named, Disk.Unbindable, Fixed;
    ghost var mid;
    ok, mid := d.Truncate(prior.file.inode);
    if ok { ok, mid := d.FsyncFile(prior.file.inode); }
  }

  /** Empty the authenticated inode. The fixed name cannot come back bound to it any more. */
  method WipeQuarantined(d: Directory, prior: Snapshot, ghost view: View)
    returns (ok: bool)
    requires d.Valid() && d.disk.Settled(prior.file, prior.raw) && d.disk.NeverFixed(prior.file)
    modifies d
    ensures d.Follows() && d.disk.live.staged == old(d.disk.live.staged)
    ensures d.disk.files.Keys == old(d.disk.files.Keys)
    ensures forall g | g in d.disk.files && g != prior.file.inode :: d.disk.files[g] == old(d.disk.files)[g]
    ensures d.disk.NeverFixed(prior.file)
    ensures forall k | |old(d.trace)| <= k < |d.trace| :: d.trace[k].NeverFixed(prior.file)
    ensures ok ==> d.disk.Settled(prior.file, [])
    ensures old(d.OccupantFixed()) ==> d.OccupantFixed()
    ensures d.faults == old(d.faults) ==> ok
    ensures d.rebinds == old(d.rebinds) ==>
              d.disk.live == old(d.disk.live)
                  && forall k | |old(d.trace)| <= k < |d.trace| :: d.trace[k].live == d.disk.live
    ensures d.rebinds == old(d.rebinds) && old(d.disk.Within(view)) ==> d.CrashesWithin(|old(d.trace)|, view)
    ensures ok ==> d.faults == old(d.faults) && d.disk.past == []
  {
    hide Disk.Within, Disk.Valid, Disk.NeverFixed, Disk.Named, Disk.Unbindable, Fixed;
    ok := EmptyFile(d, prior, view);
    if ok {
      ghost var mid;
      ok, mid := d.FsyncDirectory();
    }
  }

  /** Unlink the empty quarantine; a changed name is left alone. */
  method DropTombstone(d: Directory, quarantine: nat, file: File, ghost view: View)
    returns (ok: bool)
    requires d.Valid() && d.disk.NeverFixed(file) && file.Own?
    modifies d
    ensures d.Follows() && d.disk.files == old(d.disk.files)
    ensures forall k | |old(d.trace)| <= k < |d.trace| :: d.trace[k].NeverFixed(file)
    ensures d.disk.NeverFixed(file)
    ensures old(d.OccupantFixed()) ==> d.OccupantFixed()
    ensures d.faults == old(d.faults) ==> ok
    ensures d.rebinds == old(d.rebinds) ==>
              && d.disk.live.receipt == old(d.disk.live.receipt)
              && forall k | |old(d.trace)| <= k < |d.trace| :: d.trace[k].live.receipt == d.disk.live.receipt
    ensures d.rebinds == old(d.rebinds) && old(d.disk.Within(view)) ==> d.CrashesWithin(|old(d.trace)|, view)
    // The emptied file goes, and durably; a name that reads otherwise stays, after no more than that read.
    ensures ok && d.disk.live.staged == old(d.disk.live.staged) && quarantine in d.disk.live.staged ==>
              |d.trace| == |old(d.trace)| + 1
    ensures d.disk.live.staged == old(d.disk.live.staged)
              || d.disk.live.staged == old(d.disk.live.staged) - {quarantine}
    ensures ok ==> d.faults == old(d.faults) || d.disk.live.staged == old(d.disk.live.staged)
    ensures d.faults == old(d.faults) && old(d.disk.Holds(quarantine, file) && d.disk.Settled(file, [])) ==>
              quarantine !in d.disk.live.staged && d.disk.past == []
  {
    hide Disk.Within, Disk.Valid, Disk.NeverFixed, Disk.Named, Disk.Unbindable, Fixed;
    var empty := d.StagedMatches(quarantine, file, []);
    if !empty { return true; }
    ghost var mid;
    ok, mid := d.Unlink(quarantine);
    if ok { ok, mid := d.FsyncDirectory(); }
  }

  /** Empty the quarantined file and unlink it. */
  method Discard(d: Directory, quarantine: nat, prior: Snapshot, ghost view: View)
    returns (ok: bool)
    requires d.Valid() && d.disk.Settled(prior.file, prior.raw) && d.disk.NeverFixed(prior.file)
    modifies d
    ensures d.Follows() && d.disk.files.Keys == old(d.disk.files.Keys)
    ensures forall g | g in d.disk.files && g != prior.file.inode :: d.disk.files[g] == old(d.disk.files)[g]
    ensures d.disk.NeverFixed(prior.file)
              && forall k | |old(d.trace)| <= k < |d.trace| :: d.trace[k].NeverFixed(prior.file)
    ensures old(d.OccupantFixed()) ==> d.OccupantFixed()
    ensures d.faults == old(d.faults) ==> ok
    ensures d.rebinds == old(d.rebinds) ==>
              && d.disk.live.receipt == old(d.disk.live.receipt)
              && forall k | |old(d.trace)| <= k < |d.trace| :: d.trace[k].live.receipt == d.disk.live.receipt
    ensures d.rebinds == old(d.rebinds) && old(d.disk.Within(Exactly(None))) ==>
              d.disk.Within(Exactly(None)) && d.CrashesWithin(|old(d.trace)|, view.Lost(Fixed(d.disk)))
    // The inode is emptied durably, and then its name goes.
    ensures ok ==> d.disk.Settled(prior.file, [])
    ensures d.faults == old(d.faults) && old(d.disk.Holds(quarantine, prior.file)) ==>
              d.disk.live.staged == old(d.disk.live.staged) - {quarantine} && d.disk.past == []
  {
    hide Disk.Within, Disk.Valid, Disk.NeverFixed, Disk.Named, Disk.Unbindable, Fixed, Directory.OccupantFixed;
    ghost var start := |d.trace|;
    ok := WipeQuarantined(d, prior, Exactly(None));
    if ok { ok := DropTombstone(d, quarantine, prior.file, Exactly(None)); }
    if d.CrashesWithin(start, Exactly(None)) {
      WithinNow(d.disk, Exactly(None));
      WithinWider(d.disk, Exactly(None), view.Lost(Fixed(d.disk)));
      RangesWider(d, start, |d.trace|, Exactly(None), view.Lost(Fixed(d.disk)));
    }
  }

  /** Remove the terminal receipt: the fixed name is durably empty before the inode is wiped. */
  method RemoveReceiptCas(d: Directory, prior: Snapshot, ghost view: View)
    returns (ok: bool, ghost moved: nat)
    requires d.Valid() && d.disk.Settled(prior.file, prior.raw)
    modifies d
    ensures d.Follows()
    // Only the authenticated inode is ever wiped.
    ensures forall f | f in old(d.disk.files) && f != prior.file.inode ::
              f in d.disk.files && d.disk.files[f] == old(d.disk.files)[f]
    // Whatever else happens, a power loss never finds the fixed name on the wiped inode.
    ensures d.StaysIntact(|old(d.trace)|, prior.file, prior.raw)
    ensures ok ==> exists k | |old(d.trace)| < k < |d.trace| ::
                d.trace[k - 1].live.receipt == Some(prior.file) && d.trace[k].live.receipt == None
    ensures d.faults == old(d.faults) && old(d.OccupantFixed()) ==> d.OccupantFixed()
    ensures d.rebinds == old(d.rebinds) && old(d.disk.live.receipt == Some(prior.file)) ==>
              && (ok ==> d.disk.live.receipt == None && d.disk.Within(Exactly(None)))
              && (d.disk.live.receipt == None || d.disk.live.receipt == Some(prior.file))
              && (d.faults == old(d.faults) ==> ok)
    // Undisturbed, every crash point: nothing new before the rename; then the complete terminal receipt
    // or nothing.
    ensures d.rebinds == old(d.rebinds) && old(d.disk.live.receipt == Some(prior.file) && d.disk.Within(view)) ==>
              Window(d, |old(d.trace)|, moved, view) && (ok ==> moved < |d.trace|)
    // Success means that the inode is durably empty, and without failures nothing is left beside it.
    ensures ok ==> d.disk.Settled(prior.file, [])
    ensures ok && d.faults == old(d.faults) ==>
              d.disk.live.staged.Keys == old(d.disk.live.staged).Keys && d.disk.past == []
  {
    hide Disk.Within, Disk.Valid, Disk.NeverFixed, Disk.Named, Disk.Unbindable, Fixed, Directory.OccupantFixed;
    var quarantine;
    quarantine, moved := TakeTerminal(d, prior, view);
    if quarantine.None? { return false, moved; }
    if d.disk.Within(Exactly(None)) { WithinNow(d.disk, Exactly(None)); }
    ok := Discard(d, quarantine.value, prior, view);
    if d.disk.Within(Exactly(None)) { WithinNow(d.disk, Exactly(None)); }
  }

  /** Why the directory is synced first: wiping while the rename is still unsynced lets a power loss
      bring the fixed name back on the emptied inode. */
  lemma UnsyncedWipeRecoversEmpty(d: Disk, prior: Snapshot)
    requires d.Settled(prior.file, prior.raw) && forall f | f in d.files :: d.files[f] != []
    requires exists e | e in d.past :: e.receipt == Some(prior.file)
    ensures var wiped := d.(files := d.files[prior.file.inode := [prior.raw, []]]);
            exists after: Disk :: PowerLoss(wiped, after) && Fixed(after) == Some([])
  {
    var wiped := d.(files := d.files[prior.file.inode := [prior.raw, []]]);
    var e :| e in d.past && e.receipt == Some(prior.file);
    var after := Disk([], e, map f | f in wiped.files :: [if f == prior.file.inode then [] else wiped.files[f][0]]);
    assert wiped.files[prior.file.inode][1] == [];
    assert PowerLoss(wiped, after);
    assert Fixed(after) == Some([]);
  }
}
