/** Saving a checkpoint: the same directory discipline, with a checkpoint file at the fixed name and a
    rename that replaces whatever is there. */
module CheckpointFile {
  import opened Collections
  import opened Disks
  import opened ReceiptStore
  import I = Ingestion

  /** Write and sync a temporary file, rename it over the target, sync the directory. `renamed` is the
      point at which the rename took effect; the end of the trace stands for never. */
  method Save(d: Directory, raw: Bytes, ghost view: View)
    returns (ok: bool, ghost renamed: nat)
    requires d.Valid()
    modifies d
    ensures d.Follows()
    ensures forall f | f in old(d.disk.files) :: f in d.disk.files && d.disk.files[f] == old(d.disk.files)[f]
    // Undisturbed: the old value before the rename, the complete checkpoint from then on, and nothing
    // else, whatever fails and wherever a power loss strikes.
    ensures d.rebinds == old(d.rebinds) && old(d.disk.Within(view)) ==>
              && |old(d.trace)| <= renamed <= |d.trace|
              && d.Ranges(|old(d.trace)|, renamed, view)
              && (renamed == |d.trace| ==> !ok && d.disk.Within(view))
              && (renamed < |d.trace| ==> d.CrashesWithin(renamed, view.Turned(Some(raw))))
              && (ok ==> d.disk.Within(Exactly(Some(raw))))
              && (d.faults == old(d.faults) ==> ok)
  {
    hide Disk.Within, Disk.Valid, Disk.NeverFixed, Disk.Named, Disk.Unbindable, Fixed;
    var staged := PrepareTemporary(d, raw, view);
    if staged.None? { return false, |d.trace|; }
    var (n, file) := staged.value;
    ok := RenameOver(d, n, file, raw, view);
    if !ok {
      ghost var gone, mid;
      gone, mid := d.Unlink(n);
      return false, |d.trace|;
    }
    renamed := |d.trace| - 1;
    ok := SyncDirectory(d, view.Turned(Some(raw)));
  }

  method RenameOver(d: Directory, n: nat, file: File, raw: Bytes, ghost view: View)
    returns (ok: bool)
    requires d.Valid() && d.disk.Holds(n, file) && d.disk.Settled(file, raw)
    modifies d
    ensures d.Follows() && d.disk.files == old(d.disk.files)
    ensures ok ==> |d.trace| > |old(d.trace)| && d.disk.live.receipt == Some(file)
    ensures d.rebinds == old(d.rebinds) && d.faults == old(d.faults) ==> ok
    ensures d.rebinds == old(d.rebinds) && old(d.disk.Within(view)) ==>
              if ok
              then d.Ranges(|old(d.trace)|, |d.trace| - 1, view) && d.disk.Within(view.Turned(Some(raw)))
              else d.CrashesWithin(|old(d.trace)|, view)
  {
    hide Disk.Within, Disk.Valid, Disk.NeverFixed, Disk.Named, Disk.Unbindable, Fixed;
    ghost var mid;
    ok, mid := d.MoveOverReceipt(n);
    if ok && mid.Within(view) { Turn(mid, d.disk, view, Some(raw)); }
  }

  // ----- The save that ingestion relies on

  /** The file holds what ingestion takes to be stored, and may recover only what ingestion allows for. */
  ghost predicate Stores(c: Codec<I.Checkpoint>, d: Disk, stored: Option<I.Checkpoint>,
                         recoverable: set<Option<I.Checkpoint>>) {
    stored in recoverable && d.Within(View({c.Raw(stored)}, c.Raws(recoverable)))
  }

  /** Saving on the directory has exactly the effect that ingestion relies on; stopped at any point, it has
      the effect of a failed save. */
  method SaveCheckpoint(d: Directory, c: Codec<I.Checkpoint>, checkpoint: I.Checkpoint,
                        ghost stored: Option<I.Checkpoint>, ghost recoverable: set<Option<I.Checkpoint>>)
    returns (ok: bool, ghost stored': Option<I.Checkpoint>, ghost recoverable': set<Option<I.Checkpoint>>)
    requires d.Valid()
    modifies d
    ensures d.Follows()
    ensures d.rebinds == old(d.rebinds) && old(Stores(c, d.disk, stored, recoverable)) ==>
              && I.SaveEffect(checkpoint, stored, recoverable, stored', recoverable', ok)
              && Stores(c, d.disk, stored', recoverable')
              && (d.faults == old(d.faults) ==> ok)
              && forall k | |old(d.trace)| <= k < |d.trace| ::
                   FailedSave(c, d.trace[k], checkpoint, stored, recoverable)
  {
    hide Disk.Within, Disk.Valid, Fixed;
    ghost var view := View({c.Raw(stored)}, c.Raws(recoverable));
    ghost var renamed;
    ok, renamed := Save(d, c.encode(checkpoint), view);
    ghost var during := recoverable + {Some(checkpoint)};
    RawsAdd(c, recoverable, Some(checkpoint));
    stored' := if renamed < |d.trace| then Some(checkpoint) else stored;
    recoverable' := if ok then {stored'} else recoverable + {stored'};
    if d.rebinds == old(d.rebinds) && old(Stores(c, d.disk, stored, recoverable)) {
      assert recoverable + {stored} == recoverable;
      assert ok ==> View({c.Raw(stored')}, c.Raws(recoverable')) == Exactly(Some(c.encode(checkpoint)));
      forall k | |old(d.trace)| <= k < |d.trace| ensures FailedSave(c, d.trace[k], checkpoint, stored, recoverable) {
        assert Stores(c, d.trace[k], if k < renamed then stored else Some(checkpoint),
                      if k < renamed then recoverable else during);
      }
    }
  }

  /** The file as some failed save would leave it. */
  ghost predicate FailedSave(c: Codec<I.Checkpoint>, d: Disk, checkpoint: I.Checkpoint,
                             stored: Option<I.Checkpoint>, recoverable: set<Option<I.Checkpoint>>) {
    exists stored', recoverable' ::
      && I.SaveEffect(checkpoint, stored, recoverable, stored', recoverable', false)
      && Stores(c, d, stored', recoverable')
  }

  /** A load reads the stored checkpoint, and after a power loss one that ingestion allows for. */
  lemma LoadsStored(c: Codec<I.Checkpoint>, d: Disk, stored: Option<I.Checkpoint>,
                    recoverable: set<Option<I.Checkpoint>>, after: Disk)
    requires c.Faithful() && d.Valid() && Stores(c, d, stored, recoverable)
    ensures c.Read(Fixed(d)) == stored
    ensures PowerLoss(d, after) ==>
              c.Read(Fixed(after)) in recoverable && Stores(c, after, c.Read(Fixed(after)), {c.Read(Fixed(after))})
  {
    if PowerLoss(d, after) {
      var view := View({c.Raw(stored)}, c.Raws(recoverable));
      ReadsRecoverable(c, d, view.now, recoverable, after);
      PowerLossWithin(d, after, view);
      var kept := c.Read(Fixed(after));
      assert View({c.Raw(kept)}, c.Raws({kept})) == Exactly(Fixed(after));
    }
  }
}
