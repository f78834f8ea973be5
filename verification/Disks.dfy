/** The state directory as the kernel keeps it: the fixed receipt name, random staging names, what a
    power loss may leave behind, and a foreign process that may rebind the fixed name at any time. */
module Disks {
  import opened Collections

  newtype Byte = b: int | 0 <= b < 256
  type Bytes = seq<Byte>
  type Inode = nat

  /** A file of this installation, or a file another process put under the fixed name. */
  datatype File = Own(inode: Inode) | Foreign(serial: nat, bytes: Bytes)

  /** One state of the directory. */
  datatype Entries = Entries(receipt: Option<File>, staged: map<nat, File>)

  /** Values of the fixed name: those it may show now, and those a power loss may leave there. */
  datatype View = View(now: set<Option<Bytes>>, later: set<Option<Bytes>>) {
    predicate Has(values: set<Option<Bytes>>) {
      values <= now && values <= later
    }

    predicate Inside(wider: View) {
      now <= wider.now && later <= wider.later
    }

    /** The fixed name has just been turned to `value`. */
    function Turned(value: Option<Bytes>): View {
      View({value}, later + {value})
    }

    /** The fixed name was moved away, and may have been turned to `value` since. */
    function Lost(value: Option<Bytes>): View {
      View({None, value}, later + {None})
    }
  }

  function Exactly(value: Option<Bytes>): View {
    View({value}, {value})
  }

  /** `live` is the directory as it is now; `past` lists the other states, oldest first, it may be
      found in after a power loss. `files` does the same for the bytes of each own inode, with the
      current bytes last. */
  datatype Disk = Disk(past: seq<Entries>, live: Entries, files: map<Inode, seq<Bytes>>) {
    predicate Backed(file: File) {
      file.Own? ==> file.inode in files && files[file.inode] != []
    }

    /** Every name of the directory has a file. */
    predicate Lists(e: Entries) {
      && (e.receipt.Some? ==> Backed(e.receipt.value))
      && (forall n | n in e.staged :: Backed(e.staged[n]))
    }

    predicate Valid() {
      && (forall f | f in files :: files[f] != [])
      && Lists(live) && forall e | e in past :: Lists(e)
    }

    predicate Holds(n: nat, file: File) {
      n in live.staged && live.staged[n] == file
    }

    function Content(file: File): Bytes
      requires Backed(file)
    {
      match file
      case Own(f) => files[f][|files[f]| - 1]
      case Foreign(_, raw) => raw
    }

    /** The bytes of the file are durable. */
    predicate Settled(file: File, raw: Bytes) {
      file.Own? && file.inode in files && files[file.inode] == [raw]
    }

    predicate RecoversOnly(e: Entries, allowed: set<Option<Bytes>>) {
      match e.receipt
      case None => None in allowed
      case Some(Own(f)) => f in files && files[f] != [] && forall c | c in files[f] :: Some(c) in allowed
      case Some(Foreign(_, raw)) => Some(raw) in allowed
    }

    /** No power loss can leave the fixed name with a value outside `allowed`. */
    predicate OnlyRecovers(allowed: set<Option<Bytes>>) {
      RecoversOnly(live, allowed) && forall e | e in past :: RecoversOnly(e, allowed)
    }

    predicate Durable(receipt: Option<File>) {
      receipt.Some? ==> receipt.value.Own? && receipt.value.inode in files && |files[receipt.value.inode]| == 1
    }

    /** Whatever the fixed name may come back bound to is an own file with one possible content. */
    predicate FixedSettled() {
      Durable(live.receipt) && forall e | e in past :: Durable(e.receipt)
    }

    /** The fixed name shows a value of `view.now`, and after a power loss one of `view.later`. */
    predicate Within(view: View) {
      FixedSettled() && Fixed(this) in view.now && OnlyRecovers(view.later)
    }

    /** The fixed name is unbound, or was since the last directory sync. */
    predicate Unbindable() {
      live.receipt == None || exists e | e in past :: e.receipt == None
    }

    /** Wherever the fixed name may come back bound to `file`, it has exactly these durable bytes. */
    predicate Intact(file: File, raw: Bytes) {
      NeverFixed(file) || Settled(file, raw)
    }

    /** The fixed name was never bound to the file since the last directory sync. */
    predicate NeverFixed(file: File) {
      live.receipt != Some(file) && forall e | e in past :: e.receipt != Some(file)
    }

    predicate Named(file: File) {
      live.receipt == Some(file) || exists n | n in live.staged :: live.staged[n] == file
    }

    function Append(e: Entries): Disk {
      Disk(past + [live], e, files)
    }

    function Synced(): Disk {
      Disk([], live, files)
    }
  }

  /** A power loss keeps one of the possible directories and one of the possible contents of every
      inode, and nothing else. */
  predicate PowerLoss(before: Disk, after: Disk) {
    && after.past == [] && after.live in before.past + [before.live]
    && after.files.Keys == before.files.Keys
    && forall f | f in before.files :: |after.files[f]| == 1 && after.files[f][0] in before.files[f]
  }

  lemma PowerLossValid(before: Disk, after: Disk)
    requires before.Valid() && PowerLoss(before, after)
    ensures after.Valid()
  {
    assert before.Lists(after.live);
  }

  /** The value of the fixed name. */
  function Fixed(d: Disk): Option<Bytes> {
    match d.live.receipt
    case None => None
    case Some(file) => if d.Backed(file) then Some(d.Content(file)) else None
  }

  /** `OnlyRecovers` is exactly the set of values a power loss can leave at the fixed name. */
  lemma OnlyRecoversIsPowerLoss(d: Disk, allowed: set<Option<Bytes>>)
    requires d.Valid() && forall f | f in d.files :: d.files[f] != []
    ensures d.OnlyRecovers(allowed) <==>
            forall after: Disk | PowerLoss(d, after) :: Fixed(after) in allowed
  {
    forall after: Disk | PowerLoss(d, after) && d.OnlyRecovers(allowed)
      ensures Fixed(after) in allowed
    {
      assert d.RecoversOnly(after.live, allowed);
    }
    if forall after: Disk | PowerLoss(d, after) :: Fixed(after) in allowed {
      forall e | e in d.past + [d.live] ensures d.RecoversOnly(e, allowed) {
        if e.receipt.Some? && e.receipt.value.Own? {
          forall c | c in d.files[e.receipt.value.inode] ensures Some(c) in allowed {
            var after := Disk([], e, map f | f in d.files :: [if f == e.receipt.value.inode then c else d.files[f][0]]);
            assert PowerLoss(d, after);
            assert Fixed(after) == Some(c);
          }
        } else {
          var after := Disk([], e, map f | f in d.files :: [d.files[f][0]]);
          assert PowerLoss(d, after);
        }
      }
      assert d.live in d.past + [d.live];
    }
  }

  /** The fixed name can be lost exactly when it was unbound since the last directory sync. */
  lemma UnboundIsPowerLoss(d: Disk)
    requires d.Valid()
    ensures d.Unbindable() <==> exists after: Disk :: PowerLoss(d, after) && Fixed(after) == None
  {
    if d.Unbindable() {
      var e :| e in d.past + [d.live] && e.receipt == None;
      var after := Disk([], e, map f | f in d.files :: [d.files[f][0]]);
      assert PowerLoss(d, after);
    }
    forall after: Disk | PowerLoss(d, after) && Fixed(after) == None ensures d.Unbindable() {
      var e := after.live;
      assert d.live.receipt.Some? ==> d.Backed(d.live.receipt.value);
    }
  }

  lemma WithinWider(d: Disk, a: View, b: View)
    requires d.Within(a) && a.Inside(b)
    ensures d.Within(b)
  {
    forall e | e in d.past + [d.live] ensures d.RecoversOnly(e, b.later) {
      assert d.RecoversOnly(e, a.later);
    }
    assert d.live in d.past + [d.live];
  }

  /** Seeing the value narrows the view. */
  lemma WithinNow(d: Disk, view: View)
    requires d.Within(view)
    ensures d.Within(View({Fixed(d)}, view.later)) && Fixed(d) in view.now && Fixed(d) in view.later
  {
    assert d.RecoversOnly(d.live, view.later);
  }

  /** How values of some type are written to and read from the fixed file. */
  datatype Codec<!T(==,!new)> = Codec(encode: T -> Bytes, decode: Bytes -> Option<T>) {
    ghost predicate Faithful() {
      forall v :: decode(encode(v)) == Some(v)
    }

    function Raw(value: Option<T>): Option<Bytes> {
      match value
      case None => None
      case Some(v) => Some(encode(v))
    }

    ghost function Raws(values: set<Option<T>>): set<Option<Bytes>> {
      set v | v in values :: Raw(v)
    }

    /** What a command finds there. */
    function Read(value: Option<Bytes>): Option<T> {
      match value
      case None => None
      case Some(raw) => decode(raw)
    }
  }

  lemma RawsAdd<T(!new)>(c: Codec<T>, values: set<Option<T>>, value: Option<T>)
    ensures c.Raws(values + {value}) == c.Raws(values) + {c.Raw(value)}
  {
  }

  /** What is read after a power loss is one of the recoverable values. */
  lemma ReadsRecoverable<T(!new)>(c: Codec<T>, d: Disk, now: set<Option<Bytes>>, values: set<Option<T>>, after: Disk)
    requires c.Faithful() && d.Valid() && d.Within(View(now, c.Raws(values))) && PowerLoss(d, after)
    ensures c.Read(Fixed(after)) in values && Fixed(after) == c.Raw(c.Read(Fixed(after)))
  {
    OnlyRecoversIsPowerLoss(d, c.Raws(values));
    var v :| v in values && c.Raw(v) == Fixed(after);
  }

  /** A settled directory comes back with the value it shows. */
  lemma PowerLossWithin(before: Disk, after: Disk, view: View)
    requires before.Valid() && before.Within(view) && PowerLoss(before, after)
    ensures after.Within(Exactly(Fixed(after)))
  {
    assert before.Durable(after.live.receipt);
  }

  /** One step of the foreign process: nothing, or the fixed name unbound or bound to its own file. */
  predicate Interference(a: Disk, b: Disk) {
    || b == a
    || (&& b == a.Append(b.live)
        && b.live.staged == a.live.staged
        && (b.live.receipt.Some? ==> b.live.receipt.value.Foreign?))
  }

  /** Going from `a` to `b` adds at most `extra` to what the fixed name shows and may recover. */
  ghost predicate Adds(a: Disk, b: Disk, extra: set<Option<Bytes>>) {
    forall view {:trigger b.Within(view)} | a.Within(view) && view.Has(extra) :: b.Within(view)
  }

  lemma AppendAdds(a: Disk, e: Entries, extra: set<Option<Bytes>>)
    requires a.Valid() && a.Append(e).Valid()
    requires e.receipt == a.live.receipt
               || (a.RecoversOnly(e, extra) && a.Durable(e.receipt) && Fixed(a.Append(e)) in extra)
    ensures Adds(a, a.Append(e), extra)
  {
    var b := a.Append(e);
    forall view | a.Within(view) && view.Has(extra) ensures b.Within(view) {
      forall x | x in b.past ensures b.RecoversOnly(x, view.later) && b.Durable(x.receipt) {
        assert x in a.past || x == a.live;
      }
    }
  }

  lemma FileUpdateValid(d: Disk, f: Inode, contents: seq<Bytes>)
    requires d.Valid() && contents != []
    ensures d.(files := d.files[f := contents]).Valid()
  {
    var after := d.(files := d.files[f := contents]);
    forall e | e in d.past + [d.live] ensures after.Lists(e) {
      assert d.Lists(e);
    }
    assert d.live in d.past + [d.live];
  }

  lemma CreateAdds(a: Disk, n: nat, f: Inode)
    requires a.Valid() && f !in a.files
    ensures var b := Disk(a.past + [a.live], a.live.(staged := a.live.staged[n := Own(f)]), a.files[f := [[]]]);
            b.Valid() && Adds(a, b, {}) && b.NeverFixed(Own(f))
  {
    var b := Disk(a.past + [a.live], a.live.(staged := a.live.staged[n := Own(f)]), a.files[f := [[]]]);
    forall e | e in b.past + [b.live] ensures b.Lists(e) {
      assert e in a.past || e == a.live || e == b.live;
      assert e != b.live ==> a.Lists(e);
    }
    assert b.live in b.past + [b.live];
    forall view | a.Within(view) ensures b.Within(view) {
      forall e | e in b.past ensures b.RecoversOnly(e, view.later) && b.Durable(e.receipt) {
        assert e in a.past || e == a.live;
      }
    }
  }

  class Directory {
    var disk: Disk
    var nextInode: Inode
    // History, for specifications only: every state so far, how often the foreign process moved the
    // fixed name, the file it last left there, and how many calls failed.
    var trace: seq<Disk>
    var rebinds: nat
    ghost var occupant: Option<File>
    ghost var faults: nat

    predicate Fits(d: Disk)
      reads this`nextInode
    {
      d.Valid() && forall f | f in d.files :: f < nextInode
    }

    ghost predicate Valid()
      reads this
    {
      && Fits(disk) && (forall d | d in trace :: Fits(d))
      && (occupant.Some? ==> occupant.value.Foreign?)
    }

    /** The file the foreign process last left at the fixed name is still there. */
    ghost predicate OccupantFixed()
      reads this
    {
      (occupant.Some? ==> disk.live.receipt == occupant)
    }

    /** At every point from `from` up to `to` the fixed name is within the view. */
    ghost predicate Ranges(from: nat, to: nat, view: View)
      reads this
    {
      forall k | from <= k < to && k < |trace| :: trace[k].Within(view)
    }

    /** Now and at every point after `start` the fixed name is within the view. */
    ghost predicate CrashesWithin(start: nat, view: View)
      reads this
    {
      disk.Within(view) && Ranges(start, |trace|, view)
    }

    ghost predicate StaysUnbindable(start: nat)
      reads this
    {
      disk.Unbindable() && forall k | start <= k < |trace| :: trace[k].Unbindable()
    }

    /** At no point after `start` can the fixed name come back bound to `file` without these bytes. */
    ghost predicate StaysIntact(start: nat, file: File, raw: Bytes)
      reads this
    {
      disk.Intact(file, raw) && forall k | start <= k < |trace| :: trace[k].Intact(file, raw)
    }

    /** What one call reports about the foreign process: `mid` is the disk it left us. */
    twostate predicate Observed(mid: Disk)
      reads this
    {
      && Valid() && mid.Valid()
      && Interference(old(disk), mid)
      && (forall file: File {:trigger mid.NeverFixed(file)} | file.Own? && old(disk).NeverFixed(file) ::
          mid.NeverFixed(file))
      && old(faults) <= faults && old(rebinds) <= rebinds
      && (rebinds == old(rebinds) ==> mid == old(disk) && occupant == old(occupant))
      && (rebinds > old(rebinds) ==> occupant == mid.live.receipt)
    }

    /** What a sequence of calls reports. */
    twostate predicate Follows()
      reads this
    {
      && Valid()
      && old(trace) <= trace
      && disk == (if |trace| == |old(trace)| then old(disk) else trace[|trace| - 1])
      && old(faults) <= faults && old(rebinds) <= rebinds
      && (rebinds == old(rebinds) ==> occupant == old(occupant))
    }

    method Interfere()
      requires Valid()
      modifies this
      ensures Observed(disk) && faults == old(faults) && trace == old(trace)
    {
      if * {
        var serial: nat, raw: Bytes :| true;
        disk := disk.Append(disk.live.(receipt := Some(Foreign(serial, raw))));
        rebinds := rebinds + 1;
        occupant := disk.live.receipt;
      } else if * {
        disk := disk.Append(disk.live.(receipt := None));
        rebinds := rebinds + 1;
        occupant := None;
      }
    }

    /** Any check outside this directory: it changes nothing and may fail. */
    method Check() returns (ok: bool)
      requires Valid()
      modifies this
      ensures Observed(disk) && trace == old(trace) + [disk]
      ensures faults == old(faults) ==> ok
      ensures ok ==> faults == old(faults)
    {
      Interfere();
      trace := trace + [disk];
      ok := *;
      if !ok { faults := faults + 1; }
    }

    /** A random staging name. Drawing one that is in use counts as a fault. */
    method FreshName() returns (n: nat)
      requires Valid()
      modifies this`faults
      ensures Valid() && faults == old(faults) + if n in disk.live.staged then 1 else 0
    {
      n :| true;
      if n in disk.live.staged { faults := faults + 1; }
    }

    method CreateExclusive(n: nat) returns (ok: bool, file: File, mid: Disk)
      requires Valid()
      modifies this
      ensures Observed(mid)
      ensures ok ==> n !in mid.live.staged && file.Own? && file.inode !in mid.files && disk.NeverFixed(file)
      ensures ok ==> disk == Disk(mid.past + [mid.live], mid.live.(staged := mid.live.staged[n := file]),
                mid.files[file.inode := [[]]])
      ensures !ok ==> disk == mid
      ensures Adds(mid, disk, {})
      ensures faults == old(faults) && n !in mid.live.staged ==> ok
      ensures trace == old(trace) + [mid, disk]
      ensures ok ==> faults == old(faults)
    {
      Interfere();
      mid := disk;
      file := Own(nextInode);
      ok := *;
      if !ok { faults := faults + 1; }
      if n in disk.live.staged { ok := false; }
      if ok {
        CreateAdds(disk, n, nextInode);
        disk := Disk(disk.past + [disk.live], disk.live.(staged := disk.live.staged[n := file]),
                     disk.files[nextInode := [[]]]);
        nextInode := nextInode + 1;
      }
      trace := trace + [mid, disk];
    }

    /** Write some nonempty part of `rest` at the end of the file. */
    method Write(f: Inode, rest: Bytes) returns (written: nat, mid: Disk)
      requires Valid() && f in disk.files && disk.files[f] != [] && |rest| > 0 && disk.NeverFixed(Own(f))
      modifies this
      ensures Observed(mid) && f in mid.files && mid.files[f] != [] && written <= |rest|
      ensures written > 0 ==>
                disk == mid.(files := mid.files[f := mid.files[f] + [mid.Content(Own(f)) + rest[..written]]])
      ensures written == 0 ==> disk == mid
      ensures disk.NeverFixed(Own(f)) && Adds(mid, disk, {})
      ensures faults == old(faults) ==> written > 0
      ensures trace == old(trace) + [mid, disk]
      ensures written > 0 ==> faults == old(faults)
    {
      Interfere();
      mid := disk;
      written :| 0 <= written <= |rest|;
      if written == 0 { faults := faults + 1; }
      if written > 0 {
        FileUpdateValid(disk, f, disk.files[f] + [disk.Content(Own(f)) + rest[..written]]);
        disk := disk.(files := disk.files[f := disk.files[f] + [disk.Content(Own(f)) + rest[..written]]]);
      }
      trace := trace + [mid, disk];
    }

    method Truncate(f: Inode) returns (ok: bool, mid: Disk)
      requires Valid() && f in disk.files && disk.files[f] != []
      modifies this
      ensures Observed(mid) && f in mid.files
      ensures ok ==> disk == mid.(files := mid.files[f := mid.files[f] + [[]]])
      ensures !ok ==> disk == mid
      ensures mid.NeverFixed(Own(f)) ==> Adds(mid, disk, {})
      ensures faults == old(faults) ==> ok
      ensures forall file: File {:trigger disk.NeverFixed(file)} | mid.NeverFixed(file) :: disk.NeverFixed(file)
      ensures trace == old(trace) + [mid, disk]
      ensures ok ==> faults == old(faults)
    {
      Interfere();
      mid := disk;
      ok := *;
      if ok {
        FileUpdateValid(disk, f, disk.files[f] + [[]]);
        disk := disk.(files := disk.files[f := disk.files[f] + [[]]]);
      } else {
        faults := faults + 1;
      }
      trace := trace + [mid, disk];
    }

    /** Make the bytes of one inode durable. */
    method FsyncFile(f: Inode) returns (ok: bool, mid: Disk)
      requires Valid() && f in disk.files && disk.files[f] != []
      modifies this
      ensures Observed(mid) && f in mid.files && mid.files[f] != []
      ensures ok ==> disk == mid.(files := mid.files[f := [mid.Content(Own(f))]])
      ensures !ok ==> disk == mid
      ensures Adds(mid, disk, {})
      ensures faults == old(faults) ==> ok
      ensures forall file: File {:trigger disk.NeverFixed(file)} | mid.NeverFixed(file) :: disk.NeverFixed(file)
      ensures trace == old(trace) + [mid, disk]
      ensures ok ==> faults == old(faults)
    {
      Interfere();
      mid := disk;
      ok := *;
      if ok {
        FileUpdateValid(disk, f, [disk.Content(Own(f))]);
        disk := disk.(files := disk.files[f := [disk.Content(Own(f))]]);
      } else {
        faults := faults + 1;
      }
      trace := trace + [mid, disk];
    }

    /** Make the directory entries durable. */
    method FsyncDirectory() returns (ok: bool, mid: Disk)
      requires Valid()
      modifies this
      ensures Observed(mid)
      ensures disk == if ok then mid.Synced() else mid
      ensures Adds(mid, disk, {})
      ensures Fixed(disk) == Fixed(mid)
      ensures ok && disk.live.receipt.None? ==> disk.Within(Exactly(None))
      ensures forall raw | ok && disk.live.receipt.Some? && disk.Settled(disk.live.receipt.value, raw) ::
                disk.Within(Exactly(Some(raw)))
      ensures faults == old(faults) ==> ok
      ensures forall file: File {:trigger disk.NeverFixed(file)} | mid.NeverFixed(file) :: disk.NeverFixed(file)
      ensures trace == old(trace) + [mid, disk]
      ensures ok ==> faults == old(faults)
    {
      Interfere();
      mid := disk;
      ok := *;
      if ok {
        disk := disk.Synced();
      } else {
        faults := faults + 1;
      }
      trace := trace + [mid, disk];
    }

    /** Exclusive rename of the fixed name to a staging name. */
    method MoveReceiptTo(n: nat) returns (ok: bool, mid: Disk)
      requires Valid()
      modifies this
      ensures Observed(mid)
      ensures ok ==> mid.live.receipt.Some? && n !in mid.live.staged
      ensures ok ==> disk == mid.Append(Entries(None, mid.live.staged[n := mid.live.receipt.value]))
      ensures !ok ==> disk == mid
      ensures ok ==> Fixed(disk) == None && disk.Unbindable()
      ensures Adds(mid, disk, {None})
      ensures faults == old(faults) && mid.live.receipt.Some? && n !in mid.live.staged ==> ok
      ensures trace == old(trace) + [mid, disk]
      ensures ok ==> faults == old(faults)
    {
      Interfere();
      mid := disk;
      ok := *;
      if !ok { faults := faults + 1; }
      if disk.live.receipt.None? || n in disk.live.staged { ok := false; }
      if ok {
        disk := disk.Append(Entries(None, disk.live.staged[n := disk.live.receipt.value]));
        AppendAdds(mid, disk.live, {None});
      }
      trace := trace + [mid, disk];
    }

    /** Exclusive rename of a staging name to the fixed name. */
    method MoveToReceipt(n: nat) returns (ok: bool, mid: Disk)
      requires Valid()
      modifies this
      ensures Observed(mid)
      ensures ok ==> n in mid.live.staged && mid.live.receipt.None?
      ensures ok ==> disk == mid.Append(Entries(Some(mid.live.staged[n]), mid.live.staged - {n}))
      ensures !ok ==> disk == mid
      ensures forall raw | ok && mid.Settled(mid.live.staged[n], raw) ::
                Adds(mid, disk, {Some(raw)}) && Fixed(disk) == Some(raw)
      ensures mid.Unbindable() ==> disk.Unbindable()
      ensures faults == old(faults) && n in mid.live.staged && mid.live.receipt.None? ==> ok
      ensures trace == old(trace) + [mid, disk]
      ensures ok ==> faults == old(faults)
    {
      Interfere();
      mid := disk;
      ok := *;
      if !ok { faults := faults + 1; }
      if disk.live.receipt.Some? || n !in disk.live.staged { ok := false; }
      if ok {
        disk := disk.Append(Entries(Some(disk.live.staged[n]), disk.live.staged - {n}));
        forall raw | mid.Settled(mid.live.staged[n], raw)
          ensures Adds(mid, disk, {Some(raw)}) && Fixed(disk) == Some(raw)
        {
          AppendAdds(mid, disk.live, {Some(raw)});
        }
      }
      trace := trace + [mid, disk];
    }

    /** Atomic exchange of a staging name with the fixed name. */
    method ExchangeWithReceipt(n: nat) returns (ok: bool, mid: Disk)
      requires Valid()
      modifies this
      ensures Observed(mid)
      ensures ok ==> n in mid.live.staged && mid.live.receipt.Some?
      ensures ok ==> disk == mid.Append(Entries(Some(mid.live.staged[n]), mid.live.staged[n := mid.live.receipt.value]))
      ensures !ok ==> disk == mid
      ensures forall raw | ok && mid.Settled(mid.live.staged[n], raw) ::
                Adds(mid, disk, {Some(raw)}) && Fixed(disk) == Some(raw)
      ensures faults == old(faults) && n in mid.live.staged && mid.live.receipt.Some? ==> ok
      ensures trace == old(trace) + [mid, disk]
      ensures ok ==> faults == old(faults)
    {
      Interfere();
      mid := disk;
      ok := *;
      if !ok { faults := faults + 1; }
      if disk.live.receipt.None? || n !in disk.live.staged { ok := false; }
      if ok {
        disk := disk.Append(Entries(Some(disk.live.staged[n]), disk.live.staged[n := disk.live.receipt.value]));
        forall raw | mid.Settled(mid.live.staged[n], raw)
          ensures Adds(mid, disk, {Some(raw)}) && Fixed(disk) == Some(raw)
        {
          AppendAdds(mid, disk.live, {Some(raw)});
        }
      }
      trace := trace + [mid, disk];
    }

    /** Atomic rename of a staging name over the fixed name, whatever is there. */
    method MoveOverReceipt(n: nat) returns (ok: bool, mid: Disk)
      requires Valid()
      modifies this
      ensures Observed(mid)
      ensures ok ==> n in mid.live.staged
      ensures ok ==> disk == mid.Append(Entries(Some(mid.live.staged[n]), mid.live.staged - {n}))
      ensures !ok ==> disk == mid
      ensures forall raw | ok && mid.Settled(mid.live.staged[n], raw) ::
                Adds(mid, disk, {Some(raw)}) && Fixed(disk) == Some(raw)
      ensures faults == old(faults) && n in mid.live.staged ==> ok
      ensures trace == old(trace) + [mid, disk]
      ensures ok ==> faults == old(faults)
    {
      Interfere();
      mid := disk;
      ok := *;
      if !ok { faults := faults + 1; }
      if n !in disk.live.staged { ok := false; }
      if ok {
        disk := disk.Append(Entries(Some(disk.live.staged[n]), disk.live.staged - {n}));
        forall raw | mid.Settled(mid.live.staged[n], raw)
          ensures Adds(mid, disk, {Some(raw)}) && Fixed(disk) == Some(raw)
        {
          AppendAdds(mid, disk.live, {Some(raw)});
        }
      }
      trace := trace + [mid, disk];
    }

    method Unlink(n: nat) returns (ok: bool, mid: Disk)
      requires Valid()
      modifies this
      ensures Observed(mid)
      ensures ok ==> n in mid.live.staged
      ensures disk == if ok then mid.Append(mid.live.(staged := mid.live.staged - {n})) else mid
      ensures Adds(mid, disk, {})
      ensures mid.Unbindable() ==> disk.Unbindable()
      ensures faults == old(faults) && n in mid.live.staged ==> ok
      ensures forall file: File {:trigger disk.NeverFixed(file)} | mid.NeverFixed(file) :: disk.NeverFixed(file)
      ensures trace == old(trace) + [mid, disk]
      ensures ok ==> faults == old(faults)
    {
      Interfere();
      mid := disk;
      ok := *;
      if !ok { faults := faults + 1; }
      if n !in disk.live.staged { ok := false; }
      if ok {
        disk := disk.Append(disk.live.(staged := disk.live.staged - {n}));
        AppendAdds(mid, disk.live, {});
      }
      trace := trace + [mid, disk];
    }

    /** Open by name, read, and compare the inode and the bytes. A read error reads as "no". */
    method StagedMatches(n: nat, file: File, raw: Bytes) returns (yes: bool)
      requires Valid()
      modifies this
      ensures Observed(disk) && trace == old(trace) + [disk]
      ensures yes ==> disk.Holds(n, file) && disk.Backed(file) && disk.Content(file) == raw
      ensures faults == old(faults) && disk.Holds(n, file) && disk.Backed(file) && disk.Content(file) == raw ==> yes
      ensures yes ==> faults == old(faults)
    {
      Interfere();
      trace := trace + [disk];
      yes := *;
      if !yes { faults := faults + 1; }
      if !disk.Holds(n, file) || !disk.Backed(file) || disk.Content(file) != raw { yes := false; }
    }

    method ReceiptMatches(file: File, raw: Bytes) returns (yes: bool)
      requires Valid()
      modifies this
      ensures Observed(disk) && trace == old(trace) + [disk]
      ensures yes ==> disk.live.receipt == Some(file) && disk.Backed(file) && disk.Content(file) == raw
      ensures faults == old(faults) && disk.live.receipt == Some(file)
              && disk.Backed(file) && disk.Content(file) == raw ==>
                yes
      ensures yes ==> faults == old(faults)
    {
      Interfere();
      trace := trace + [disk];
      yes := *;
      if !yes { faults := faults + 1; }
      if disk.live.receipt != Some(file) || !disk.Backed(file) || disk.Content(file) != raw { yes := false; }
    }

    /** Is nothing bound at the fixed name? A read error reads as "no". */
    method ReceiptAbsent() returns (yes: bool)
      requires Valid()
      modifies this
      ensures Observed(disk) && trace == old(trace) + [disk]
      ensures yes ==> disk.live.receipt.None?
      ensures faults == old(faults) && disk.live.receipt.None? ==> yes
      ensures yes ==> faults == old(faults)
    {
      Interfere();
      trace := trace + [disk];
      yes := *;
      if !yes { faults := faults + 1; }
      if disk.live.receipt.Some? { yes := false; }
    }

    /** Read the fixed name: its file and bytes, or nothing. */
    method ReadReceipt() returns (ok: bool, found: Option<(File, Bytes)>)
      requires Valid()
      modifies this
      ensures Observed(disk) && trace == old(trace) + [disk]
      ensures ok ==> (found.Some? <==> disk.live.receipt.Some?)
      ensures ok && found.Some? ==> disk.live.receipt == Some(found.value.0) && Fixed(disk) == Some(found.value.1)
      ensures faults == old(faults) ==> ok
      ensures ok ==> faults == old(faults)
    {
      Interfere();
      trace := trace + [disk];
      ok := *;
      if !ok { faults := faults + 1; }
      found := None;
      if ok && disk.live.receipt.Some? {
        found := Some((disk.live.receipt.value, disk.Content(disk.live.receipt.value)));
      }
    }

    /** The process dies at an earlier point of this history; the directory stays as it was then. */
    method DieAt(k: nat)
      requires Valid() && k < |trace|
      modifies this
      ensures Valid() && rebinds == old(rebinds)
      ensures trace == old(trace)[..k + 1] && disk == trace[k]
    {
      trace := trace[..k + 1];
      disk := trace[k];
    }

    /** Power fails. */
    method LosePower()
      requires Valid()
      modifies this
      ensures Valid() && rebinds == old(rebinds)
      ensures PowerLoss(old(disk), disk) && trace == old(trace) + [disk]
    {
      ghost var witnessed := Disk([], disk.live, map f | f in disk.files :: [disk.files[f][0]]);
      assert PowerLoss(disk, witnessed);
      var after :| PowerLoss(disk, after);
      PowerLossValid(disk, after);
      disk := after;
      trace := trace + [disk];
    }
  }
}
