/** Descriptor conservation in the owned-tiny state: any call may fail, and every descriptor that was opened
    gets exactly one close attempt or is handed to exactly one returned owner. */
module Descriptors {
  import opened Collections

  /** The sentinel of an empty descriptor variable. */
  const NONE := -1

  datatype OpenResult = Opened(fd: int) | NotFound | Exists | Refused

  datatype DirectoryResult = Directory(fd: int) | Missing | Failed

  datatype KeyResult = Key | NoKey | KeyFailed

  /** The descriptors a variable holds. */
  function Held(fd: int): set<int> {
    if fd >= 0 then {fd} else {}
  }

  /** The descriptor table of one process, with books for the specification. */
  class Kernel {
    var next: int
    // Every descriptor ever returned by an open, those without a close attempt, and every close attempt.
    ghost var issued: set<int>
    ghost var live: set<int>
    ghost var attempts: multiset<int>
    // Refused calls and failing checks, closes that were not clean, and absences that a caller allows for.
    ghost var faults: nat
    ghost var dirty: nat
    ghost var absences: nat
    // How often an entry was to be created.
    ghost var creations: nat

    /** Exactly the descriptors that are no longer live had a close attempt, and each had one. */
    ghost predicate Balanced()
      reads this`next, this`issued, this`live, this`attempts
    {
      next >= 0 && (forall fd | fd in issued :: 0 <= fd < next) && attempts == multiset(issued - live)
    }

    ghost predicate Valid()
      reads this`next, this`issued, this`live, this`attempts
    {
      Balanced() && live <= issued && forall fd | fd in live :: fd >= 0
    }

    constructor ()
      ensures Valid() && issued == {} && attempts == multiset{}
    {
      next, issued, live, attempts := 0, {}, {}, multiset{};
    }

    /** Open an existing entry; `due` when it has to be there, so that its absence is a fault. */
    method Open(ghost due: bool) returns (r: OpenResult)
      requires Valid()
      modifies this
      ensures Valid() && attempts == old(attempts) && dirty == old(dirty) && creations == old(creations) && !r.Exists?
      ensures if r.Opened?
        then r.fd >= 0 && r.fd !in old(issued) && issued == old(issued) + {r.fd} && live == old(live) + {r.fd}
        else issued == old(issued) && live == old(live)
      ensures faults == old(faults) + if r.Refused? || (r.NotFound? && due) then 1 else 0
      ensures absences == old(absences) + if r.NotFound? && !due then 1 else 0
    {
      if * {
        if due { faults := faults + 1; } else { absences := absences + 1; }
        return NotFound;
      }
      r := Issue();
    }

    /** Create an entry exclusively; `free` when its name has to be free. */
    method CreateExclusive(ghost free: bool) returns (r: OpenResult)
      requires Valid()
      modifies this
      ensures Valid() && attempts == old(attempts) && dirty == old(dirty) && absences == old(absences) && !r.NotFound?
      ensures creations == old(creations) + 1
      ensures if r.Opened?
        then r.fd >= 0 && r.fd !in old(issued) && issued == old(issued) + {r.fd} && live == old(live) + {r.fd}
        else issued == old(issued) && live == old(live)
      ensures faults == old(faults) + if r.Refused? || (r.Exists? && free) then 1 else 0
    {
      creations := creations + 1;
      if * {
        if free { faults := faults + 1; }
        return Exists;
      }
      r := Issue();
    }

    method Issue() returns (r: OpenResult)
      requires Valid()
      modifies this`next, this`issued, this`live, this`faults
      ensures Valid() && (r.Opened? || r.Refused?)
      ensures if r.Opened?
        then r.fd >= 0 && r.fd !in old(issued) && issued == old(issued) + {r.fd} && live == old(live) + {r.fd}
        else issued == old(issued) && live == old(live)
      ensures faults == old(faults) + if r.Refused? then 1 else 0
    {
      if * {
        faults := faults + 1;
        return Refused;
      }
      issued, live := issued + {next}, live + {next};
      assert issued - live == old(issued) - old(live);
      next := next + 1;
      return Opened(next - 1);
    }

    /** One close attempt, clean or not; a descriptor is never attempted twice. */
    method CloseQuietly(fd: int) returns (clean: bool)
      requires Valid() && fd in live
      modifies this`live, this`attempts, this`dirty
      ensures Valid() && live == old(live) - {fd} && attempts == old(attempts) + multiset{fd}
      ensures dirty == old(dirty) + if clean then 0 else 1
    {
      live, attempts := live - {fd}, attempts + multiset{fd};
      assert issued - live == (issued - old(live)) + {fd};
      clean := *;
      if !clean { dirty := dirty + 1; }
    }

    /** Any other system call: inspection, locking, renaming, syncing. It may fail. */
    method Check() returns (ok: bool)
      modifies this`faults
      ensures faults == old(faults) + if ok then 0 else 1
    {
      ok := *;
      if !ok { faults := faults + 1; }
    }

    /** One close attempt for each descriptor that is not the sentinel. */
    method CloseManyQuietly(fds: seq<int>) returns (clean: bool)
      requires Valid() && (forall fd | fd in fds && fd >= 0 :: fd in live)
      requires forall i, j | 0 <= i < j < |fds| && fds[i] >= 0 :: fds[i] != fds[j]
      modifies this`live, this`attempts, this`dirty
      ensures Valid() && live == old(live) - ToSet(fds)
      ensures old(dirty) <= dirty && (clean <==> dirty == old(dirty))
    {
      clean := true;
      for i := 0 to |fds|
        invariant old(dirty) <= dirty && (clean <==> dirty == old(dirty))
        invariant Valid() && live == old(live) - ToSet(fds[..i])
      {
        assert fds[..i + 1] == fds[..i] + [fds[i]] && fds[i] in fds;
        assert ToSet(fds[..i + 1]) == ToSet(fds[..i]) + {fds[i]};
        if fds[i] >= 0 {
          assert fds[i] !in fds[..i];
          var ok := CloseQuietly(fds[i]);
          clean := ok && clean;
        }
      }
      assert fds[..|fds|] == fds;
    }
  }

  lemma ListedSets(a: int, b: int, c: int)
    ensures ToSet([a, b]) == {a, b} && ToSet([a, b, c]) == {a, b, c}
  {
  }

  /** Since an earlier moment, every newly opened descriptor was attempted once, except those in `kept`. */
  ghost predicate Conserved(issued: set<int>, attempts: multiset<int>, issuedNow: set<int>,
                            attemptsNow: multiset<int>, kept: set<int>) {
    && issued <= issuedNow && kept <= issuedNow - issued
    && attemptsNow == attempts + multiset(issuedNow - issued - kept)
  }

  /** The table's invariant turns "the live set grew by `kept`" into conservation. */
  lemma LiveMeansConserved(issued: set<int>, live: set<int>, attempts: multiset<int>,
                           issuedNow: set<int>, liveNow: set<int>, attemptsNow: multiset<int>, kept: set<int>)
    requires live <= issued && attempts == multiset(issued - live)
    requires liveNow <= issuedNow && attemptsNow == multiset(issuedNow - liveNow)
    requires issued <= issuedNow && liveNow == live + kept && kept !! issued
    ensures Conserved(issued, attempts, issuedNow, attemptsNow, kept)
  {
    var settled, later := issued - live, issuedNow - issued - kept;
    assert issuedNow - liveNow == settled + later && settled !! later;
    assert multiset(settled + later) == multiset(settled) + multiset(later);
  }

  /** A call succeeds exactly when nothing was refused, no check failed and every close was clean. */
  predicate Calm(faultsBefore: nat, faults: nat, dirtyBefore: nat, dirty: nat, success: bool) {
    && faultsBefore <= faults && dirtyBefore <= dirty
    && (success <==> faults == faultsBefore && dirty == dirtyBefore)
  }

  /** Walk the path from the root, holding one descriptor at a time. */
  method OpenCoordinationAnchor(k: Kernel, components: nat) returns (fd: int)
    requires k.Valid()
    modifies k
    ensures k.Valid() && old(k.issued) <= k.issued
    ensures k.live == old(k.live) + Held(fd) && Held(fd) !! old(k.issued)
    ensures Calm(old(k.faults), k.faults, old(k.dirty), k.dirty, fd >= 0) && k.absences == old(k.absences)
  {
    hide Kernel.Balanced;
    var root := k.Open(true);
    if !root.Opened? { return NONE; }
    var current := root.fd;
    for i := 0 to components
      invariant k.Valid() && old(k.issued) <= k.issued && current >= 0
      invariant k.live == old(k.live) + {current} && current !in old(k.issued)
      invariant k.faults == old(k.faults) && k.dirty == old(k.dirty) && k.absences == old(k.absences)
    {
      var opening := k.Open(true);
      if !opening.Opened? {
        var clean := k.CloseQuietly(current);
        return NONE;
      }
      var child := opening.fd;
      var clean := k.CloseQuietly(current);
      if !clean {
        clean := k.CloseQuietly(child);
        return NONE;
      }
      current := child;
    }
    var ok := k.Check();
    if !ok {
      var clean := k.CloseQuietly(current);
      return NONE;
    }
    return current;
  }

  /** Stage a private directory, publish it, and return the descriptor of the published one. */
  method InstallPrivateDirectory(k: Kernel) returns (fd: int)
    requires k.Valid()
    modifies k
    ensures k.Valid() && old(k.issued) <= k.issued
    ensures k.live == old(k.live) + Held(fd) && Held(fd) !! old(k.issued)
    ensures Calm(old(k.faults), k.faults, old(k.dirty), k.dirty, fd >= 0) && k.absences == old(k.absences)
  {
    hide Kernel.Balanced;
    var made := k.Check();
    if !made { return NONE; }
    var staging := k.Open(true);
    if !staging.Opened? { return NONE; }
    var staged := staging.fd;
    var published := k.Check();
    if !published {
      ListedSets(NONE, staged, NONE);
      var clean := k.CloseManyQuietly([NONE, staged]);
      return NONE;
    }
    var installing := k.Open(true);
    if !installing.Opened? {
      ListedSets(NONE, staged, NONE);
      var clean := k.CloseManyQuietly([NONE, staged]);
      return NONE;
    }
    var installed := installing.fd;
    var synced := k.Check();
    if !synced {
      ListedSets(installed, staged, NONE);
      var clean := k.CloseManyQuietly([installed, staged]);
      return NONE;
    }
    var clean := k.CloseQuietly(staged);
    if !clean {
      ListedSets(installed, NONE, NONE);
      clean := k.CloseManyQuietly([installed, NONE]);
      return NONE;
    }
    return installed;
  }

  /** Open one component, or install it when it is missing and asked for. */
  method OpenComponent(k: Kernel, create: bool, ghost due: bool) returns (r: DirectoryResult)
    requires k.Valid()
    modifies k
    ensures k.Valid() && old(k.issued) <= k.issued
    ensures if r.Directory? then r.fd >= 0 && k.live == old(k.live) + {r.fd} && r.fd !in old(k.issued)
              else k.live == old(k.live)
    ensures old(k.faults) <= k.faults && old(k.dirty) <= k.dirty && old(k.absences) <= k.absences
    ensures r.Directory? ==> k.faults == old(k.faults) && k.dirty == old(k.dirty)
    ensures !r.Missing? && !create ==> k.absences == old(k.absences)
    ensures r.Missing? ==>
      && !create && k.dirty == old(k.dirty)
      && k.faults == old(k.faults) + (if due then 1 else 0)
      && k.absences == old(k.absences) + (if due then 0 else 1)
    ensures r.Failed? ==> k.faults > old(k.faults) || k.dirty > old(k.dirty)
  {
    hide Kernel.Balanced;
    var opening := k.Open(due && !create);
    if opening.Opened? { return Directory(opening.fd); }
    if opening.Refused? { return Failed; }
    if !create { return Missing; }
    var child := InstallPrivateDirectory(k);
    return if child >= 0 then Directory(child) else Failed;
  }

  /** Walk the fixed components below the anchor, installing missing ones when asked to. The anchor's own
      descriptor is not this walk's to close. */
  method OpenStateDirectory(k: Kernel, components: nat, create: bool, ghost due: bool) returns (r: DirectoryResult)
    requires k.Valid() && components > 0
    modifies k
    ensures k.Valid() && old(k.issued) <= k.issued
    ensures if r.Directory? then r.fd >= 0 && k.live == old(k.live) + {r.fd} && r.fd !in old(k.issued)
              else k.live == old(k.live)
    // It fails only through a fault or an unclean close, and reports a missing tree only without creating it.
    ensures old(k.faults) <= k.faults && old(k.dirty) <= k.dirty && old(k.absences) <= k.absences
    ensures r.Directory? ==> k.faults == old(k.faults) && k.dirty == old(k.dirty)
    ensures r.Directory? && !create ==> k.absences == old(k.absences)
    ensures r.Missing? ==>
      && !create && k.dirty == old(k.dirty)
      && k.faults == old(k.faults) + (if due then 1 else 0)
      && k.absences == old(k.absences) + (if due then 0 else 1)
    ensures r.Failed? ==> k.faults > old(k.faults) || k.dirty > old(k.dirty)
    ensures due && !create ==> k.absences == old(k.absences)
  {
    hide Kernel.Balanced;
    var anchored := k.Check();
    if !anchored { return Failed; }
    var current := NONE;
    for i := 0 to components
      invariant k.Valid() && old(k.issued) <= k.issued && (i > 0 ==> current >= 0)
      invariant k.live == old(k.live) + Held(current) && Held(current) !! old(k.issued)
      invariant k.faults == old(k.faults) && k.dirty == old(k.dirty) && old(k.absences) <= k.absences
      invariant !create ==> k.absences == old(k.absences)
    {
      var opening := OpenComponent(k, create, due);
      if opening.Missing? {
        if current >= 0 {
          var clean := k.CloseQuietly(current);
          if !clean { return Failed; }
        }
        return Missing;
      }
      var child := if opening.Directory? then opening.fd else NONE;
      var ok := k.Check();
      if child < 0 || !ok {
        ListedSets(child, current, NONE);
        var clean := k.CloseManyQuietly([child, current]);
        return Failed;
      }
      if current >= 0 {
        var clean := k.CloseQuietly(current);
        if !clean {
          clean := k.CloseQuietly(child);
          return Failed;
        }
      }
      current := child;
    }
    var ok := k.Check();
    if !ok {
      ListedSets(NONE, current, NONE);
      var clean := k.CloseManyQuietly([NONE, current]);
      return Failed;
    }
    return Directory(current);
  }

  /** Open or create a fixed file. */
  method OpenFixedFile(k: Kernel, create: bool) returns (fd: int)
    requires k.Valid()
    modifies k
    ensures k.Valid() && old(k.issued) <= k.issued
    ensures k.live == old(k.live) + Held(fd) && Held(fd) !! old(k.issued)
    ensures old(k.faults) <= k.faults && old(k.dirty) <= k.dirty && k.absences == old(k.absences)
    ensures k.creations == old(k.creations) + if create then 1 else 0
    ensures fd >= 0 <==> k.faults == old(k.faults)
    ensures fd >= 0 ==> k.dirty == old(k.dirty)
  {
    hide Kernel.Balanced;
    var opening;
    if create {
      opening := k.CreateExclusive(false);
      if opening.Exists? { opening := k.Open(true); }
    } else {
      opening := k.Open(true);
    }
    if !opening.Opened? { return NONE; }
    var ok := k.Check();
    if !ok {
      var clean := k.CloseQuietly(opening.fd);
      return NONE;
    }
    return opening.fd;
  }

  /** Read a named regular file; the descriptor is closed on every path. */
  method ReadNamedFile(k: Kernel, ghost due: bool) returns (r: KeyResult)
    requires k.Valid()
    modifies k
    ensures k.Valid() && old(k.issued) <= k.issued && k.live == old(k.live)
    ensures Calm(old(k.faults), k.faults, old(k.dirty), k.dirty, r == Key || (r == NoKey && !due))
    ensures k.absences == old(k.absences) + if r == NoKey && !due then 1 else 0
  {
    var opening := k.Open(due);
    match opening
    case NotFound => return NoKey;
    case Refused => return KeyFailed;
    case Opened(fd) =>
      var readable := k.Check();
      var clean := k.CloseQuietly(fd);
      return if readable && clean then Key else KeyFailed;
  }

  method ReadOwnerKey(k: Kernel, required: bool) returns (r: KeyResult)
    requires k.Valid()
    modifies k
    ensures k.Valid() && old(k.issued) <= k.issued && k.live == old(k.live)
    ensures required ==> r != NoKey
    ensures Calm(old(k.faults), k.faults, old(k.dirty), k.dirty, r != KeyFailed)
    ensures k.absences == old(k.absences) + if r == NoKey then 1 else 0
  {
    r := ReadNamedFile(k, required);
    if required && r == NoKey { r := KeyFailed; }
  }

  /** Write a temporary; its descriptor is closed on every path. */
  method PrepareTemporary(k: Kernel) returns (ok: bool)
    requires k.Valid()
    modifies k
    ensures k.Valid() && old(k.issued) <= k.issued && k.live == old(k.live)
    ensures Calm(old(k.faults), k.faults, old(k.dirty), k.dirty, ok) && k.absences == old(k.absences)
  {
    hide Kernel.Balanced;
    var temporary := k.CreateExclusive(true);
    if !temporary.Opened? { return false; }
    ok := k.Check();
    var clean := k.CloseQuietly(temporary.fd);
    ok := ok && clean;
  }

  /** Write a temporary, publish it, check what was published, and read the key back. */
  method CreateOwnerKey(k: Kernel) returns (r: KeyResult)
    requires k.Valid()
    modifies k
    ensures k.Valid() && old(k.issued) <= k.issued && k.live == old(k.live) && r != NoKey
    ensures Calm(old(k.faults), k.faults, old(k.dirty), k.dirty, r == Key) && old(k.absences) <= k.absences
  {
    hide Kernel.Balanced;
    var written := PrepareTemporary(k);
    if !written { return KeyFailed; }
    var published := k.Check();
    if !published {
      var removed := ReadNamedFile(k, false);
      return KeyFailed;
    }
    var matches := ReadNamedFile(k, true);
    var synced := k.Check();
    if matches != Key || !synced { return KeyFailed; }
    r := ReadOwnerKey(k, true);
  }

  /** Walk both trees again beside the held descriptors; whatever was opened is closed. */
  method VerifyContinuity(k: Kernel, anchorComponents: nat, stateComponents: nat) returns (ok: bool)
    requires k.Valid() && stateComponents > 0
    modifies k
    ensures k.Valid() && old(k.issued) <= k.issued && k.live == old(k.live)
    // It fails only through a fault or an unclean close; the closes at its end do not count.
    ensures old(k.faults) <= k.faults && old(k.dirty) <= k.dirty && k.absences == old(k.absences)
    ensures ok ==> k.faults == old(k.faults)
    ensures !ok ==> k.faults > old(k.faults) || k.dirty > old(k.dirty)
  {
    hide Kernel.Balanced;
    ok := k.Check();
    if !ok { return false; }
    var directory, lock := NONE, NONE;
    var anchor := OpenCoordinationAnchor(k, anchorComponents);
    ok := false;
    if anchor >= 0 {
      var found := OpenStateDirectory(k, stateComponents, false, true);
      if found.Directory? {
        directory := found.fd;
        lock := OpenFixedFile(k, false);
        if lock >= 0 { ok := k.Check(); }
      }
    }
    ListedSets(lock, directory, anchor);
    var clean := k.CloseManyQuietly([lock, directory, anchor]);
  }

  /** A running operation owns its lock, state directory and anchor until it is closed. */
  class Operation {
    const lock: int
    const directory: int
    const anchor: int
    var closed: bool

    function Descriptors(): set<int>
      reads this
    {
      {lock, directory, anchor}
    }

    /** The operation owns three different live descriptors until closed. */
    ghost predicate Owns(k: Kernel)
      reads this, k
    {
      !closed ==> Descriptors() <= k.live && lock != directory && lock != anchor && directory != anchor
    }

    constructor (lock: int, directory: int, anchor: int)
      ensures this.lock == lock && this.directory == directory && this.anchor == anchor && !closed
    {
      this.lock, this.directory, this.anchor, closed := lock, directory, anchor, false;
    }

    /** Attempt each descriptor once; closing again does nothing. */
    method Close(k: Kernel) returns (clean: bool)
      requires k.Valid() && Owns(k)
      modifies this, k
      ensures k.Valid() && closed && k.issued == old(k.issued)
      ensures k.live == if old(closed) then old(k.live) else old(k.live) - Descriptors()
      ensures old(closed) ==> clean && k.attempts == old(k.attempts)
      ensures old(k.dirty) <= k.dirty && (clean <==> k.dirty == old(k.dirty))
    {
      if closed { return true; }
      closed := true;
      ListedSets(lock, directory, anchor);
      clean := k.CloseManyQuietly([lock, directory, anchor]);
    }
  }

  /** Lock the anchor, open the state tree and its lock file, and load or create the owner key. */
  method BeginOperation(k: Kernel, anchorComponents: nat, stateComponents: nat, create: bool)
    returns (operation: Operation?)
    requires k.Valid() && stateComponents > 0
    modifies k
    ensures k.Valid() && old(k.issued) <= k.issued
    ensures operation == null ==> k.live == old(k.live)
    ensures operation != null ==>
      && fresh(operation) && !operation.closed && operation.Owns(k)
      && k.live == old(k.live) + operation.Descriptors() && operation.Descriptors() !! old(k.issued)
    // Nothing was refused; without an operation something was, or a close was not clean, or the state is missing.
    ensures old(k.faults) <= k.faults && old(k.dirty) <= k.dirty && old(k.absences) <= k.absences
    ensures operation != null ==> k.faults == old(k.faults) && (k.absences > old(k.absences) ==> create)
    ensures operation == null ==>
      k.faults > old(k.faults) || k.dirty > old(k.dirty) || (!create && k.absences > old(k.absences))
  {
    hide Kernel.Balanced;
    var anchor := OpenCoordinationAnchor(k, anchorComponents);
    if anchor < 0 { return null; }
    var locked := k.Check();
    if !locked {
      var clean := k.CloseQuietly(anchor);
      return null;
    }
    var found := OpenStateDirectory(k, stateComponents, create, false);
    if !found.Directory? {
      var clean := k.CloseQuietly(anchor);
      return null;
    }
    var directory := found.fd;
    var lock := OpenFixedFile(k, create);
    ListedSets(lock, directory, anchor);
    if lock >= 0 {
      var ready := LoadOwner(k, create);
      if ready {
        operation := new Operation(lock, directory, anchor);
        var continuous := VerifyContinuity(k, anchorComponents, stateComponents);
        if continuous { return operation; }
      }
    }
    var clean := k.CloseManyQuietly([lock, directory, anchor]);
    return null;
  }

  /** Sync the directory, lock the file, and read the owner key or create one. */
  method LoadOwner(k: Kernel, create: bool) returns (ok: bool)
    requires k.Valid()
    modifies k
    ensures k.Valid() && old(k.issued) <= k.issued && k.live == old(k.live)
    ensures old(k.faults) <= k.faults && old(k.dirty) <= k.dirty && old(k.absences) <= k.absences
    ensures ok ==> k.faults == old(k.faults) && k.dirty == old(k.dirty) && (k.absences > old(k.absences) ==> create)
    ensures !ok ==> k.faults > old(k.faults) || k.dirty > old(k.dirty) || (!create && k.absences > old(k.absences))
  {
    hide Kernel.Balanced;
    ok := k.Check();
    if !ok { return false; }
    var owner := ReadOwnerKey(k, false);
    if owner == NoKey {
      if !create { return false; }
      owner := CreateOwnerKey(k);
    }
    return owner == Key;
  }

  /** One whole command: begin, re-verify continuity any number of times, close. Every descriptor it opened
      has had exactly one close attempt, whatever failed. */
  method WithOperation(k: Kernel, anchorComponents: nat, stateComponents: nat, create: bool, checks: nat)
    returns (ran: bool)
    requires k.Valid() && stateComponents > 0
    modifies k
    ensures k.Valid() && Conserved(old(k.issued), old(k.attempts), k.issued, k.attempts, {})
    ensures ran || k.faults > old(k.faults) || k.dirty > old(k.dirty) || (!create && k.absences > old(k.absences))
  {
    var operation := BeginOperation(k, anchorComponents, stateComponents, create);
    ran := operation != null;
    if operation != null {
      for i := 0 to checks
        invariant k.Valid() && old(k.issued) <= k.issued && fresh(operation) && !operation.closed && operation.Owns(k)
        invariant k.live == old(k.live) + operation.Descriptors() && operation.Descriptors() !! old(k.issued)
      {
        var ok := VerifyContinuity(k, anchorComponents, stateComponents);
        if !ok { break; }
      }
      var clean := operation.Close(k);
    }
    LiveMeansConserved(old(k.issued), old(k.live), old(k.attempts), k.issued, k.live, k.attempts, {});
  }
}
