/** The lock file of a backup directory: who holds it, in every interleaving of
    processes that open, lock, unlock, close and remove it. */
module Lock {
  import opened Wrappers

  type Pid = nat

  datatype Mode = Unlocked | Shared | Exclusive

  datatype Handle = Handle(file: nat, mode: Mode)

  /** What the operating system keeps: which file the lock's name stands for, the
      open handles, and how many files had that name so far. */
  datatype Os = Os(entry: Option<nat>, handles: map<Pid, Handle>, files: nat)

  const NO_LOCK_FILE: Os := Os(None, map[], 0)

  /** os.OpenFile with O_CREATE. */
  function OpenFile(os: Os, p: Pid): Os {
    if os.entry.Some? then os.(handles := os.handles[p := Handle(os.entry.value, Unlocked)])
    else Os(Some(os.files), os.handles[p := Handle(os.files, Unlocked)], os.files + 1)
  }

  predicate Compatible(a: Mode, b: Mode) {
    a == Unlocked || b == Unlocked || (a == Shared && b == Shared)
  }

  /** LockFileEx without waiting: it fails when another handle of the same file
      holds a conflicting lock. */
  predicate CanLock(os: Os, p: Pid, mode: Mode)
    requires p in os.handles
  {
    forall q :: q in os.handles && q != p && os.handles[q].file == os.handles[p].file ==>
      Compatible(os.handles[q].mode, mode)
  }

  function SetMode(os: Os, p: Pid, mode: Mode): Os
    requires p in os.handles
  {
    os.(handles := os.handles[p := os.handles[p].(mode := mode)])
  }

  function CloseFile(os: Os, p: Pid): Os { os.(handles := os.handles - {p}) }

  /** os.Remove: it fails while a handle of the file is open, unless open files
      could be removed. */
  predicate CanRemove(os: Os, openRemovable: bool) {
    os.entry.Some? && (openRemovable || forall q :: q in os.handles ==> os.handles[q].file != os.entry.value)
  }

  function RemoveFile(os: Os, openRemovable: bool): Os {
    if CanRemove(os, openRemovable) then os.(entry := None) else os
  }

  // --------------------------------------------------------------------------- processes

  /** Where a process stands: it opened the file; it holds the lock; it is
      releasing, the file still open; the file is closed but not yet removed. */
  datatype Stage = Opened | Held | Releasing | Closed

  datatype Process = Process(exclusive: bool, stage: Stage)

  datatype World = World(os: Os, processes: map<Pid, Process>)

  const START: World := World(NO_LOCK_FILE, map[])

  /** The steps of AcquireBackupLock, AcquireReadLock and Release, and a process
      that ends at any point. */
  datatype Event =
    | Open(p: Pid, exclusive: bool)
    | OpenExisting(p: Pid)
    | TryLock(p: Pid)
    | Unlock(p: Pid, failed: bool)
    | Close(p: Pid)
    | Remove(p: Pid)
    | Exit(p: Pid)

  predicate Enabled(w: World, e: Event) {
    match e
    case Open(p, _) => p !in w.processes
    case OpenExisting(p) => p !in w.processes && w.os.entry.Some?
    case TryLock(p) => p in w.processes && w.processes[p].stage == Opened
    case Unlock(p, _) => p in w.processes && w.processes[p].stage == Held
    case Close(p) => p in w.processes && w.processes[p].stage == Releasing
    case Remove(p) => p in w.processes && w.processes[p].stage == Closed
    case Exit(p) => p in w.processes
  }

  /** The handles are those of the processes that have the file open. */
  ghost predicate WellFormed(w: World) {
    w.os.handles.Keys == set p | p in w.processes && w.processes[p].stage != Closed
  }

  function LockMode(exclusive: bool): Mode { if exclusive then Exclusive else Shared }

  function Apply(w: World, e: Event, openRemovable: bool): World
    requires WellFormed(w) && Enabled(w, e)
  {
    var os, ps := w.os, w.processes;
    match e
    case Open(p, exclusive) => World(OpenFile(os, p), ps[p := Process(exclusive, Opened)])
    case OpenExisting(p) => World(OpenFile(os, p), ps[p := Process(false, Opened)])
    case TryLock(p) =>
      var mode := LockMode(ps[p].exclusive);
      if CanLock(os, p, mode) then World(SetMode(os, p, mode), ps[p := ps[p].(stage := Held)])
      else World(CloseFile(os, p), ps - {p})
    case Unlock(p, failed) =>
      World(if failed then os else SetMode(os, p, Unlocked), ps[p := ps[p].(stage := Releasing)])
    case Close(p) =>
      World(CloseFile(os, p), if ps[p].exclusive then ps[p := ps[p].(stage := Closed)] else ps - {p})
    case Remove(p) => World(RemoveFile(os, openRemovable), ps - {p})
    case Exit(p) => World(CloseFile(os, p), ps - {p})
  }

  // --------------------------------------------------------------------------- safety

  /** Every open handle is one of the file that the name stands for, held locks
      are compatible, and a process that holds the lock has it in its mode. */
  ghost predicate Inv(w: World) {
    && WellFormed(w)
    && (forall p :: p in w.os.handles ==> w.os.entry == Some(w.os.handles[p].file))
    && (forall p, q :: p in w.os.handles && q in w.os.handles && p != q ==>
          Compatible(w.os.handles[p].mode, w.os.handles[q].mode))
    && (forall p :: p in w.processes && w.processes[p].stage == Held ==>
          p in w.os.handles && w.os.handles[p].mode == LockMode(w.processes[p].exclusive))
    && (forall p :: p in w.os.handles && w.processes[p].stage == Opened ==> w.os.handles[p].mode == Unlocked)
  }

  lemma StepKeepsWellFormed(w: World, e: Event, openRemovable: bool)
    requires WellFormed(w) && Enabled(w, e)
    ensures WellFormed(Apply(w, e, openRemovable))
  {
    hide CanLock, CanRemove;
  }

  lemma OpenKeepsInv(w: World, e: Event)
    requires Inv(w) && Enabled(w, e) && (e.Open? || e.OpenExisting?)
    ensures Inv(Apply(w, e, false))
  {
    StepKeepsWellFormed(w, e, false);
  }

  lemma TryLockKeepsInv(w: World, p: Pid)
    requires Inv(w) && Enabled(w, TryLock(p))
    ensures Inv(Apply(w, TryLock(p), false))
  {
    StepKeepsWellFormed(w, TryLock(p), false);
  }

  lemma UnlockKeepsInv(w: World, p: Pid, failed: bool)
    requires Inv(w) && Enabled(w, Unlock(p, failed))
    ensures Inv(Apply(w, Unlock(p, failed), false))
  {
    StepKeepsWellFormed(w, Unlock(p, failed), false);
  }

  lemma LeaveKeepsInv(w: World, e: Event)
    requires Inv(w) && Enabled(w, e) && (e.Close? || e.Remove? || e.Exit?)
    ensures Inv(Apply(w, e, false))
  {
    StepKeepsWellFormed(w, e, false);
  }

  lemma StepKeepsInv(w: World, e: Event)
    requires Inv(w) && Enabled(w, e)
    ensures Inv(Apply(w, e, false))
  {
    hide *;
    match e
    case TryLock(p) => TryLockKeepsInv(w, p);
    case Unlock(p, failed) => UnlockKeepsInv(w, p, failed);
    case Open(_, _) => OpenKeepsInv(w, e);
    case OpenExisting(_) => OpenKeepsInv(w, e);
    case _ => LeaveKeepsInv(w, e);
  }

  ghost predicate IsRun(w: World, events: seq<Event>, v: World, openRemovable: bool)
    requires WellFormed(w)
    decreases |events|
  {
    if events == [] then w == v
    else
      Enabled(w, events[0]) &&
      (StepKeepsWellFormed(w, events[0], openRemovable);
       IsRun(Apply(w, events[0], openRemovable), events[1..], v, openRemovable))
  }

  lemma {:induction false} RunKeepsInv(w: World, events: seq<Event>, v: World)
    requires Inv(w) && IsRun(w, events, v, false)
    ensures Inv(v)
    decreases |events|
  {
    hide Apply, Enabled;
    if events != [] {
      StepKeepsInv(w, events[0]);
      RunKeepsInv(Apply(w, events[0], false), events[1..], v);
    }
  }

  predicate Holds(w: World, p: Pid) { p in w.processes && w.processes[p].stage == Held }

  /** In every interleaving, a process that holds the exclusive lock excludes
      every other holder, although exclusive holders delete the lock file. */
  lemma ExclusiveExcludes(events: seq<Event>, w: World, p: Pid, q: Pid)
    requires WellFormed(START) && IsRun(START, events, w, false)
    requires Holds(w, p) && w.processes[p].exclusive && q != p
    ensures !Holds(w, q)
  {
    RunKeepsInv(START, events, w);
    hide IsRun;
  }

  /** Any number of readers: a shared lock is granted exactly when no process holds
      the exclusive one, a backup's exactly when no process holds any (and every
      process that is releasing has unlocked the file already). */
  lemma WhenGranted(events: seq<Event>, w: World, p: Pid)
    requires WellFormed(START) && IsRun(START, events, w, false)
    requires p in w.processes && w.processes[p].stage == Opened
    requires forall q :: q in w.os.handles && w.os.handles[q].mode != Unlocked ==> Holds(w, q)
    ensures WellFormed(w)
    ensures Holds(Apply(w, TryLock(p), false), p) <==>
            forall q :: Holds(w, q) ==> !w.processes[p].exclusive && !w.processes[q].exclusive
  {
    RunKeepsInv(START, events, w);
    hide IsRun;
  }

  /** The safety rests on open files not being removable: if they were, a backup
      could lock a file that was already deleted while another locks its successor. */
  lemma UnsafeIfOpenFilesWereRemovable() returns (events: seq<Event>, w: World)
    ensures WellFormed(START) && IsRun(START, events, w, true)
    ensures Holds(w, 1) && w.processes[1].exclusive && Holds(w, 2) && w.processes[2].exclusive
  {
    w := AT_END;
    FirstSteps();
    ReleaseSteps();
    LastSteps();
    hide *;
    Joined(START, FIRST, TWO_OPEN, RELEASE, ONE_OPEN);
    events := FIRST + RELEASE + LAST;
    Joined(START, FIRST + RELEASE, ONE_OPEN, LAST, AT_END);
  }

  // A backup locks the file and another opens it; the first releases it; the
  // second locks what it has open, and a third locks a new file.
  const FIRST: seq<Event> := [Open(0, true), TryLock(0), Open(1, true)]
  const RELEASE: seq<Event> := [Unlock(0, false), Close(0), Remove(0)]
  const LAST: seq<Event> := [TryLock(1), Open(2, true), TryLock(2)]

  const FRESH: Process := Process(true, Opened)
  const HOLDER: Process := Process(true, Held)
  const TWO_OPEN: World :=
    World(Os(Some(0), map[0 := Handle(0, Exclusive), 1 := Handle(0, Unlocked)], 1), map[0 := HOLDER, 1 := FRESH])
  const ONE_OPEN: World := World(Os(None, map[1 := Handle(0, Unlocked)], 1), map[1 := FRESH])
  const AT_END: World :=
    World(Os(Some(1), map[1 := Handle(0, Exclusive), 2 := Handle(1, Exclusive)], 2), map[1 := HOLDER, 2 := HOLDER])

  lemma FirstSteps()
    ensures WellFormed(START) && IsRun(START, FIRST, TWO_OPEN, true) && WellFormed(TWO_OPEN)
  {
    var a := World(Os(Some(0), map[0 := Handle(0, Unlocked)], 1), map[0 := FRESH]);
    var b := World(Os(Some(0), map[0 := Handle(0, Exclusive)], 1), map[0 := HOLDER]);
    assert WellFormed(a) && WellFormed(b) && WellFormed(TWO_OPEN);
    assert Apply(START, Open(0, true), true) == a;
    assert CanLock(a.os, 0, Exclusive) && Apply(a, TryLock(0), true) == b;
    assert Apply(b, Open(1, true), true) == TWO_OPEN;
    hide Apply, CanLock;
    ThreeSteps(START, Open(0, true), a, TryLock(0), b, Open(1, true), TWO_OPEN);
  }

  /** The holder unlocks, closes and removes the file while another has it open. */
  lemma ReleaseSteps()
    ensures WellFormed(TWO_OPEN) && IsRun(TWO_OPEN, RELEASE, ONE_OPEN, true) && WellFormed(ONE_OPEN)
  {
    var m := World(Os(Some(0), map[0 := Handle(0, Unlocked), 1 := Handle(0, Unlocked)], 1),
                   map[0 := Process(true, Releasing), 1 := FRESH]);
    var n := World(Os(Some(0), map[1 := Handle(0, Unlocked)], 1), map[0 := Process(true, Closed), 1 := FRESH]);
    assert WellFormed(TWO_OPEN) && WellFormed(m) && WellFormed(n) && WellFormed(ONE_OPEN);
    Unlocking(m);
    ClosingIt(m, n);
    Removing(n);
    hide Apply, CanRemove;
    ThreeSteps(TWO_OPEN, Unlock(0, false), m, Close(0), n, Remove(0), ONE_OPEN);
  }

  lemma Unlocking(m: World)
    requires m == World(Os(Some(0), map[0 := Handle(0, Unlocked), 1 := Handle(0, Unlocked)], 1),
                        map[0 := Process(true, Releasing), 1 := FRESH])
    ensures WellFormed(TWO_OPEN) && Apply(TWO_OPEN, Unlock(0, false), true) == m
  {
  }

  lemma ClosingIt(m: World, n: World)
    requires m == World(Os(Some(0), map[0 := Handle(0, Unlocked), 1 := Handle(0, Unlocked)], 1),
                        map[0 := Process(true, Releasing), 1 := FRESH])
    requires n == World(Os(Some(0), map[1 := Handle(0, Unlocked)], 1), map[0 := Process(true, Closed), 1 := FRESH])
    ensures WellFormed(m) && Apply(m, Close(0), true) == n
  {
  }

  lemma Removing(n: World)
    requires n == World(Os(Some(0), map[1 := Handle(0, Unlocked)], 1), map[0 := Process(true, Closed), 1 := FRESH])
    ensures WellFormed(n) && Apply(n, Remove(0), true) == ONE_OPEN
  {
  }

  lemma LastSteps()
    ensures WellFormed(ONE_OPEN) && IsRun(ONE_OPEN, LAST, AT_END, true) && WellFormed(AT_END)
    ensures Holds(AT_END, 1) && AT_END.processes[1].exclusive && Holds(AT_END, 2) && AT_END.processes[2].exclusive
  {
    var d := World(Os(None, map[1 := Handle(0, Exclusive)], 1), map[1 := HOLDER]);
    var e := World(Os(Some(1), map[1 := Handle(0, Exclusive), 2 := Handle(1, Unlocked)], 2), map[1 := HOLDER, 2 := FRESH]);
    assert WellFormed(ONE_OPEN) && WellFormed(d) && WellFormed(e) && WellFormed(AT_END);
    assert CanLock(ONE_OPEN.os, 1, Exclusive) && Apply(ONE_OPEN, TryLock(1), true) == d;
    assert Apply(d, Open(2, true), true) == e;
    LockingTheNew(e);
    hide Apply, CanLock;
    ThreeSteps(ONE_OPEN, TryLock(1), d, Open(2, true), e, TryLock(2), AT_END);
  }

  lemma LockingTheNew(e: World)
    requires e == World(Os(Some(1), map[1 := Handle(0, Exclusive), 2 := Handle(1, Unlocked)], 2), map[1 := HOLDER, 2 := FRESH])
    ensures WellFormed(e) && Apply(e, TryLock(2), true) == AT_END
  {
    assert CanLock(e.os, 2, Exclusive);
  }

  lemma ThreeSteps(a: World, e: Event, b: World, f: Event, c: World, g: Event, d: World)
    requires WellFormed(a) && Enabled(a, e) && Apply(a, e, true) == b
    requires WellFormed(b) && Enabled(b, f) && Apply(b, f, true) == c
    requires WellFormed(c) && Enabled(c, g) && Apply(c, g, true) == d && WellFormed(d)
    ensures IsRun(a, [e, f, g], d, true)
  {
    hide Apply, Enabled;
    OneStep(c, g, d);
    Prepend(b, f, c, [g], d);
    Prepend(a, e, b, [f] + [g], d);
    assert [e] + ([f] + [g]) == [e, f, g];
  }

  lemma OneStep(w: World, e: Event, v: World)
    requires WellFormed(w) && Enabled(w, e) && Apply(w, e, true) == v
    ensures IsRun(w, [e], v, true)
  {
    StepKeepsWellFormed(w, e, true);
    assert IsRun(v, [], v, true);
    assert [e][1..] == [];
    hide Apply;
  }

  lemma Prepend(w: World, e: Event, u: World, events: seq<Event>, v: World)
    requires WellFormed(w) && Enabled(w, e) && Apply(w, e, true) == u && WellFormed(u) && IsRun(u, events, v, true)
    ensures IsRun(w, [e] + events, v, true)
  {
    assert ([e] + events)[1..] == events;
    hide Apply;
  }

  lemma {:induction false} Joined(w: World, a: seq<Event>, u: World, b: seq<Event>, v: World)
    requires WellFormed(w) && WellFormed(u) && IsRun(w, a, u, true) && IsRun(u, b, v, true)
    ensures IsRun(w, a + b, v, true)
    decreases |a|
  {
    hide Apply, Enabled;
    if a == [] {
      assert a + b == b;
    } else {
      StepKeepsWellFormed(w, a[0], true);
      Joined(Apply(w, a[0], true), a[1..], u, b, v);
      assert (a + b)[1..] == a[1..] + b;
    }
  }

  // ------------------------------------------------------------------- one process's view

  /** The backup directory's lock file as the operating system serves it. */
  class Directory {
    var os: Os
    /** Whether opening the file has failed although the name allows it. */
    var refused: bool

    /** os.OpenFile for a new handle; mayCreate is off for os.Open. */
    method Open(h: Pid, mayCreate: bool) returns (ok: bool)
      requires h !in os.handles
      modifies this
      ensures os == if ok then OpenFile(old(os), h) else old(os)
      ensures ok && !mayCreate ==> old(os).entry.Some?
      ensures refused == (old(refused) || (!ok && (mayCreate || old(os).entry.Some?)))
    {
      ok := *;
      if !mayCreate && os.entry.None? {
        ok := false;
      } else if ok {
        os := OpenFile(os, h);
      } else {
        refused := true;
      }
    }

    method LockFile(h: Pid, mode: Mode) returns (ok: bool)
      requires h in os.handles
      modifies this`os
      ensures ok == CanLock(old(os), h, mode) && os == if ok then SetMode(old(os), h, mode) else old(os)
    {
      ok := CanLock(os, h, mode);
      if ok {
        os := SetMode(os, h, mode);
      }
    }
  }

  class BackupLock {
    var file: Option<Pid>
    const exclusive: bool

    constructor (file: Option<Pid>, exclusive: bool)
      ensures this.file == file && this.exclusive == exclusive
    {
      this.file, this.exclusive := file, exclusive;
    }

    /** Release: the lock, the handle and, for a backup, the file are gone; a
        second call changes nothing. */
    method Release(dir: Directory)
      requires file.Some? ==> file.value in dir.os.handles
      modifies this, dir
      ensures file.None?
      ensures dir.os == if old(file).None? then old(dir.os)
                        else if exclusive then RemoveFile(CloseFile(old(dir.os), old(file).value), false)
                        else CloseFile(old(dir.os), old(file).value)
    {
      if file.None? {
        return;
      }
      dir.os := SetMode(dir.os, file.value, Unlocked);
      dir.os := CloseFile(dir.os, file.value);
      ClosedAlike(old(dir.os), file.value);
      file := None;
      if exclusive {
        dir.os := RemoveFile(dir.os, false);
      }
    }
  }

  lemma ClosedAlike(os: Os, h: Pid)
    requires h in os.handles
    ensures CloseFile(SetMode(os, h, Unlocked), h) == CloseFile(os, h)
  {
  }

  /** AcquireBackupLock: no lock, and no handle left open, when the file cannot be
      created or anyone holds a lock of it. */
  method AcquireBackupLock(dir: Directory, h: Pid) returns (lock: Option<BackupLock>)
    requires h !in dir.os.handles
    modifies dir
    ensures lock.Some? ==>
              && fresh(lock.value) && lock.value.file == Some(h) && lock.value.exclusive
              && dir.os == SetMode(OpenFile(old(dir.os), h), h, Exclusive) && CanLock(OpenFile(old(dir.os), h), h, Exclusive)
    ensures lock.None? ==>
              && dir.os.handles == old(dir.os).handles
              && ((dir.os == old(dir.os) && dir.refused) || !CanLock(OpenFile(old(dir.os), h), h, Exclusive))
  {
    var ok := dir.Open(h, true);
    if !ok {
      return None;
    }
    ok := dir.LockFile(h, Exclusive);
    if !ok {
      dir.os := CloseFile(dir.os, h);
      return None;
    }
    var l := new BackupLock(Some(h), true);
    return Some(l);
  }

  datatype ReadLock = Locked(lock: BackupLock) | HoldsNothing(empty: BackupLock) | BackupRunning

  /** AcquireReadLock: a directory whose lock file can be neither created nor
      opened gives a lock that holds nothing. */
  method AcquireReadLock(dir: Directory, h: Pid) returns (r: ReadLock)
    requires h !in dir.os.handles
    modifies dir
    ensures match r
            case Locked(l) =>
              && fresh(l) && l.file == Some(h) && !l.exclusive
              && dir.os == SetMode(OpenFile(old(dir.os), h), h, Shared) && CanLock(OpenFile(old(dir.os), h), h, Shared)
            case HoldsNothing(l) => fresh(l) && l.file.None? && dir.os == old(dir.os) && dir.refused
            case BackupRunning => dir.os.handles == old(dir.os).handles && !CanLock(OpenFile(old(dir.os), h), h, Shared)
  {
    var ok := dir.Open(h, true);
    if !ok {
      ok := dir.Open(h, false);
      if !ok {
        var none := new BackupLock(None, false);
        return HoldsNothing(none);
      }
    }
    ok := dir.LockFile(h, Shared);
    if !ok {
      dir.os := CloseFile(dir.os, h);
      return BackupRunning;
    }
    var l := new BackupLock(Some(h), false);
    return Locked(l);
  }
}
