/** The operating system and the user managers as one deployment meets them: every call may fail, be
    interrupted or transfer less than asked, and other deployments act between any two calls. */
module Environment {
  import opened Text
  import opened Disk
  import opened Machine
  import opened Safety
  import Guarantees
  import Story

  datatype OpenReply = Opened | NameTaken | OpenFailed
  datatype WriteReply = Wrote(n: nat) | WriteInterrupted | WriteFailed
  datatype ReadReply = Got(bytes: string) | ReadInterrupted | ReadFailed
  datatype LockReply = Locked | LockInterrupted | LockFailed
  datatype UnitStatus = UnitStatus(load: string, active: string, sub: string)

  /** `deployed_status_is_healthy`. */
  predicate Healthy(status: UnitStatus) {
    status.load == "loaded" && status.active == "active"
  }

  /** What other deployments and the managers can never change for deployment `d`. */
  ghost predicate Spared(s: State, s': State, d: nat)
    requires d < |s.ds|
  {
    var ph := s.ds[d].phase;
    var uid := s.ds[d].job.uid;
    && d < |s'.ds| && s'.ds[d] == s.ds[d]
    && (ph.Filling? && ph.ino in s.fs.data ==> ph.ino in s'.fs.data && s'.fs.data[ph.ino] == s.fs.data[ph.ino])
    && (ph.Awaiting? && uid in s.busy && s.busy[uid].requester == Some(d) ==>
          && uid in s'.busy && s'.busy[uid].requester == Some(d)
          && s.busy[uid].seen.Keys <= s'.busy[uid].seen.Keys)
  }

  /** An event that is not `d`'s, nor the answer `d` is waiting for. */
  predicate Foreign(s: State, e: Event, d: nat)
    requires d < |s.ds|
  {
    && !e.CrashSystem?
    && !(e.By? && e.d == d)
    && !(e.FinishReload? && s.ds[d].phase.Awaiting? && e.uid == s.ds[d].job.uid)
  }

  lemma ActSpares(c: Config, s: State, e: nat, a: Act, d: nat)
    requires Inv(c, s) && d < |s.ds| && ReadyBy(c, s, e, a) && e != d
    ensures Spared(s, NextBy(c, s, e, a), d)
  {
    var x := s.ds[d];
    if x.phase.Filling? {
      assert Mine(c, s, d);
      TempsApart(c, s, e, d);
      TouchData(c, s, e, a, x.phase.ino);
    }
    if x.phase.Awaiting? && x.job.uid in s.busy && s.busy[x.job.uid].requester == Some(d) {
      OthersReloadStays(c, s, e, a, x.job.uid);
    }
  }

  /** Another deployment can neither take over nor end a reload its manager is working on for somebody else. */
  lemma OthersReloadStays(c: Config, s: State, e: nat, a: Act, uid: nat)
    requires ReadyBy(c, s, e, a) && uid in s.busy && s.busy[uid].requester.Some? && s.busy[uid].requester != Some(e)
    ensures uid in NextBy(c, s, e, a).busy && NextBy(c, s, e, a).busy[uid] == s.busy[uid]
  {
  }

  lemma ForeignSpares(c: Config, s: State, e: Event, d: nat)
    requires Inv(c, s) && d < |s.ds| && Ready(c, s, e) && Foreign(s, e, d)
    ensures Spared(s, Next(c, s, e), d)
  {
    match e {
      case By(other, a) => ActSpares(c, s, other, a, d);
      case FinishReload(uid) => ReplySpares(s, uid, d);
      case ReadUnit(p) => ReadSpares(c, s, p, d);
      case CrashSystem(_, _, _) =>
    }
  }

  lemma ReplySpares(s: State, uid: nat, d: nat)
    requires d < |s.ds| && uid in s.busy && Foreign(s, FinishReload(uid), d) && BusyOk(s)
    ensures Spared(s, FinishedReload(s, uid), d)
  {
    ReplyMoves(s, uid, d);
  }

  lemma ReadSpares(c: Config, s: State, p: Path, d: nat)
    requires d < |s.ds| && p.uid in s.busy
    ensures Spared(s, Next(c, s, ReadUnit(p)), d)
  {
  }

  /** `p` holds `text`, and no crash can change that. */
  ghost predicate Surely(fs: Fs, p: Path, text: Option<string>) {
    Read(fs, p) == text && forall after :: CrashTo(fs, after) ==> Read(after, p) == text
  }

  /** What holds at the moment a deployment that had its lock returns. */
  ghost predicate AtReturn(s: State, d: nat) {
    d < |s.ds| && s.ds[d].phase.Done? &&
    var x := s.ds[d];
    var p := Target(x.job);
    match x.phase.outcome
    case Committed => Surely(s.fs, p, Some(x.job.contents))
    case RolledBack => Surely(s.fs, p, x.entry)
    case Untouched => Read(s.fs, p) == x.entry
    case InstallUnsynced => Read(s.fs, p) == Some(x.job.contents)
    case RestoreFailed(applied) => Read(s.fs, p) == (if applied then Some(x.job.contents) else x.entry)
  }

  lemma ReturnHolds(c: Config, s: State, e: Event, d: nat)
    requires Guarantees.Reachable(c, s) && Guarantees.Returns(c, s, e, d)
    ensures AtReturn(Next(c, s, e), d)
  {
    Guarantees.OutcomeIsExact(c, s, e, d);
    var t := Next(c, s, e);
    forall after | CrashTo(t.fs, after)
      ensures t.ds[d].phase == Done(Committed) ==> Read(after, Target(t.ds[d].job)) == Some(t.ds[d].job.contents)
      ensures t.ds[d].phase == Done(RolledBack) ==> Read(after, Target(t.ds[d].job)) == t.ds[d].entry
    {
      Guarantees.ReturnIsDurable(c, s, e, d, after);
    }
  }

  /** The reply to the own daemon-reload: the deployment moves on, with its file loaded. */
  lemma ReplyHolds(c: Config, s: State, d: nat)
    requires Guarantees.Reachable(c, s) && d < |s.ds| && s.ds[d].phase.Awaiting?
    requires Ready(c, s, FinishReload(s.ds[d].job.uid)) && s.busy[s.ds[d].job.uid].requester == Some(d)
    ensures var t := FinishedReload(s, s.ds[d].job.uid);
      && d < |t.ds| && t.ds[d] == AfterReload(s.ds[d], s.ds[d].phase.goal)
      && Loaded(t, Target(t.ds[d].job)) == Read(t.fs, Target(t.ds[d].job))
      && (t.ds[d].phase.Done? ==> AtReturn(t, d))
  {
    var reply := FinishReload(s.ds[d].job.uid);
    Guarantees.OwnReloadLoadsTheFile(c, s, d);
    if Next(c, s, reply).ds[d].phase.Done? {
      ReturnHolds(c, s, reply, d);
    }
  }

  lemma {:induction false} NumberStays(c: Config, s: State, es: seq<Event>)
    requires ValidRun(c, s, es)
    ensures |After(c, s, es).ds| == |s.ds|
    decreases |es|
  {
    if es != [] {
      JobsStay(c, s, es[0]);
      NumberStays(c, Next(c, s, es[0]), es[1..]);
    }
  }

  /** Nobody else's event is a deed of `d`. */
  lemma ForeignIsNoDeed(s: State, e: Event, d: nat)
    requires d < |s.ds| && Story.AskedInv(s) && BusyOk(s) && Foreign(s, e, d) && !s.ds[d].phase.Crashed?
    ensures Story.DeedsOf(s, e, d) == []
  {
  }

  lemma NextPart(done: string, rest: string, text: string, n: nat)
    requires text == done + rest && n <= |rest|
    ensures text[|done|..|done| + n] == rest[..n]
  {
  }

  class Host {
    const c: Config
    ghost const start: State
    ghost var run: seq<Event>     // everything that has happened since `start`
    var s: State
    var interrupts: nat           // signals still to interrupt a system call
    ghost var faults: nat         // calls that have failed, EINTR and EEXIST not counted
    ghost var taken: nat          // temporary names found taken (EEXIST)
    ghost var sick: nat           // restarts that ended with a unit not loaded or not active

    /** The state is one the machine reaches. */
    ghost predicate Valid()
      reads this
    {
      Init(c, start) && ValidRun(c, start, run) && s == After(c, start, run)
    }

    lemma Invariant()
      requires Valid()
      ensures Inv(c, s) && Guarantees.Reachable(c, s)
    {
      InitInv(c, start);
      RunKeepsInv(c, start, run);
    }

    /** What `d` has done to its path and asked of its manager so far. */
    ghost function Deeds(d: nat): seq<Story.Deed>
      reads this
      requires Valid()
    {
      Story.Deeds(c, start, run, d)
    }

    lemma DeedsAreTold(d: nat)
      requires Valid() && d < |s.ds|
      ensures Story.Told(s.ds[d], Deeds(d))
    {
      NumberStays(c, start, run);
      Story.DeedsAreTold(c, start, run, d);
    }

    /** A call whose restore failed has told its failure first. */
    lemma FailureIsTold(d: nat)
      requires Valid() && d < |s.ds| && s.ds[d].phase.Done? && s.ds[d].phase.outcome.RestoreFailed?
      ensures Story.Failed(s.ds[d].again) <= Deeds(d)
    {
      DeedsAreTold(d);
    }

    lemma NothingIsTold(d: nat)
      requires Valid() && d < |s.ds| && s.ds[d].phase == Done(Untouched)
      ensures Deeds(d) == []
    {
      DeedsAreTold(d);
    }

    lemma InstalledIsTold(d: nat)
      requires Valid() && d < |s.ds| && s.ds[d].phase == Reloading(Install)
      ensures Deeds(d) == [Story.Renamed, Story.Synced]
    {
      DeedsAreTold(d);
    }

    lemma RestoreIsTold(d: nat)
      requires Valid() && d < |s.ds| && (s.ds[d].phase.Removing? || s.ds[d].phase == Opening(Restore, 0))
      ensures Deeds(d) == Story.Failed(s.ds[d].again)
    {
      DeedsAreTold(d);
    }

    lemma UndoneIsTold(d: nat)
      requires Valid() && d < |s.ds| && s.ds[d].phase == Reloading(Restore)
      ensures Deeds(d) == Story.Failed(s.ds[d].again) + [Story.PutBack(s.ds[d].entry)] + [Story.Synced]
    {
      DeedsAreTold(d);
    }

    lemma SnapshotIsEntry(d: nat)
      requires Valid() && d < |s.ds| && Holds(s.ds[d].phase) && !s.ds[d].phase.Holding?
      ensures s.ds[d].snapshot == s.ds[d].entry
    {
      Invariant();
      assert Mine(c, s, d);
    }

    lemma Asked()
      requires Valid()
      ensures Story.AskedInv(s) && BusyOk(s)
    {
      InitInv(c, start);
      RunKeepsInv(c, start, run);
      Story.RunKeepsAsked(c, start, run);
    }

    lemma IsReachable()
      requires Valid()
      ensures Guarantees.Reachable(c, s)
    {
    }

    constructor (c: Config, start: State, interrupts: nat)
      requires Init(c, start)
      ensures Valid() && this.c == c && s == start && this.interrupts == interrupts
    {
      this.c := c;
      this.start := start;
      this.run := [];
      this.s := start;
      this.interrupts := interrupts;
      this.faults, this.taken, this.sick := 0, 0, 0;
    }

    /** One event, which may be a deed of `d`. */
    method Do(e: Event, ghost d: nat)
      requires Valid() && !e.CrashSystem? && Ready(c, s, e)
      modifies this`s, this`run
      ensures Valid() && s == Next(c, old(s), e)
      ensures Deeds(d) == old(Deeds(d)) + Story.DeedsOf(old(s), e, d)
    {
      RunExtends(c, start, run, e);
      Story.DeedsExtend(c, start, run, e, d);
      run := run + [e];
      s := Next(c, s, e);
    }

    /** One act of deployment `d`. */
    method Act(d: nat, a: Act)
      requires Valid() && ReadyBy(c, s, d, a)
      modifies this`s, this`run
      ensures Valid() && s == NextBy(c, old(s), d, a) && d < |s.ds|
      ensures Deeds(d) == old(Deeds(d)) + Story.DeedsOf(old(s), By(d, a), d)
      ensures old(Holds(s.ds[d].phase)) && s.ds[d].phase.Done? ==> AtReturn(s, d)
    {
      Invariant();
      if Holds(s.ds[d].phase) && Advance(c, s, d, a).phase.Done? {
        ReturnHolds(c, s, By(d, a), d);
      }
      Do(By(d, a), d);
    }

    /** Any number of steps by anybody else. */
    method Interfere(d: nat)
      requires Valid() && d < |s.ds|
      modifies this`s, this`run
      ensures Valid() && Spared(old(s), s, d)
      ensures s.ds[d].phase.Crashed? || Deeds(d) == old(Deeds(d))
    {
      var n: int := *;
      for i := 0 to if n < 0 then 0 else n
        invariant Valid() && Spared(old(s), s, d)
        invariant s.ds[d].phase.Crashed? || Deeds(d) == old(Deeds(d))
      {
        var e: Event := *;
        if Foreign(s, e, d) && Ready(c, s, e) {
          Invariant();
          ForeignSpares(c, s, e, d);
          if !s.ds[d].phase.Crashed? {
            Asked();
            ForeignIsNoDeed(s, e, d);
          }
          Do(e, d);
        }
      }
    }

    method Signalled() returns (b: bool)
      modifies this`interrupts
      ensures b ==> interrupts < old(interrupts)
      ensures !b ==> interrupts == old(interrupts)
    {
      b := *;
      if interrupts == 0 {
        b := false;
      }
      if b {
        interrupts := interrupts - 1;
      }
    }

    /** A system call or a request to the manager may fail; then it is counted. */
    method Fails() returns (b: bool)
      modifies this`faults
      ensures faults == old(faults) + if b then 1 else 0
    {
      b := *;
      if b {
        faults := faults + 1;
      }
    }

    // ----- The deployment lock -----

    method OpenLockFile(d: nat) returns (ok: bool)
      requires Valid() && d < |s.ds| && s.ds[d].phase.Idle? && Acceptable(c, s.ds[d].job)
      modifies this`s, this`run, this`faults
      ensures Valid() && d < |s.ds|
      ensures faults == old(faults) + if ok then 0 else 1
      ensures s.ds[d] == old(s.ds[d]).(phase := s.ds[d].phase)
      ensures if ok then s.ds[d].phase.Waiting? else s.ds[d].phase == Done(Untouched)
    {
      Interfere(d);
      var fails := Fails();
      ok := !fails;
      Act(d, if ok then OpenLock else GiveUp);
    }

    /** `flock(LOCK_EX)`; a call that never returns has no reply. */
    method Flock(d: nat) returns (r: LockReply)
      requires Valid() && d < |s.ds| && s.ds[d].phase.Waiting?
      modifies this`s, this`run, this`interrupts, this`faults
      ensures Valid() && d < |s.ds| && s.ds[d].job == old(s.ds[d].job)
      ensures r.Locked? ==> s.ds[d].phase.Holding?
      ensures r.LockInterrupted? ==> s.ds[d].phase.Waiting? && interrupts < old(interrupts)
      ensures r.LockFailed? ==> s.ds[d] == old(s.ds[d]).(phase := Done(Untouched))
      ensures !r.LockInterrupted? ==> interrupts == old(interrupts)
      ensures faults == old(faults) + if r.LockFailed? then 1 else 0
    {
      Interfere(d);
      var interrupted := Signalled();
      if interrupted {
        return LockInterrupted;
      }
      var fails: bool := *;
      if !fails && s.ds[d].phase.lock !in s.owner {
        Act(d, Acquire);
        return Locked;
      }
      faults := faults + 1;
      Act(d, GiveUp);
      r := LockFailed;
    }

    /** Any failure before the snapshot: the call returns and the lock is released. */
    method Abandon(d: nat)
      requires Valid() && d < |s.ds| && (s.ds[d].phase.Idle? || s.ds[d].phase.Holding?)
      modifies this`s, this`run
      ensures Valid() && d < |s.ds| && s.ds[d] == old(s.ds[d]).(phase := Done(Untouched))
      ensures old(s.ds[d].phase.Holding?) ==> AtReturn(s, d)
    {
      Interfere(d);
      Act(d, GiveUp);
    }

    // ----- Reading the installed Quadlet -----

    /** While the lock is held and nothing is written, the path holds what was found. */
    lemma EntryIsThere(d: nat)
      requires Valid() && d < |s.ds| && s.ds[d].phase.Holding?
      ensures Read(s.fs, Target(s.ds[d].job)) == s.ds[d].entry
    {
      Invariant();
      assert Mine(c, s, d);
    }

    /** `lstat` of the final name: its size, or `None` for ENOENT. */
    method Lstat(d: nat) returns (ok: bool, size: Option<nat>)
      requires Valid() && d < |s.ds| && s.ds[d].phase.Holding?
      modifies this`s, this`run, this`faults
      ensures Valid() && d < |s.ds| && s.ds[d] == old(s.ds[d])
      ensures faults == old(faults) + if ok then 0 else 1
      ensures ok ==> size == (if s.ds[d].entry.Some? then Some(|s.ds[d].entry.value|) else None)
    {
      Interfere(d);
      EntryIsThere(d);
      var fails := Fails();
      ok := !fails;
      var r := Read(s.fs, Target(s.ds[d].job));
      size := if r.Some? then Some(|r.value|) else None;
    }

    /** `read` from the opened file: some of the bytes at `offset`, none only at its end. */
    method ReadFile(d: nat, offset: nat, wanted: nat) returns (r: ReadReply)
      requires Valid() && d < |s.ds| && s.ds[d].phase.Holding? && s.ds[d].entry.Some?
      requires offset + wanted <= |s.ds[d].entry.value| && 0 < wanted
      modifies this`s, this`run, this`interrupts, this`faults
      ensures Valid() && d < |s.ds| && s.ds[d] == old(s.ds[d])
      ensures faults == old(faults) + if r.ReadFailed? then 1 else 0
      ensures r.Got? ==> 0 < |r.bytes| <= wanted && r.bytes == s.ds[d].entry.value[offset..offset + |r.bytes|]
      ensures r.ReadInterrupted? ==> interrupts < old(interrupts)
      ensures !r.ReadInterrupted? ==> interrupts == old(interrupts)
    {
      Interfere(d);
      EntryIsThere(d);
      var interrupted := Signalled();
      if interrupted {
        return ReadInterrupted;
      }
      var fails := Fails();
      if fails {
        return ReadFailed;
      }
      var n: int := *;
      n := if n < 1 then 1 else if n > wanted then wanted else n;
      r := Got(Read(s.fs, Target(s.ds[d].job)).value[offset..offset + n]);
    }

    /** The snapshot is complete; nothing has been written. */
    method NoteSnapshot(d: nat)
      requires Valid() && d < |s.ds| && s.ds[d].phase.Holding?
      requires s.ds[d].entry.Some? ==> |s.ds[d].entry.value| <= c.maxBytes
      modifies this`s, this`run
      ensures Valid() && d < |s.ds|
      ensures s.ds[d] == old(s.ds[d]).(phase := Opening(Install, 0), snapshot := old(s.ds[d].entry))
    {
      EntryIsThere(d);
      Act(d, TakeSnapshot);
    }

    // ----- Writing -----

    method OpenExclusive(d: nat) returns (r: OpenReply)
      requires Valid() && d < |s.ds| && s.ds[d].phase.Opening?
      modifies this`s, this`run, this`faults, this`taken
      ensures Valid() && d < |s.ds|
      ensures faults == old(faults) + if r.OpenFailed? then 1 else 0
      ensures taken == old(taken) + if r.NameTaken? then 1 else 0
      ensures var x, ph := old(s.ds[d]), old(s.ds[d].phase);
        match r
        case Opened =>
          && s.ds[d].phase.Filling? && s.ds[d] == x.(phase := Filling(ph.goal, ph.attempt, s.ds[d].phase.ino))
          && s.ds[d].phase.ino in s.fs.data && s.fs.data[s.ds[d].phase.ino] == ""
        case NameTaken =>
          s.ds[d] == if ph.attempt + 1 < MAX_ATTEMPTS then x.(phase := Opening(ph.goal, ph.attempt + 1))
                     else FailWrite(x, ph.goal)
        case OpenFailed => s.ds[d] == FailWrite(x, ph.goal)
      ensures s.ds[d].phase.Done? ==> AtReturn(s, d)
    {
      Interfere(d);
      var fails := Fails();
      if fails {
        Act(d, OpenFails);
        return OpenFailed;
      }
      if TempPath(s.ds[d].job, s.ds[d].phase.attempt) in s.fs.entries {
        taken := taken + 1;
        Act(d, TempExists);
        return NameTaken;
      }
      Act(d, CreateTemp);
      r := Opened;
    }

    /** `write` of the rest of the contents: all of it, part of it (never nothing), EINTR, or an error. */
    method Write(d: nat, rest: string) returns (r: WriteReply)
      requires Valid() && d < |s.ds| && s.ds[d].phase.Filling? && s.ds[d].phase.ino in s.fs.data && rest != ""
      requires s.fs.data[s.ds[d].phase.ino] + rest == TextFor(s.ds[d], s.ds[d].phase.goal)
      modifies this`s, this`run, this`interrupts, this`faults
      ensures Valid() && d < |s.ds| && s.ds[d] == old(s.ds[d]) && s.ds[d].phase.ino in s.fs.data
      ensures faults == old(faults) + if r.WriteFailed? then 1 else 0
      ensures r.Wrote? ==> 0 < r.n <= |rest|
      ensures s.fs.data[s.ds[d].phase.ino] ==
              old(s.fs.data[s.ds[d].phase.ino]) + (if r.Wrote? then rest[..r.n] else "")
      ensures r.WriteInterrupted? ==> interrupts < old(interrupts)
      ensures !r.WriteInterrupted? ==> interrupts == old(interrupts)
    {
      Interfere(d);
      var interrupted := Signalled();
      if interrupted {
        return WriteInterrupted;
      }
      var fails := Fails();
      if fails {
        return WriteFailed;
      }
      var n: int := *;
      n := if n < 1 then 1 else if n > |rest| then |rest| else n;
      var k := |s.fs.data[s.ds[d].phase.ino]|;
      NextPart(s.fs.data[s.ds[d].phase.ino], rest, TextFor(s.ds[d], s.ds[d].phase.goal), n);
      Act(d, WriteSome(n));
      r := Wrote(n);
    }

    method FsyncFile(d: nat) returns (ok: bool)
      requires Valid() && d < |s.ds| && s.ds[d].phase.Filling? && s.ds[d].phase.ino in s.fs.data
      requires s.fs.data[s.ds[d].phase.ino] == TextFor(s.ds[d], s.ds[d].phase.goal)
      modifies this`s, this`run, this`faults
      ensures Valid() && d < |s.ds|
      ensures faults == old(faults) + if ok then 0 else 1
      ensures var ph := old(s.ds[d].phase);
        ok ==> s.ds[d] == old(s.ds[d]).(phase := Renaming(ph.goal, ph.attempt, ph.ino))
      ensures !ok ==> s.ds[d] == old(s.ds[d])
    {
      Interfere(d);
      var fails := Fails();
      ok := !fails;
      if ok {
        Act(d, SyncTemp);
      }
    }

    method RenameToFinal(d: nat) returns (ok: bool)
      requires Valid() && d < |s.ds| && s.ds[d].phase.Renaming?
      modifies this`s, this`run, this`faults
      ensures Valid() && d < |s.ds|
      ensures faults == old(faults) + if ok then 0 else 1
      ensures s.ds[d] == if ok then old(s.ds[d]).(phase := Flushing(old(s.ds[d].phase.goal))) else old(s.ds[d])
    {
      Interfere(d);
      var fails := Fails();
      ok := !fails;
      if ok {
        Act(d, RenameTemp);
      }
    }

    /** `unlinkat` of the temporary file; its own failure is ignored. */
    method DiscardTemp(d: nat)
      requires Valid() && d < |s.ds| && (s.ds[d].phase.Filling? || s.ds[d].phase.Renaming?)
      modifies this`s, this`run, this`faults
      ensures Valid() && d < |s.ds| && s.ds[d] == FailWrite(old(s.ds[d]), old(s.ds[d].phase.goal))
      ensures s.ds[d].phase.Done? ==> AtReturn(s, d)
      ensures faults >= old(faults)
    {
      Interfere(d);
      Act(d, WriteFails);
      Interfere(d);
      var fails := Fails();
      Act(d, CleanTemp(!fails));
    }

    /** `unlinkat` of the final name; ENOENT counts as success. */
    method UnlinkFinal(d: nat) returns (ok: bool)
      requires Valid() && d < |s.ds| && s.ds[d].phase.Removing?
      modifies this`s, this`run, this`faults
      ensures Valid() && d < |s.ds|
      ensures faults == old(faults) + if ok then 0 else 1
      ensures s.ds[d] == old(s.ds[d]).(phase := if ok then Flushing(Restore) else Done(RestoreFailed(true)))
      ensures s.ds[d].phase.Done? ==> AtReturn(s, d)
    {
      Interfere(d);
      var fails := Fails();
      ok := !fails;
      Act(d, if ok then RemoveFinal else RemoveFails);
    }

    method FsyncDirectory(d: nat) returns (ok: bool)
      requires Valid() && d < |s.ds| && s.ds[d].phase.Flushing?
      modifies this`s, this`run, this`faults
      ensures Valid() && d < |s.ds|
      ensures faults == old(faults) + if ok then 0 else 1
      ensures var goal := old(s.ds[d].phase.goal);
        s.ds[d] == old(s.ds[d]).(phase :=
          if ok then Reloading(goal) else Done(if goal.Install? then InstallUnsynced else RestoreFailed(false)))
      ensures s.ds[d].phase.Done? ==> AtReturn(s, d)
    {
      Interfere(d);
      var fails := Fails();
      ok := !fails;
      Act(d, if ok then FlushDir else FlushFails);
    }

    // ----- The user's systemd manager -----

    /** `d`'s own reload request is the one its manager is working on. */
    predicate Served(d: nat)
      reads this
    {
      && d < |s.ds| && s.ds[d].phase.Awaiting?
      && s.ds[d].job.uid in s.busy && s.busy[s.ds[d].job.uid].requester == Some(d)
    }

    /** Sends the request, unless it is refused or the manager stays busy with somebody else's. */
    method RequestReload(d: nat) returns (ok: bool)
      requires Valid() && d < |s.ds| && s.ds[d].phase.Reloading?
      modifies this`s, this`run, this`faults
      ensures Valid() && d < |s.ds|
      ensures faults == old(faults) + if ok then 0 else 1
      ensures Deeds(d) == old(Deeds(d))
      ensures ok ==> Served(d) && s.ds[d] == old(s.ds[d]).(phase := Awaiting(old(s.ds[d].phase.goal)))
      ensures !ok ==> s.ds[d] == old(s.ds[d])
    {
      Interfere(d);
      var fails: bool := *;
      ok := !fails && s.ds[d].job.uid !in s.busy;
      if ok {
        Act(d, AskReload);
      } else {
        faults := faults + 1;
      }
    }

    method ManagerReads(d: nat)
      requires Valid() && Served(d)
      modifies this`s, this`run
      ensures Valid() && Served(d) && s.ds[d] == old(s.ds[d]) && Target(s.ds[d].job) in s.busy[s.ds[d].job.uid].seen
      ensures Deeds(d) == old(Deeds(d))
    {
      Interfere(d);
      Do(ReadUnit(Target(s.ds[d].job)), d);
      assert old(Deeds(d)) + [] == old(Deeds(d));
    }

    /** The manager has read every Quadlet, the requester's among them, and replies. */
    method ManagerReplies(d: nat)
      requires Valid() && Served(d)
      modifies this`s, this`run
      ensures Valid() && d < |s.ds| && s.ds[d] == AfterReload(old(s.ds[d]), old(s.ds[d].phase.goal))
      ensures Loaded(s, Target(s.ds[d].job)) == Read(s.fs, Target(s.ds[d].job))
      ensures Deeds(d) == old(Deeds(d)) + [Story.Answered]
      ensures s.ds[d].phase.Done? ==> AtReturn(s, d)
    {
      ManagerReads(d);
      Interfere(d);
      IsReachable();
      ReplyHolds(c, s, d);
      Do(FinishReload(s.ds[d].job.uid), d);
    }

    /** An error or a timeout; the manager may still be at work. */
    method ReloadError(d: nat)
      requires Valid() && d < |s.ds| && (s.ds[d].phase.Reloading? || s.ds[d].phase.Awaiting?)
      modifies this`s, this`run
      ensures Valid() && d < |s.ds|
      ensures var x := old(s.ds[d]);
        s.ds[d] == if x.phase.goal.Install? then StartRestore(x, false) else x.(phase := Done(RolledBack))
      ensures Deeds(d) == old(Deeds(d)) + [Story.Refused]
      ensures s.ds[d].phase.Done? ==> AtReturn(s, d)
    {
      Interfere(d);
      var ended: bool := *;
      Act(d, ReloadFails(ended));
    }

    /** `daemon_reload`: refused, timed out, failed, or answered. */
    method DaemonReload(d: nat) returns (ok: bool)
      requires Valid() && d < |s.ds| && s.ds[d].phase.Reloading?
      modifies this`s, this`run, this`faults
      ensures Valid() && d < |s.ds|
      ensures var x, goal := old(s.ds[d]), old(s.ds[d].phase.goal);
        s.ds[d] == if ok then AfterReload(x, goal)
                   else if goal.Install? then StartRestore(x, false) else x.(phase := Done(RolledBack))
      ensures ok ==> Loaded(s, Target(s.ds[d].job)) == Read(s.fs, Target(s.ds[d].job))
      ensures Deeds(d) == old(Deeds(d)) + if ok then [Story.Answered] else [Story.Refused]
      ensures if ok then faults == old(faults) else faults > old(faults)
      ensures s.ds[d].phase.Done? ==> AtReturn(s, d)
    {
      var asked := RequestReload(d);
      ok := asked;
      if asked {
        var fails := Fails();
        ok := !fails;
      }
      if ok {
        ManagerReplies(d);
      } else {
        ReloadError(d);
      }
    }

    method AskRestart(d: nat) returns (r: Option<UnitStatus>)
      requires Valid() && d < |s.ds| && s.ds[d].phase.Restarting?
      modifies this`s, this`run, this`faults
      ensures Valid() && d < |s.ds|
      ensures var x := old(s.ds[d]);
        s.ds[d] == if x.phase.goal.Restore? then x.(phase := Done(RolledBack))
                   else if r.Some? && Healthy(r.value) then x.(phase := Done(Committed))
                   else StartRestore(x, true)
      ensures Deeds(d) == old(Deeds(d)) + [Story.Restarted(r.Some? && Healthy(r.value))]
      ensures faults == old(faults) + if r.None? then 1 else 0
      ensures s.ds[d].phase.Done? ==> AtReturn(s, d)
    {
      Interfere(d);
      var status: UnitStatus := *;
      var fails := Fails();
      r := if fails then None else Some(status);
      Act(d, Restart(r.Some? && Healthy(r.value)));
    }

    /** `restart_unit`: an error, or the status the unit ended in. */
    method RestartUnit(d: nat) returns (r: Option<UnitStatus>)
      requires Valid() && d < |s.ds| && s.ds[d].phase.Restarting?
      modifies this`s, this`run, this`faults, this`sick
      ensures Valid() && d < |s.ds|
      ensures var x := old(s.ds[d]);
        s.ds[d] == if x.phase.goal.Restore? then x.(phase := Done(RolledBack))
                   else if r.Some? && Healthy(r.value) then x.(phase := Done(Committed))
                   else StartRestore(x, true)
      ensures Deeds(d) == old(Deeds(d)) + [Story.Restarted(r.Some? && Healthy(r.value))]
      ensures faults == old(faults) + if r.None? then 1 else 0
      ensures sick == old(sick) + if r.Some? && (r.value.load != "loaded" || r.value.active != "active") then 1 else 0
      ensures s.ds[d].phase.Done? ==> AtReturn(s, d)
    {
      r := AskRestart(d);
      if r.Some? && !Healthy(r.value) {
        sick := sick + 1;
      }
    }
  }
}
