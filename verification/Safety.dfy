/** What every step of every deployment keeps, whatever the others do and whoever crashes. */
module Safety {
  import opened Text
  import opened Disk
  import opened Machine
  import Names

  /** What a Quadlet path may ever hold: what it held at first, or what the policy accepts under its name. */
  ghost predicate Allowed(c: Config, p: Path, text: string) {
    Read(c.initial, p) == Some(text) || (|text| <= c.maxBytes && c.accepts(p.name, text))
  }

  ghost predicate QuadletPath(p: Path) {
    Names.ValidQuadletFileName(p.name)
  }

  predicate Active(ph: Phase) {
    ph.Waiting? || Holds(ph)
  }

  // ----- The invariant, one deployment at a time -----

  ghost predicate LockOk(c: Config, s: State, x: Deployer, d: nat) {
    Active(x.phase) ==>
      && Acceptable(c, x.job)
      && LockOf(x.job) in s.locks
      && var i := s.locks[LockOf(x.job)];
      && (x.phase.Waiting? ==> x.phase.lock == i)
      && (Holds(x.phase) ==> i in s.owner && s.owner[i] == d)
  }

  ghost predicate Private(fs: Fs, tmp: Path, i: Inode) {
    && Lookup(fs, tmp) == Some(i)
    && i in fs.data
    && forall q :: q != tmp ==> Some(i) !in Candidates(fs, q)
  }

  ghost predicate TempOk(fs: Fs, x: Deployer) {
    && (x.phase.Filling? ==>
          && Private(fs, TempPath(x.job, x.phase.attempt), x.phase.ino)
          && fs.data[x.phase.ino] <= TextFor(x, x.phase.goal))
    && (x.phase.Renaming? ==>
          && Private(fs, TempPath(x.job, x.phase.attempt), x.phase.ino)
          && x.phase.ino in fs.synced
          && fs.data[x.phase.ino] == TextFor(x, x.phase.goal))
  }

  predicate Restoring(ph: Phase) {
    match ph
    case Opening(g, _) => g.Restore?
    case Filling(g, _, _) => g.Restore?
    case Renaming(g, _, _) => g.Restore?
    case Cleaning(g, _) => g.Restore?
    case _ => false
  }

  /** The window: from lock to return the path holds what it held at the lock, or the bundle. */
  ghost predicate ViewOk(c: Config, fs: Fs, x: Deployer) {
    Holds(x.phase) ==>
      && Read(fs, Target(x.job)) == (if Applied(x.phase) then Some(x.job.contents) else x.entry)
      && (!x.phase.Holding? ==> x.snapshot == x.entry)
      && (x.entry.Some? ==> Allowed(c, Target(x.job), x.entry.value))
      && (Restoring(x.phase) ==> x.snapshot.Some?)
      && (x.phase.Removing? ==> x.snapshot.None?)
  }

  /** Past its last directory fsync a deployment leaves nothing to chance. */
  predicate Flushed(ph: Phase) {
    ph.Reloading? || ph.Awaiting? || ph.Restarting?
  }

  ghost predicate DurableOk(fs: Fs, x: Deployer) {
    Holds(x.phase) ==>
      && x.entry in x.survivors
      && Survivors(fs, Target(x.job)) <= x.survivors + {Some(x.job.contents)}
      && (Flushed(x.phase) ==> Past(fs, Target(x.job)) == {})
  }

  /** The deployment's own daemon-reload was answered, and it has not changed its path since. */
  predicate Agreed(x: Deployer) {
    x.phase.Restarting? || ((Restoring(x.phase) || x.phase.Removing?) && x.again)
  }

  ghost predicate ManagerOk(s: State, x: Deployer) {
    var p := Target(x.job);
    && (Agreed(x) ==> Loaded(s, p) == Read(s.fs, p))
    && ((x.phase.Awaiting? || Agreed(x)) && p.uid in s.busy && p in s.busy[p.uid].seen ==>
          s.busy[p.uid].seen[p] == Read(s.fs, p))
  }

  ghost predicate Mine(c: Config, s: State, d: nat) {
    d < |s.ds| ==>
      && LockOk(c, s, s.ds[d], d)
      && TempOk(s.fs, s.ds[d])
      && ViewOk(c, s.fs, s.ds[d])
      && DurableOk(s.fs, s.ds[d])
      && ManagerOk(s, s.ds[d])
  }

  ghost predicate FileOk(c: Config, fs: Fs, p: Path) {
    forall i :: Some(i) in Candidates(fs, p) ==> i in fs.data && i in fs.synced && Allowed(c, p, fs.data[i])
  }

  /** A reload's reading list names only files of its own user, and its requester is one of that user's deployments. */
  ghost predicate BusyOk(s: State) {
    forall uid <- s.busy ::
      && (forall p <- s.busy[uid].seen :: p.uid == uid)
      && (var r := s.busy[uid].requester; r.Some? ==> r.value < |s.ds| && s.ds[r.value].job.uid == uid)
  }

  ghost predicate Inv(c: Config, s: State) {
    && WellFormed(s.fs)
    && (forall p | QuadletPath(p) :: FileOk(c, s.fs, p))
    && BusyOk(s)
    && forall d: nat :: Mine(c, s, d)
  }

  // ----- Mutual exclusion -----

  /** Two deployments of one path never both hold its lock. */
  lemma MutualExclusion(c: Config, s: State, d: nat, e: nat)
    requires d < |s.ds| && e < |s.ds| && Mine(c, s, d) && Mine(c, s, e)
    requires Holds(s.ds[d].phase) && Holds(s.ds[e].phase)
    requires Target(s.ds[d].job) == Target(s.ds[e].job)
    ensures d == e
  {
  }

  lemma TempsDiffer(j1: Job, a1: nat, j2: Job, a2: nat)
    requires Target(j1) != Target(j2)
    ensures TempPath(j1, a1) != TempPath(j2, a2)
  {
    if TempPath(j1, a1) == TempPath(j2, a2) {
      Names.TempNameInjective(j1.file, j1.pid, a1, j2.file, j2.pid, a2);
    }
  }

  lemma TempIsNoQuadlet(j: Job, a: nat)
    ensures !QuadletPath(TempPath(j, a))
  {
    Names.TempNameIsHidden(j.file, j.pid, a);
  }

  // ----- What one act does to the files -----

  lemma SetEntryShape(fs: Fs, p: Path, c: Option<Inode>, q: Path)
    ensures q != p ==> Lookup(SetEntry(fs, p, c), q) == Lookup(fs, q) && Candidates(SetEntry(fs, p, c), q) == Candidates(fs, q)
    ensures Lookup(SetEntry(fs, p, c), p) == c
    ensures Candidates(SetEntry(fs, p, c), p) == Candidates(fs, p) + {c}
  {
  }

  /** Which candidates an act may add to a name. */
  ghost function Added(c: Config, s: State, d: nat, a: Act, q: Path): set<Option<Inode>>
    requires ReadyBy(c, s, d, a)
  {
    var x := s.ds[d];
    match a
    case CreateTemp => if q == TempPath(x.job, x.phase.attempt) then {Some(s.fs.next)} else {}
    case RenameTemp =>
      if q == Target(x.job) then {Some(x.phase.ino)} else if q == TempPath(x.job, x.phase.attempt) then {None} else {}
    case CleanTemp(_) => if q == TempPath(x.job, x.phase.attempt) then {None} else {}
    case RemoveFinal => if q == Target(x.job) then {None} else {}
    case _ => {}
  }

  lemma TouchEntries(c: Config, s: State, d: nat, a: Act, q: Path)
    requires ReadyBy(c, s, d, a) && TempOk(s.fs, s.ds[d])
    requires QuadletPath(Target(s.ds[d].job))
    ensures var fs' := Touch(c, s, d, a);
      && Candidates(fs', q) <= Candidates(s.fs, q) + Added(c, s, d, a, q)
      && (Added(c, s, d, a, q) == {} ==> Lookup(fs', q) == Lookup(s.fs, q))
      && (a.RenameTemp? ==> Lookup(fs', Target(s.ds[d].job)) == Some(s.ds[d].phase.ino))
      && (a.RemoveFinal? ==> Lookup(fs', Target(s.ds[d].job)) == None)
      && (a.CreateTemp? ==> Lookup(fs', TempPath(s.ds[d].job, s.ds[d].phase.attempt)) == Some(s.fs.next))
  {
    var x := s.ds[d];
    match a {
      case CreateTemp =>
        SetEntryShape(s.fs, TempPath(x.job, x.phase.attempt), Some(s.fs.next), q);
      case RenameTemp =>
        var tmp := TempPath(x.job, x.phase.attempt);
        TempIsNoQuadlet(x.job, x.phase.attempt);
        var mid := SetEntry(s.fs, Target(x.job), Lookup(s.fs, tmp));
        SetEntryShape(s.fs, Target(x.job), Lookup(s.fs, tmp), q);
        SetEntryShape(mid, tmp, None, q);
        SetEntryShape(mid, tmp, None, Target(x.job));
      case CleanTemp(_) => SetEntryShape(s.fs, TempPath(x.job, x.phase.attempt), None, q);
      case RemoveFinal => SetEntryShape(s.fs, Target(x.job), None, q);
      case _ =>
    }
  }

  /** Only the inode a deployment is filling changes its data or loses its synced state. */
  lemma TouchData(c: Config, s: State, d: nat, a: Act, i: Inode)
    requires ReadyBy(c, s, d, a) && WellFormed(s.fs) && i in s.fs.data
    requires s.ds[d].phase.Filling? ==> i != s.ds[d].phase.ino
    ensures var fs' := Touch(c, s, d, a);
      && i in fs'.data && fs'.data[i] == s.fs.data[i]
      && (i in s.fs.synced ==> i in fs'.synced)
  {
  }

  /** Whatever a name may newly stand for, it is an inode that exists. */
  lemma AddedExists(c: Config, s: State, d: nat, a: Act, q: Path, i: Inode)
    requires ReadyBy(c, s, d, a) && TempOk(s.fs, s.ds[d]) && Some(i) in Added(c, s, d, a, q)
    ensures i in Touch(c, s, d, a).data
  {
  }

  lemma TouchKeepsData(c: Config, s: State, d: nat, a: Act)
    requires ReadyBy(c, s, d, a) && (forall i <- s.fs.data :: i < s.fs.next)
    ensures var fs' := Touch(c, s, d, a);
      s.fs.data.Keys <= fs'.data.Keys && forall i <- fs'.data :: i < fs'.next
  {
  }

  lemma TouchWellFormed(c: Config, s: State, d: nat, a: Act)
    requires ReadyBy(c, s, d, a) && Inv(c, s)
    ensures WellFormed(Touch(c, s, d, a))
  {
    assert Mine(c, s, d);
    var fs' := Touch(c, s, d, a);
    TouchKeepsData(c, s, d, a);
    if Holds(s.ds[d].phase) {
      forall q, i | Some(i) in Candidates(fs', q) ensures i in fs'.data {
        TouchEntries(c, s, d, a, q);
        if Some(i) in Added(c, s, d, a, q) {
          AddedExists(c, s, d, a, q, i);
        }
      }
    } else {
      IdleTouchesNothing(c, s, d, a);
    }
  }

  lemma IdleTouchesNothing(c: Config, s: State, d: nat, a: Act)
    requires ReadyBy(c, s, d, a) && !Holds(s.ds[d].phase)
    ensures Touch(c, s, d, a) == s.fs
  {
  }

  lemma QuietEntries(c: Config, s: State, d: nat, a: Act, q: Path)
    requires ReadyBy(c, s, d, a) && Mine(c, s, d) && QuadletPath(q)
    requires (a.RenameTemp? || a.RemoveFinal?) ==> q != Target(s.ds[d].job)
    ensures var fs' := Touch(c, s, d, a);
      Lookup(fs', q) == Lookup(s.fs, q) && Candidates(fs', q) <= Candidates(s.fs, q)
  {
    var x := s.ds[d];
    if Holds(x.phase) {
      TouchEntries(c, s, d, a, q);
      if x.phase.Opening? || x.phase.Renaming? || x.phase.Cleaning? {
        TempIsNoQuadlet(x.job, x.phase.attempt);
      }
    } else {
      IdleTouchesNothing(c, s, d, a);
    }
  }

  lemma QuietTexts(c: Config, s: State, d: nat, a: Act, q: Path, i: Inode)
    requires ReadyBy(c, s, d, a) && WellFormed(s.fs) && Mine(c, s, d) && QuadletPath(q) && FileOk(c, s.fs, q)
    requires Some(i) in Candidates(s.fs, q)
    ensures var fs' := Touch(c, s, d, a); i in fs'.data && fs'.data[i] == s.fs.data[i] && i in fs'.synced
  {
    var x := s.ds[d];
    if x.phase.Filling? {
      TempIsNoQuadlet(x.job, x.phase.attempt);
    }
    TouchData(c, s, d, a, i);
  }

  /** The same entry and no new candidates, each with its text as before: nothing to be seen at `q`. */
  lemma QuietMeansSame(c: Config, fs: Fs, fs': Fs, q: Path)
    requires FileOk(c, fs, q) && Lookup(fs', q) == Lookup(fs, q) && Candidates(fs', q) <= Candidates(fs, q)
    requires forall i :: Some(i) in Candidates(fs, q) ==> i in fs'.data && fs'.data[i] == fs.data[i] && i in fs'.synced
    ensures Read(fs', q) == Read(fs, q) && Survivors(fs', q) <= Survivors(fs, q) && FileOk(c, fs', q)
  {
    assert Lookup(fs, q) in Candidates(fs, q);
    assert forall k <- Candidates(fs', q) :: TextOf(fs', k) == TextOf(fs, k);
  }

  /** An act leaves every Quadlet path alone unless it renames to, or unlinks, its own. */
  lemma QuietPath(c: Config, s: State, d: nat, a: Act, q: Path)
    requires ReadyBy(c, s, d, a) && Inv(c, s) && QuadletPath(q)
    requires (a.RenameTemp? || a.RemoveFinal?) ==> q != Target(s.ds[d].job)
    ensures var fs' := Touch(c, s, d, a);
      && Lookup(fs', q) == Lookup(s.fs, q)
      && Candidates(fs', q) <= Candidates(s.fs, q)
      && Read(fs', q) == Read(s.fs, q)
      && Survivors(fs', q) <= Survivors(s.fs, q)
      && FileOk(c, fs', q)
  {
    assert Mine(c, s, d) && FileOk(c, s.fs, q);
    QuietEntries(c, s, d, a, q);
    forall i | Some(i) in Candidates(s.fs, q)
      ensures var fs' := Touch(c, s, d, a); i in fs'.data && fs'.data[i] == s.fs.data[i] && i in fs'.synced
    {
      QuietTexts(c, s, d, a, q, i);
    }
    QuietMeansSame(c, s.fs, Touch(c, s, d, a), q);
  }

  lemma OwnRename(c: Config, s: State, d: nat)
    requires ReadyBy(c, s, d, RenameTemp) && Inv(c, s)
    ensures var x := s.ds[d]; var p := Target(x.job); var fs' := Touch(c, s, d, RenameTemp);
      && Lookup(fs', p) == Some(x.phase.ino) && Candidates(fs', p) <= Candidates(s.fs, p) + {Some(x.phase.ino)}
      && fs'.data == s.fs.data && fs'.synced == s.fs.synced
      && x.phase.ino in s.fs.data && x.phase.ino in s.fs.synced
      && s.fs.data[x.phase.ino] == TextFor(x, x.phase.goal) && Allowed(c, p, TextFor(x, x.phase.goal))
  {
    assert Mine(c, s, d);
    TouchEntries(c, s, d, RenameTemp, Target(s.ds[d].job));
  }

  lemma OwnRemove(c: Config, s: State, d: nat)
    requires ReadyBy(c, s, d, RemoveFinal) && Inv(c, s)
    ensures var p := Target(s.ds[d].job); var fs' := Touch(c, s, d, RemoveFinal);
      && Lookup(fs', p) == None && Candidates(fs', p) <= Candidates(s.fs, p) + {None}
      && fs'.data == s.fs.data && fs'.synced == s.fs.synced
  {
    assert Mine(c, s, d);
    TouchEntries(c, s, d, RemoveFinal, Target(s.ds[d].job));
  }

  /** A new entry at `p`, of an allowed and synced text or of none. */
  lemma NewEntry(c: Config, fs: Fs, fs': Fs, p: Path, k: Option<Inode>)
    requires FileOk(c, fs, p) && Lookup(fs', p) == k && Candidates(fs', p) <= Candidates(fs, p) + {k}
    requires fs'.data == fs.data && fs'.synced == fs.synced
    requires k.Some? ==> k.value in fs.data && k.value in fs.synced && Allowed(c, p, fs.data[k.value])
    ensures Read(fs', p) == TextOf(fs, k) && Survivors(fs', p) <= Survivors(fs, p) + {TextOf(fs, k)} && FileOk(c, fs', p)
  {
    assert forall j <- Candidates(fs', p) :: TextOf(fs', j) == TextOf(fs, j);
  }

  /** The renaming and the unlinking act put exactly the intended text at the deployment's own path. */
  lemma OwnPath(c: Config, s: State, d: nat, a: Act)
    requires ReadyBy(c, s, d, a) && Inv(c, s) && (a.RenameTemp? || a.RemoveFinal?)
    ensures var x := s.ds[d]; var p := Target(x.job); var fs' := Touch(c, s, d, a);
      var text := if a.RemoveFinal? then None else Some(TextFor(x, x.phase.goal));
      && Read(fs', p) == text
      && Survivors(fs', p) <= Survivors(s.fs, p) + {text}
      && FileOk(c, fs', p)
  {
    assert Mine(c, s, d);
    var p := Target(s.ds[d].job);
    assert FileOk(c, s.fs, p);
    if a.RenameTemp? {
      OwnRename(c, s, d);
      NewEntry(c, s.fs, Touch(c, s, d, a), p, Some(s.ds[d].phase.ino));
    } else {
      OwnRemove(c, s, d);
      NewEntry(c, s.fs, Touch(c, s, d, a), p, None);
    }
  }

  lemma TouchFiles(c: Config, s: State, d: nat, a: Act, q: Path)
    requires ReadyBy(c, s, d, a) && Inv(c, s) && QuadletPath(q)
    ensures FileOk(c, Touch(c, s, d, a), q)
  {
    if (a.RenameTemp? || a.RemoveFinal?) && q == Target(s.ds[d].job) {
      OwnPath(c, s, d, a);
    } else {
      QuietPath(c, s, d, a, q);
    }
  }

  // ----- What an act does to the program point -----

  /** How an act moves the program point: whose text is then in place, and what is remembered. */
  ghost predicate Moves(x: Deployer, a: Act, x': Deployer) {
    MovesFiles(x, a, x') && MovesMemory(x, a, x')
  }

  ghost predicate MovesFiles(x: Deployer, a: Act, x': Deployer) {
    && x'.job == x.job
    && (a.RenameTemp? ==> x.phase.Renaming?)
    && (a.RemoveFinal? ==> x.phase.Removing?)
    && Applied(x'.phase) == (if a.RenameTemp? then x.phase.goal.Install? else if a.RemoveFinal? then false else Applied(x.phase))
    && (Flushed(x'.phase) ==> a.FlushDir? || Flushed(x.phase))
  }

  ghost predicate MovesMemory(x: Deployer, a: Act, x': Deployer) {
    && (Holds(x'.phase) ==> Active(x.phase))
    && (!a.Acquire? ==> x'.entry == x.entry && x'.survivors == x.survivors && (Holds(x'.phase) ==> Holds(x.phase)))
    && (a.TakeSnapshot? ==> x.phase.Holding? && !x'.phase.Holding?)
    && (!a.TakeSnapshot? ==> x'.snapshot == x.snapshot && (Holds(x'.phase) && !a.Acquire? ==> !x.phase.Holding?))
    && (a.Acquire? ==> x'.phase.Holding?)
    && (Restoring(x'.phase) ==> Restoring(x.phase) || x'.snapshot.Some?)
    && (x'.phase.Removing? ==> x'.snapshot.None?)
  }

  /** The system calls of `atomic_write_file` before the directory fsync. */
  predicate IsWriting(a: Act) {
    a.CreateTemp? || a.TempExists? || a.OpenFails? || a.WriteSome? || a.SyncTemp? || a.WriteFails? || a.RenameTemp? || a.CleanTemp?
  }

  lemma WritingMovesFiles(c: Config, s: State, d: nat, a: Act)
    requires ReadyBy(c, s, d, a) && IsWriting(a)
    ensures MovesFiles(s.ds[d], a, Advance(c, s, d, a))
  {
  }

  lemma OtherMovesFiles(c: Config, s: State, d: nat, a: Act)
    requires ReadyBy(c, s, d, a) && !IsWriting(a)
    ensures MovesFiles(s.ds[d], a, Advance(c, s, d, a))
  {
  }

  lemma AdvanceMovesMemory(c: Config, s: State, d: nat, a: Act)
    requires ReadyBy(c, s, d, a)
    ensures MovesMemory(s.ds[d], a, Advance(c, s, d, a))
  {
  }

  lemma AdvanceMoves(c: Config, s: State, d: nat, a: Act)
    requires ReadyBy(c, s, d, a)
    ensures Moves(s.ds[d], a, Advance(c, s, d, a))
  {
    AdvanceMovesMemory(c, s, d, a);
    if IsWriting(a) {
      WritingMovesFiles(c, s, d, a);
    } else {
      OtherMovesFiles(c, s, d, a);
    }
  }

  // ----- The acting deployment keeps its part -----

  lemma ActorOpensLock(c: Config, s: State, d: nat)
    requires ReadyBy(c, s, d, OpenLock)
    ensures LockOk(c, NextBy(c, s, d, OpenLock), NextBy(c, s, d, OpenLock).ds[d], d)
  {
  }

  lemma ActorLock(c: Config, s: State, d: nat, a: Act)
    requires ReadyBy(c, s, d, a) && Inv(c, s)
    ensures LockOk(c, NextBy(c, s, d, a), NextBy(c, s, d, a).ds[d], d)
  {
    assert Mine(c, s, d);
    AdvanceMoves(c, s, d, a);
    if a.OpenLock? {
      ActorOpensLock(c, s, d);
    }
  }

  lemma CreatedIsPrivate(fs: Fs, tmp: Path)
    requires WellFormed(fs) && tmp !in fs.entries
    ensures Private(Create(fs, tmp), tmp, fs.next) && Create(fs, tmp).data[fs.next] == ""
  {
    forall q | q != tmp ensures Some(fs.next) !in Candidates(Create(fs, tmp), q) {
      SetEntryShape(fs, tmp, Some(fs.next), q);
      assert Candidates(Create(fs, tmp), q) == Candidates(SetEntry(fs, tmp, Some(fs.next)), q);
      assert Some(fs.next) !in Candidates(fs, q);
    }
  }

  lemma PrivateStays(fs: Fs, fs': Fs, tmp: Path, i: Inode)
    requires Private(fs, tmp, i) && fs'.entries == fs.entries && fs'.past == fs.past && i in fs'.data
    ensures Private(fs', tmp, i)
  {
    assert forall q :: Candidates(fs', q) == Candidates(fs, q);
  }

  lemma ActorTemp(c: Config, s: State, d: nat, a: Act)
    requires ReadyBy(c, s, d, a) && Inv(c, s)
    ensures TempOk(Touch(c, s, d, a), Advance(c, s, d, a))
  {
    assert Mine(c, s, d);
    var x := s.ds[d];
    if a.CreateTemp? {
      CreatedIsPrivate(s.fs, TempPath(x.job, x.phase.attempt));
    } else if a.WriteSome? || a.SyncTemp? {
      PrivateStays(s.fs, Touch(c, s, d, a), TempPath(x.job, x.phase.attempt), x.phase.ino);
    }
  }

  /** What an act leaves at the deployment's own path, now and after a crash. */
  ghost predicate Leaves(fs: Fs, x: Deployer, a: Act, fs': Fs) {
    var p := Target(x.job);
    && Read(fs', p) == (if a.RemoveFinal? then None
                        else if a.RenameTemp? && x.phase.Renaming? then Some(TextFor(x, x.phase.goal))
                        else Read(fs, p))
    && Survivors(fs', p) <= Survivors(fs, p) + {Read(fs', p)}
    && (a.FlushDir? || Flushed(x.phase) ==> Past(fs', p) == {})
  }

  lemma TouchLeaves(c: Config, s: State, d: nat, a: Act)
    requires ReadyBy(c, s, d, a) && Inv(c, s) && Active(s.ds[d].phase)
    ensures Leaves(s.fs, s.ds[d], a, Touch(c, s, d, a))
  {
    assert Mine(c, s, d);
    if a.RenameTemp? || a.RemoveFinal? {
      OwnPath(c, s, d, a);
    } else {
      QuietPath(c, s, d, a, Target(s.ds[d].job));
    }
  }

  /** The window survives the step, whatever the step is, by the two descriptions above alone. */
  lemma WindowStep(c: Config, fs: Fs, fs': Fs, x: Deployer, a: Act, x': Deployer)
    requires Active(x.phase) && ViewOk(c, fs, x) && DurableOk(fs, x)
    requires Moves(x, a, x') && Leaves(fs, x, a, fs')
    requires var r := Read(fs, Target(x.job));
      && (r.Some? ==> Allowed(c, Target(x.job), r.value))
      && r in Survivors(fs, Target(x.job))
      && (a.Acquire? ==> x'.entry == r && x'.survivors == Survivors(fs, Target(x.job)))
      && (a.TakeSnapshot? ==> x'.snapshot == r)
    ensures ViewOk(c, fs', x') && DurableOk(fs', x')
  {
  }

  lemma ActorWindow(c: Config, s: State, d: nat, a: Act)
    requires ReadyBy(c, s, d, a) && Inv(c, s)
    ensures ViewOk(c, Touch(c, s, d, a), Advance(c, s, d, a))
    ensures DurableOk(Touch(c, s, d, a), Advance(c, s, d, a))
  {
    assert Mine(c, s, d);
    AdvanceMoves(c, s, d, a);
    var p := Target(s.ds[d].job);
    if Active(s.ds[d].phase) {
      TouchLeaves(c, s, d, a);
      assert FileOk(c, s.fs, p);
      assert Lookup(s.fs, p) in Candidates(s.fs, p);
      WindowStep(c, s.fs, Touch(c, s, d, a), s.ds[d], a, Advance(c, s, d, a));
    }
  }

  /** An act never brings about agreement with the manager, and one that ends it leaves the path in a phase
      that promises none. */
  lemma AgreementMoves(c: Config, s: State, d: nat, a: Act)
    requires ReadyBy(c, s, d, a)
    ensures var x, x' := s.ds[d], Advance(c, s, d, a);
      && x'.job == x.job
      && (Agreed(x') ==> Agreed(x) && !a.RenameTemp? && !a.RemoveFinal?)
      && (x'.phase.Awaiting? ==> a.AskReload?)
      && (Agreed(x) && !Agreed(x') ==> x'.phase.Done? || x'.phase.Crashed? || a.RenameTemp? || a.RemoveFinal?)
  {
  }

  /** What a manager has read of its user's files is never changed by an act: it is kept or forgotten. */
  lemma BusyMoves(c: Config, s: State, d: nat, a: Act, uid: nat)
    requires ReadyBy(c, s, d, a) && uid in NextBy(c, s, d, a).busy
    ensures var seen := NextBy(c, s, d, a).busy[uid].seen;
      (seen == map[] || (uid in s.busy && seen == s.busy[uid].seen)) &&
      (a.AskReload? && uid == s.ds[d].job.uid ==> seen == map[])
  {
  }

  lemma ActorManager(c: Config, s: State, d: nat, a: Act)
    requires ReadyBy(c, s, d, a) && Inv(c, s)
    ensures ManagerOk(NextBy(c, s, d, a), Advance(c, s, d, a))
  {
    assert Mine(c, s, d);
    AgreementMoves(c, s, d, a);
    var x, x', t := s.ds[d], Advance(c, s, d, a), NextBy(c, s, d, a);
    var p := Target(x.job);
    if p.uid in t.busy {
      BusyMoves(c, s, d, a, p.uid);
    }
    if Agreed(x') {
      QuietPath(c, s, d, a, p);
      assert Loaded(t, p) == Loaded(s, p);
    }
  }

  // ----- The others keep theirs -----

  lemma OtherLock(c: Config, s: State, d: nat, a: Act, e: nat)
    requires ReadyBy(c, s, d, a) && Inv(c, s) && e < |s.ds| && e != d
    ensures LockOk(c, NextBy(c, s, d, a), s.ds[e], e)
  {
    assert Mine(c, s, d) && Mine(c, s, e);
  }

  lemma MutexTargets(c: Config, s: State, d: nat, e: nat)
    requires d < |s.ds| && e < |s.ds| && d != e && Mine(c, s, d) && Mine(c, s, e)
    requires Holds(s.ds[d].phase) && Holds(s.ds[e].phase)
    ensures Target(s.ds[d].job) != Target(s.ds[e].job)
  {
    if Target(s.ds[d].job) == Target(s.ds[e].job) {
      MutualExclusion(c, s, d, e);
    }
  }

  lemma AddedIs(c: Config, s: State, d: nat, a: Act, q: Path, i: Inode)
    requires ReadyBy(c, s, d, a) && Some(i) in Added(c, s, d, a, q)
    ensures i == s.fs.next || (s.ds[d].phase.Renaming? && i == s.ds[d].phase.ino)
  {
  }

  /** An inode an act does not deal with turns up under no new name. */
  lemma TouchElsewhere(c: Config, s: State, d: nat, a: Act, i: Inode, q: Path)
    requires ReadyBy(c, s, d, a) && Inv(c, s) && i in s.fs.data
    requires s.ds[d].phase.Renaming? ==> i != s.ds[d].phase.ino
    requires Some(i) !in Candidates(s.fs, q)
    ensures Some(i) !in Candidates(Touch(c, s, d, a), q)
  {
    assert Mine(c, s, d);
    if Holds(s.ds[d].phase) {
      TouchEntries(c, s, d, a, q);
      if Some(i) in Added(c, s, d, a, q) {
        AddedIs(c, s, d, a, q, i);
      }
    } else {
      IdleTouchesNothing(c, s, d, a);
    }
  }

  /** The temporary files of two deployments holding locks are different files under different names. */
  lemma TempsApart(c: Config, s: State, d: nat, e: nat)
    requires Inv(c, s) && d < |s.ds| && e < |s.ds| && e != d
    requires var ph := s.ds[e].phase; ph.Filling? || ph.Renaming?
    ensures var x, y := s.ds[d], s.ds[e]; var tmp := TempPath(y.job, y.phase.attempt);
      && Private(s.fs, tmp, y.phase.ino)
      && (Holds(x.phase) ==> tmp != Target(x.job))
      && (x.phase.Opening? || x.phase.Filling? || x.phase.Renaming? || x.phase.Cleaning? ==> tmp != TempPath(x.job, x.phase.attempt))
      && (x.phase.Filling? || x.phase.Renaming? ==> x.phase.ino != y.phase.ino)
  {
    assert Mine(c, s, d) && Mine(c, s, e);
    var x, y := s.ds[d], s.ds[e];
    TempIsNoQuadlet(y.job, y.phase.attempt);
    if Holds(x.phase) {
      MutexTargets(c, s, d, e);
      if x.phase.Opening? || x.phase.Filling? || x.phase.Renaming? || x.phase.Cleaning? {
        TempsDiffer(x.job, x.phase.attempt, y.job, y.phase.attempt);
      }
      if x.phase.Filling? || x.phase.Renaming? {
        var tmp := TempPath(x.job, x.phase.attempt);
        assert Some(x.phase.ino) in Candidates(s.fs, tmp);
      }
    }
  }

  lemma OtherTempEntry(c: Config, s: State, d: nat, a: Act, e: nat)
    requires ReadyBy(c, s, d, a) && Inv(c, s) && e < |s.ds| && e != d
    requires var ph := s.ds[e].phase; ph.Filling? || ph.Renaming?
    ensures Lookup(Touch(c, s, d, a), TempPath(s.ds[e].job, s.ds[e].phase.attempt)) == Some(s.ds[e].phase.ino)
  {
    assert Mine(c, s, d);
    TempsApart(c, s, d, e);
    if Holds(s.ds[d].phase) {
      TouchEntries(c, s, d, a, TempPath(s.ds[e].job, s.ds[e].phase.attempt));
    }
  }

  lemma OtherTemp(c: Config, s: State, d: nat, a: Act, e: nat)
    requires ReadyBy(c, s, d, a) && Inv(c, s) && e < |s.ds| && e != d
    ensures TempOk(Touch(c, s, d, a), s.ds[e])
  {
    assert Mine(c, s, e);
    var y := s.ds[e];
    if y.phase.Filling? || y.phase.Renaming? {
      var tmp := TempPath(y.job, y.phase.attempt);
      TempsApart(c, s, d, e);
      OtherTempEntry(c, s, d, a, e);
      TouchData(c, s, d, a, y.phase.ino);
      forall q | q != tmp ensures Some(y.phase.ino) !in Candidates(Touch(c, s, d, a), q) {
        TouchElsewhere(c, s, d, a, y.phase.ino, q);
      }
    }
  }

  /** While a deployment holds its lock, nobody else's act is visible at its path. */
  lemma OtherPath(c: Config, s: State, d: nat, a: Act, e: nat)
    requires ReadyBy(c, s, d, a) && Inv(c, s) && e < |s.ds| && e != d && Holds(s.ds[e].phase)
    ensures var p := Target(s.ds[e].job); var fs' := Touch(c, s, d, a);
      && Read(fs', p) == Read(s.fs, p)
      && Survivors(fs', p) <= Survivors(s.fs, p)
      && (Past(s.fs, p) == {} ==> Past(fs', p) == {})
  {
    assert Mine(c, s, d) && Mine(c, s, e);
    var p := Target(s.ds[e].job);
    if Holds(s.ds[d].phase) {
      MutexTargets(c, s, d, e);
    }
    QuietPath(c, s, d, a, p);
    if Past(s.fs, p) == {} {
      QuietPast(c, s, d, a, p);
    }
  }

  lemma QuietPast(c: Config, s: State, d: nat, a: Act, q: Path)
    requires ReadyBy(c, s, d, a) && QuadletPath(q) && Past(s.fs, q) == {}
    requires (a.RenameTemp? || a.RemoveFinal?) ==> q != Target(s.ds[d].job)
    ensures Past(Touch(c, s, d, a), q) == {}
  {
    var x := s.ds[d];
    if x.phase.Opening? || x.phase.Renaming? || x.phase.Cleaning? {
      TempIsNoQuadlet(x.job, x.phase.attempt);
    }
  }

  lemma OtherWindow(c: Config, s: State, d: nat, a: Act, e: nat)
    requires ReadyBy(c, s, d, a) && Inv(c, s) && e < |s.ds| && e != d
    ensures ViewOk(c, Touch(c, s, d, a), s.ds[e])
    ensures DurableOk(Touch(c, s, d, a), s.ds[e])
  {
    assert Mine(c, s, e);
    if Holds(s.ds[e].phase) {
      OtherPath(c, s, d, a, e);
    }
  }

  /** What an act of `d` leaves of the manager's view for the holder `y` of another path. */
  ghost predicate Undisturbed(s: State, t: State, y: Deployer) {
    && t.loaded == s.loaded && Read(t.fs, Target(y.job)) == Read(s.fs, Target(y.job))
    && (y.job.uid in t.busy ==>
          var seen := t.busy[y.job.uid].seen;
          seen == map[] || (y.job.uid in s.busy && seen == s.busy[y.job.uid].seen))
  }

  lemma ManagerFrame(s: State, t: State, y: Deployer)
    requires ManagerOk(s, y) && Undisturbed(s, t, y)
    ensures ManagerOk(t, y)
  {
  }

  lemma OtherUndisturbed(c: Config, s: State, d: nat, a: Act, e: nat)
    requires ReadyBy(c, s, d, a) && Inv(c, s) && e < |s.ds| && e != d && Holds(s.ds[e].phase)
    ensures Undisturbed(s, NextBy(c, s, d, a), s.ds[e])
  {
    OtherPath(c, s, d, a, e);
    if s.ds[e].job.uid in NextBy(c, s, d, a).busy {
      BusyMoves(c, s, d, a, s.ds[e].job.uid);
    }
  }

  lemma OtherManager(c: Config, s: State, d: nat, a: Act, e: nat)
    requires ReadyBy(c, s, d, a) && Inv(c, s) && e < |s.ds| && e != d
    ensures ManagerOk(NextBy(c, s, d, a), s.ds[e])
  {
    assert ManagerOk(s, s.ds[e]) by {
      assert Mine(c, s, e);
    }
    if Holds(s.ds[e].phase) {
      OtherUndisturbed(c, s, d, a, e);
      ManagerFrame(s, NextBy(c, s, d, a), s.ds[e]);
    } else {
      NoHolderNoManager(NextBy(c, s, d, a), s.ds[e]);
    }
  }

  lemma NoHolderNoManager(s: State, x: Deployer)
    requires !Holds(x.phase)
    ensures ManagerOk(s, x)
  {
  }

  // ----- Every event keeps the invariant -----

  lemma ActorKeeps(c: Config, s: State, d: nat, a: Act)
    requires ReadyBy(c, s, d, a) && Inv(c, s)
    ensures Mine(c, NextBy(c, s, d, a), d)
  {
    ActorLock(c, s, d, a);
    ActorTemp(c, s, d, a);
    ActorWindow(c, s, d, a);
    ActorManager(c, s, d, a);
  }

  lemma OthersKeep(c: Config, s: State, d: nat, a: Act, e: nat)
    requires ReadyBy(c, s, d, a) && Inv(c, s) && e != d
    ensures Mine(c, NextBy(c, s, d, a), e)
  {
    if e < |s.ds| {
      OtherLock(c, s, d, a, e);
      OtherTemp(c, s, d, a, e);
      OtherWindow(c, s, d, a, e);
      OtherManager(c, s, d, a, e);
    }
  }

  lemma BusyRequester(c: Config, s: State, d: nat, a: Act, uid: nat)
    requires ReadyBy(c, s, d, a) && uid in NextBy(c, s, d, a).busy
    ensures var r := NextBy(c, s, d, a).busy[uid].requester;
      r == None || (uid in s.busy && r == s.busy[uid].requester) || (r == Some(d) && uid == s.ds[d].job.uid)
  {
  }

  lemma ByKeepsBusy(c: Config, s: State, d: nat, a: Act)
    requires ReadyBy(c, s, d, a) && BusyOk(s)
    ensures BusyOk(NextBy(c, s, d, a))
  {
    var t := NextBy(c, s, d, a);
    AdvanceMoves(c, s, d, a);
    forall uid | uid in t.busy
      ensures forall p <- t.busy[uid].seen :: p.uid == uid
      ensures var r := t.busy[uid].requester; r.Some? ==> r.value < |t.ds| && t.ds[r.value].job.uid == uid
    {
      BusyMoves(c, s, d, a, uid);
      BusyRequester(c, s, d, a, uid);
    }
  }

  lemma ByKeepsInv(c: Config, s: State, d: nat, a: Act)
    requires ReadyBy(c, s, d, a) && Inv(c, s)
    ensures Inv(c, NextBy(c, s, d, a))
  {
    var s' := NextBy(c, s, d, a);
    TouchWellFormed(c, s, d, a);
    ByKeepsBusy(c, s, d, a);
    forall q | QuadletPath(q) ensures FileOk(c, s'.fs, q) {
      TouchFiles(c, s, d, a, q);
    }
    forall e: nat ensures Mine(c, s', e) {
      if e == d {
        ActorKeeps(c, s, d, a);
      } else {
        OthersKeep(c, s, d, a, e);
      }
    }
  }

  lemma ReadUnitKeepsInv(c: Config, s: State, p: Path)
    requires Ready(c, s, ReadUnit(p)) && Inv(c, s)
    ensures Inv(c, Next(c, s, ReadUnit(p)))
  {
    var s' := Next(c, s, ReadUnit(p));
    forall e: nat ensures Mine(c, s', e) {
      assert Mine(c, s, e);
    }
  }

  /** What the reply to a daemon-reload does to the deployment that waits for it. */
  ghost predicate ReplyStep(x: Deployer, x': Deployer) {
    && x.phase.Awaiting? && x'.job == x.job && x'.entry == x.entry && x'.survivors == x.survivors && x'.snapshot == x.snapshot
    && Applied(x'.phase) == Applied(x.phase)
    && (x'.phase.Restarting? || x'.phase == Done(Committed) || x'.phase == Done(RolledBack))
  }

  lemma AfterReloadMoves(x: Deployer)
    requires x.phase.Awaiting?
    ensures ReplyStep(x, AfterReload(x, x.phase.goal))
  {
  }

  lemma ReplyMoves(s: State, uid: nat, e: nat)
    requires uid in s.busy && e < |s.ds|
    ensures var t := FinishedReload(s, uid);
      && |t.ds| == |s.ds| && t.fs == s.fs && t.locks == s.locks
      && (t.ds[e] == s.ds[e] || (s.busy[uid].requester == Some(e) && ReplyStep(s.ds[e], t.ds[e])))
  {
    if s.ds[e].phase.Awaiting? {
      AfterReloadMoves(s.ds[e]);
    }
  }

  /** Whoever still holds a lock after the reply held it before. */
  lemma ReplyLock(c: Config, s: State, uid: nat, e: nat)
    requires uid in s.busy && e < |s.ds| && LockOk(c, s, s.ds[e], e)
    ensures LockOk(c, FinishedReload(s, uid), FinishedReload(s, uid).ds[e], e)
  {
    ReplyMoves(s, uid, e);
  }

  lemma ReplyView(c: Config, fs: Fs, x: Deployer, x': Deployer)
    requires TempOk(fs, x) && ViewOk(c, fs, x) && DurableOk(fs, x) && ReplyStep(x, x')
    ensures TempOk(fs, x') && ViewOk(c, fs, x') && DurableOk(fs, x')
  {
  }

  /** What a manager has loaded once it has replied. */
  lemma ReplyLoads(s: State, uid: nat, p: Path)
    requires uid in s.busy && BusyOk(s)
    ensures var t := FinishedReload(s, uid);
      && Loaded(t, p) == (if p in s.busy[uid].seen then s.busy[uid].seen[p] else Loaded(s, p))
      && (p in s.busy[uid].seen ==> p.uid == uid)
      && (p.uid in t.busy ==> p.uid != uid && p.uid in s.busy && t.busy[p.uid] == s.busy[p.uid])
  {
  }

  lemma ReplyManager(c: Config, s: State, uid: nat, e: nat)
    requires Ready(c, s, FinishReload(uid)) && BusyOk(s) && e < |s.ds| && ManagerOk(s, s.ds[e])
    ensures ManagerOk(FinishedReload(s, uid), FinishedReload(s, uid).ds[e])
  {
    ReplyMoves(s, uid, e);
    ReplyLoads(s, uid, Target(s.ds[e].job));
  }

  lemma ReplyKeepsMine(c: Config, s: State, uid: nat, e: nat)
    requires Ready(c, s, FinishReload(uid)) && BusyOk(s) && Mine(c, s, e)
    ensures Mine(c, FinishedReload(s, uid), e)
  {
    if e < |s.ds| {
      ReplyMoves(s, uid, e);
      ReplyLock(c, s, uid, e);
      ReplyManager(c, s, uid, e);
      if FinishedReload(s, uid).ds[e] != s.ds[e] {
        ReplyView(c, s.fs, s.ds[e], FinishedReload(s, uid).ds[e]);
      }
    }
  }

  lemma ReplyKeepsBusy(s: State, uid: nat)
    requires uid in s.busy && BusyOk(s)
    ensures BusyOk(FinishedReload(s, uid))
  {
    forall e: nat | e < |s.ds| ensures FinishedReload(s, uid).ds[e].job == s.ds[e].job {
      ReplyMoves(s, uid, e);
    }
  }

  lemma FinishReloadKeepsInv(c: Config, s: State, uid: nat)
    requires Ready(c, s, FinishReload(uid)) && Inv(c, s)
    ensures Inv(c, FinishedReload(s, uid))
  {
    ReplyKeepsBusy(s, uid);
    forall e: nat ensures Mine(c, FinishedReload(s, uid), e) {
      ReplyKeepsMine(c, s, uid, e);
    }
  }

  lemma DeadIsFine(c: Config, s: State, d: nat)
    requires d < |s.ds| ==> !Active(s.ds[d].phase)
    ensures Mine(c, s, d)
  {
  }

  lemma CrashLeavesFilesOk(c: Config, fs: Fs, after: Fs, p: Path)
    requires CrashTo(fs, after) && FileOk(c, fs, p)
    ensures FileOk(c, after, p)
  {
    assert Candidates(after, p) == {Lookup(after, p)};
  }

  lemma CrashLeavesWellFormed(fs: Fs, after: Fs)
    requires CrashTo(fs, after) && WellFormed(fs)
    ensures WellFormed(after)
  {
    assert forall p :: Candidates(after, p) == {Lookup(after, p)};
  }

  lemma CrashKeepsInv(c: Config, s: State, e: Event)
    requires e.CrashSystem? && Enabled(c, s, e) && Inv(c, s)
    ensures Inv(c, Next(c, s, e))
  {
    CrashLeavesWellFormed(s.fs, e.after);
    forall p | QuadletPath(p) ensures FileOk(c, e.after, p) {
      CrashLeavesFilesOk(c, s.fs, e.after, p);
    }
    forall d: nat ensures Mine(c, Next(c, s, e), d) {
      DeadIsFine(c, Next(c, s, e), d);
    }
  }

  lemma JobsStay(c: Config, s: State, e: Event)
    requires Enabled(c, s, e)
    ensures var t := Next(c, s, e); |t.ds| == |s.ds| && forall d :: 0 <= d < |s.ds| ==> t.ds[d].job == s.ds[d].job
  {
    if e.By? {
      AdvanceMoves(c, s, e.d, e.act);
    }
  }

  /** Every event of every deployment, manager or crash keeps the invariant. */
  lemma StepKeepsInv(c: Config, s: State, e: Event)
    requires Enabled(c, s, e) && Inv(c, s)
    ensures Inv(c, Next(c, s, e))
  {
    match e {
      case By(d, a) => ByKeepsInv(c, s, d, a);
      case ReadUnit(p) => ReadUnitKeepsInv(c, s, p);
      case FinishReload(uid) => FinishReloadKeepsInv(c, s, uid);
      case CrashSystem(_, _, _) => CrashKeepsInv(c, s, e);
    }
  }

  lemma InitInv(c: Config, s: State)
    requires Init(c, s)
    ensures Inv(c, s)
  {
    forall d: nat ensures Mine(c, s, d) {
    }
    forall p | QuadletPath(p) ensures FileOk(c, s.fs, p) {
      assert Candidates(s.fs, p) == {Lookup(s.fs, p)};
    }
  }

  lemma {:induction false} RunExtends(c: Config, s: State, es: seq<Event>, e: Event)
    requires ValidRun(c, s, es) && Enabled(c, After(c, s, es), e)
    ensures ValidRun(c, s, es + [e])
    ensures After(c, s, es + [e]) == Next(c, After(c, s, es), e)
    decreases |es|
  {
    if es == [] {
      assert es + [e] == [e] && [e][1..] == [];
      assert ValidRun(c, Next(c, s, e), []);
    } else {
      assert (es + [e])[1..] == es[1..] + [e];
      RunExtends(c, Next(c, s, es[0]), es[1..], e);
    }
  }

  /** Hence it holds in every reachable state. */
  lemma {:induction false} RunKeepsInv(c: Config, s: State, es: seq<Event>)
    requires Inv(c, s) && ValidRun(c, s, es)
    ensures Inv(c, After(c, s, es))
    decreases |es|
  {
    if es != [] {
      StepKeepsInv(c, s, es[0]);
      RunKeepsInv(c, Next(c, s, es[0]), es[1..]);
    }
  }
}
