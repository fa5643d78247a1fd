/** One deployment running alone: from any calm state it can end in every way there is, and what each end
    leaves on disk. */
module Solo {
  import opened Text
  import opened Disk
  import opened Machine
  import opened Safety

  /** Only `d` and the managers act. */
  ghost predicate ActsAlone(es: seq<Event>, d: nat) {
    forall e <- es :: !e.CrashSystem? && (e.By? ==> e.d == d)
  }

  ghost predicate Leads(c: Config, s: State, d: nat, es: seq<Event>, t: State) {
    ValidRun(c, s, es) && After(c, s, es) == t && ActsAlone(es, d)
  }

  lemma {:induction false} RunsJoin(c: Config, s: State, a: seq<Event>, b: seq<Event>)
    requires ValidRun(c, s, a) && ValidRun(c, After(c, s, a), b)
    ensures ValidRun(c, s, a + b) && After(c, s, a + b) == After(c, After(c, s, a), b)
    decreases |a|
  {
    if a == [] {
      assert a + b == b;
    } else {
      assert (a + b)[0] == a[0] && (a + b)[1..] == a[1..] + b;
      RunsJoin(c, Next(c, s, a[0]), a[1..], b);
    }
  }

  lemma LeadsOn(c: Config, s: State, d: nat, a: seq<Event>, t: State, b: seq<Event>, u: State)
    requires Leads(c, s, d, a, t) && Leads(c, t, d, b, u)
    ensures Leads(c, s, d, a + b, u)
  {
    RunsJoin(c, s, a, b);
  }

  lemma LeadsOne(c: Config, s: State, d: nat, e: Event)
    requires Enabled(c, s, e) && !e.CrashSystem? && (e.By? ==> e.d == d)
    ensures Leads(c, s, d, [e], Next(c, s, e))
  {
    assert [e][1..] == [];
    assert ValidRun(c, Next(c, s, e), []);
  }

  // ----- What writing, removing and syncing one file do -----

  /** `p` now holds `text`; every other Quadlet is as it was, and no temporary file is new. */
  ghost predicate Placed(fs: Fs, fs': Fs, p: Path, text: Option<string>) {
    && WellFormed(fs')
    && Read(fs', p) == text
    && (forall q | QuadletPath(q) && q != p :: Read(fs', q) == Read(fs, q))
    && (forall q | q in fs'.entries && !QuadletPath(q) :: q in fs.entries)
  }

  lemma PlacedTwice(fs: Fs, mid: Fs, fs': Fs, p: Path, first: Option<string>, then_: Option<string>)
    requires Placed(fs, mid, p, first) && Placed(mid, fs', p, then_)
    ensures Placed(fs, fs', p, then_)
  {
  }

  function Filled(fs: Fs, tmp: Path, text: string): Fs
    requires tmp !in fs.entries
  {
    SyncFile(Append(Create(fs, tmp), fs.next, text), fs.next)
  }

  lemma FilledShape(fs: Fs, tmp: Path, text: string)
    requires WellFormed(fs) && tmp !in fs.entries
    ensures var fs' := Filled(fs, tmp, text);
      && WellFormed(fs') && fs'.entries == fs.entries[tmp := fs.next]
      && fs'.data == fs.data[fs.next := text] && fs.next !in fs.data
      && (forall q | q != tmp :: Past(fs', q) == Past(fs, q))
  {
    var fs' := Filled(fs, tmp, text);
    assert fs.next !in fs.data;
    assert "" + text == text;
    forall q, i | Some(i) in Candidates(fs', q) ensures i in fs'.data {
      SetEntryShape(fs, tmp, Some(fs.next), q);
      assert Candidates(fs', q) == Candidates(SetEntry(fs, tmp, Some(fs.next)), q);
    }
  }

  /** The same names for the same inodes. */
  lemma SameNames(fs: Fs, fs': Fs)
    requires WellFormed(fs) && fs'.entries == fs.entries && fs'.past == fs.past
    requires fs'.data.Keys == fs.data.Keys && fs'.next == fs.next
    ensures WellFormed(fs')
  {
    assert forall q :: Candidates(fs', q) == Candidates(fs, q);
  }

  lemma CreatedIsWellFormed(fs: Fs, tmp: Path, text: string)
    requires WellFormed(fs) && tmp !in fs.entries
    ensures var made, wrote := Create(fs, tmp), Append(Create(fs, tmp), fs.next, text);
      && WellFormed(made) && fs.next in made.data && made.data[fs.next] == ""
      && WellFormed(wrote) && fs.next in wrote.data && wrote.data[fs.next] == text
      && WellFormed(SyncFile(wrote, fs.next)) && SyncFile(wrote, fs.next) == Filled(fs, tmp, text)
  {
    FilledShape(fs, tmp, text);
    SameNames(Filled(fs, tmp, text), Create(fs, tmp));
    SameNames(Filled(fs, tmp, text), Append(Create(fs, tmp), fs.next, text));
    assert "" + text == text;
  }

  /** The whole of `atomic_write_file`, as the disk sees it. */
  function Written(fs: Fs, tmp: Path, p: Path, text: string): Fs
    requires tmp !in fs.entries
  {
    Rename(Filled(fs, tmp, text), tmp, p)
  }

  lemma RenamedCandidates(fs: Fs, from: Path, to: Path, q: Path)
    requires from != to && from in fs.entries
    ensures var fs', i := Rename(fs, from, to), fs.entries[from];
      Candidates(fs', q) == Candidates(fs, q) + (if q == to then {Some(i)} else if q == from then {None} else {})
  {
    var mid := SetEntry(fs, to, Lookup(fs, from));
    SetEntryShape(fs, to, Lookup(fs, from), q);
    SetEntryShape(mid, from, None, q);
  }

  lemma RenamedIsWellFormed(fs: Fs, from: Path, to: Path)
    requires WellFormed(fs) && from != to && from in fs.entries
    ensures WellFormed(Rename(fs, from, to))
  {
    assert Some(fs.entries[from]) in Candidates(fs, from);
    forall q, i | Some(i) in Candidates(Rename(fs, from, to), q) ensures i in fs.data {
      RenamedCandidates(fs, from, to, q);
    }
  }

  lemma RenamedEntries(fs: Fs, tmp: Path, p: Path, text: string)
    requires tmp !in fs.entries && tmp != p && Filled(fs, tmp, text).entries == fs.entries[tmp := fs.next]
    ensures Written(fs, tmp, p, text).entries == fs.entries[p := fs.next]
  {
  }

  lemma WrittenShape(fs: Fs, tmp: Path, p: Path, text: string)
    requires WellFormed(fs) && tmp !in fs.entries && tmp != p
    ensures var fs' := Written(fs, tmp, p, text);
      && WellFormed(fs') && fs'.entries == fs.entries[p := fs.next]
      && fs'.data == fs.data[fs.next := text] && fs.next !in fs.data
      && Candidates(fs', p) == Candidates(fs, p) + {Some(fs.next)}
  {
    FilledShape(fs, tmp, text);
    RenamedEntries(fs, tmp, p, text);
    RenamedIsWellFormed(Filled(fs, tmp, text), tmp, p);
    RenamedCandidates(Filled(fs, tmp, text), tmp, p, p);
    SettledElsewhere(fs, Filled(fs, tmp, text), p, tmp);
  }

  lemma SettledElsewhere(fs: Fs, fs': Fs, p: Path, tmp: Path)
    requires p != tmp && Past(fs', p) == Past(fs, p) && Lookup(fs', p) == Lookup(fs, p)
    ensures Candidates(fs', p) == Candidates(fs, p)
  {
  }

  lemma WrittenReads(fs: Fs, tmp: Path, p: Path, text: string, q: Path)
    requires WellFormed(fs) && tmp !in fs.entries && tmp != p && q != tmp
    ensures Read(Written(fs, tmp, p, text), q) == if q == p then Some(text) else Read(fs, q)
  {
    WrittenShape(fs, tmp, p, text);
    assert Lookup(fs, q) in Candidates(fs, q);
  }

  /** Before the directory fsync a crash may still find the old file. */
  ghost predicate OldRemains(fs: Fs, fs': Fs, p: Path) {
    Lookup(fs, p) in Candidates(fs', p) && TextOf(fs', Lookup(fs, p)) == Read(fs, p)
  }

  lemma WrittenLeavesOld(fs: Fs, tmp: Path, p: Path, text: string)
    requires WellFormed(fs) && tmp !in fs.entries && tmp != p
    ensures OldRemains(fs, Written(fs, tmp, p, text), p)
  {
    WrittenShape(fs, tmp, p, text);
    assert Lookup(fs, p) in Candidates(fs, p);
  }

  /** The rename that ends a write: the text is in place, and the temporary name is free again. */
  lemma RenameEndsWrite(fs: Fs, filled: Fs, tmp: Path, p: Path, text: string)
    requires WellFormed(fs) && tmp !in fs.entries && !QuadletPath(tmp) && QuadletPath(p) && filled == Filled(fs, tmp, text)
    ensures var fs' := Rename(filled, tmp, p);
      Placed(fs, fs', p, Some(text)) && OldRemains(fs, fs', p) && tmp !in fs'.entries
  {
    var fs' := Written(fs, tmp, p, text);
    WrittenShape(fs, tmp, p, text);
    WrittenLeavesOld(fs, tmp, p, text);
    forall q | QuadletPath(q) ensures Read(fs', q) == if q == p then Some(text) else Read(fs, q) {
      WrittenReads(fs, tmp, p, text, q);
    }
  }

  lemma UnlinkPlaces(fs: Fs, p: Path)
    requires WellFormed(fs)
    ensures Placed(fs, Unlink(fs, p), p, None)
  {
    forall q ensures Candidates(Unlink(fs, p), q) <= Candidates(fs, q) + {None} {
      SetEntryShape(fs, p, None, q);
    }
  }

  lemma SyncPlaces(fs: Fs, uid: nat, p: Path)
    requires WellFormed(fs)
    ensures Placed(fs, SyncDirectory(fs, uid), p, Read(fs, p))
  {
    forall q ensures Candidates(SyncDirectory(fs, uid), q) <= Candidates(fs, q) {
    }
  }

  // ----- One deployment at work -----

  /** No deployment holds a lock and no manager is at work. */
  ghost predicate Calm(s: State) {
    s.owner == map[] && s.busy == map[] && WellFormed(s.fs)
  }

  /** Since `s` only `d` has moved; it is now `x`. */
  ghost predicate OnlyMoved(s: State, t: State, d: nat, x: Deployer) {
    && d < |s.ds| && t.ds == s.ds[d := x] && x.job == s.ds[d].job
    && t.base == s.base && t.busy == map[] && t.log == s.log + [d]
    && WellFormed(t.fs)
  }

  ghost predicate AtWork(s: State, t: State, d: nat, x: Deployer) {
    && OnlyMoved(s, t, d, x) && Holds(x.phase)
    && forall i <- t.owner :: t.owner[i] == d
  }

  ghost predicate Over(s: State, t: State, d: nat, x: Deployer) {
    OnlyMoved(s, t, d, x) && t.owner == map[]
  }

  /** The events `es` have brought `d`, alone, from `s` to `t`, where it is at `x`. */
  ghost predicate Doing(c: Config, s: State, d: nat, es: seq<Event>, t: State, x: Deployer) {
    Leads(c, s, d, es, t) && AtWork(s, t, d, x)
  }

  ghost predicate Ended(c: Config, s: State, d: nat, es: seq<Event>, t: State, x: Deployer) {
    Leads(c, s, d, es, t) && Over(s, t, d, x)
  }

  /** One more act. */
  lemma Move(c: Config, s: State, d: nat, es: seq<Event>, t: State, x: Deployer, a: Act)
    requires Doing(c, s, d, es, t, x) && ReadyBy(c, t, d, a) && !a.AskReload? && WellFormed(Touch(c, t, d, a))
    ensures var u, x' := NextBy(c, t, d, a), Advance(c, t, d, a);
      && u.fs == Touch(c, t, d, a)
      && (if Holds(x'.phase) then Doing(c, s, d, es + [By(d, a)], u, x') else Ended(c, s, d, es + [By(d, a)], u, x'))
  {
    LeadsOne(c, t, d, By(d, a));
    LeadsOn(c, s, d, es, t, [By(d, a)], NextBy(c, t, d, a));
    AdvanceMoves(c, t, d, a);
    var x' := Advance(c, t, d, a);
    assert s.ds[d := x][d := x'] == s.ds[d := x'];
    if !Holds(x'.phase) {
      assert Release(t.owner, d) == map[];
    }
  }

  /** Through the lock. */
  lemma Enter(c: Config, s: State, d: nat) returns (es: seq<Event>, t: State, x: Deployer)
    requires Calm(s) && d < |s.ds| && s.ds[d].phase.Idle? && Acceptable(c, s.ds[d].job)
    ensures Doing(c, s, d, es, t, x) && t.fs == s.fs
    ensures x.phase.Holding? && x.job == s.ds[d].job && x.entry == Read(s.fs, Target(x.job))
  {
    var open, lock := By(d, OpenLock), By(d, Acquire);
    LeadsOne(c, s, d, open);
    var mid := Next(c, s, open);
    assert mid.owner == map[];
    LeadsOne(c, mid, d, lock);
    es, t := [open] + [lock], Next(c, mid, lock);
    LeadsOn(c, s, d, [open], mid, [lock], t);
    x := t.ds[d];
  }

  // ----- Its acts, one by one -----

  /** The size limit lets the snapshot be taken. */
  predicate SnapshotFits(c: Config, fs: Fs, job: Job) {
    var found := Read(fs, Target(job));
    found.Some? ==> |found.value| <= c.maxBytes
  }

  lemma Snapshot(c: Config, s: State, d: nat, es: seq<Event>, t: State, x: Deployer) returns (es': seq<Event>, u: State)
    requires Doing(c, s, d, es, t, x) && x.phase.Holding? && SnapshotFits(c, t.fs, x.job)
    ensures Doing(c, s, d, es', u, x.(phase := Opening(Install, 0), snapshot := Read(t.fs, Target(x.job)))) && u.fs == t.fs
  {
    Move(c, s, d, es, t, x, TakeSnapshot);
    es', u := es + [By(d, TakeSnapshot)], NextBy(c, t, d, TakeSnapshot);
  }

  lemma Retry(c: Config, s: State, d: nat, es: seq<Event>, t: State, x: Deployer) returns (es': seq<Event>, u: State)
    requires Doing(c, s, d, es, t, x) && x.phase.Opening? && x.phase.attempt + 1 < MAX_ATTEMPTS
    requires TempPath(x.job, x.phase.attempt) in t.fs.entries
    ensures Doing(c, s, d, es', u, x.(phase := Opening(x.phase.goal, x.phase.attempt + 1))) && u.fs == t.fs
  {
    Move(c, s, d, es, t, x, TempExists);
    es', u := es + [By(d, TempExists)], NextBy(c, t, d, TempExists);
  }

  lemma CreateFile(c: Config, s: State, d: nat, es: seq<Event>, t: State, x: Deployer) returns (es': seq<Event>, u: State)
    requires Doing(c, s, d, es, t, x) && x.phase.Opening? && TempPath(x.job, x.phase.attempt) !in t.fs.entries
    ensures Doing(c, s, d, es', u, x.(phase := Filling(x.phase.goal, x.phase.attempt, t.fs.next)))
    ensures u.fs == Create(t.fs, TempPath(x.job, x.phase.attempt))
  {
    CreatedIsWellFormed(t.fs, TempPath(x.job, x.phase.attempt), "");
    Move(c, s, d, es, t, x, CreateTemp);
    es', u := es + [By(d, CreateTemp)], NextBy(c, t, d, CreateTemp);
  }

  lemma WriteText(c: Config, s: State, d: nat, es: seq<Event>, t: State, x: Deployer) returns (es': seq<Event>, u: State)
    requires Doing(c, s, d, es, t, x) && x.phase.Filling? && x.phase.ino in t.fs.data && t.fs.data[x.phase.ino] == ""
    requires WellFormed(Append(t.fs, x.phase.ino, TextFor(x, x.phase.goal)))
    ensures Doing(c, s, d, es', u, x) && u.fs == Append(t.fs, x.phase.ino, TextFor(x, x.phase.goal))
  {
    var text := TextFor(x, x.phase.goal);
    assert text[0..0 + |text|] == text;
    Move(c, s, d, es, t, x, WriteSome(|text|));
    es', u := es + [By(d, WriteSome(|text|))], NextBy(c, t, d, WriteSome(|text|));
  }

  lemma WriteFile(c: Config, s: State, d: nat, es: seq<Event>, t: State, x: Deployer, fs: Fs) returns (es': seq<Event>, u: State)
    requires Doing(c, s, d, es, t, x) && x.phase.Filling? && x.phase.ino == fs.next && WellFormed(fs)
    requires TempPath(x.job, x.phase.attempt) !in fs.entries && t.fs == Create(fs, TempPath(x.job, x.phase.attempt))
    ensures Doing(c, s, d, es', u, x)
    ensures u.fs == Append(Create(fs, TempPath(x.job, x.phase.attempt)), fs.next, TextFor(x, x.phase.goal))
  {
    CreatedIsWellFormed(fs, TempPath(x.job, x.phase.attempt), TextFor(x, x.phase.goal));
    es', u := WriteText(c, s, d, es, t, x);
  }

  lemma SyncTheFile(c: Config, s: State, d: nat, es: seq<Event>, t: State, x: Deployer, fs: Fs) returns (es': seq<Event>, u: State)
    requires Doing(c, s, d, es, t, x) && x.phase.Filling? && x.phase.ino == fs.next && WellFormed(fs)
    requires TempPath(x.job, x.phase.attempt) !in fs.entries
    requires t.fs == Append(Create(fs, TempPath(x.job, x.phase.attempt)), fs.next, TextFor(x, x.phase.goal))
    ensures Doing(c, s, d, es', u, x.(phase := Renaming(x.phase.goal, x.phase.attempt, x.phase.ino)))
    ensures u.fs == Filled(fs, TempPath(x.job, x.phase.attempt), TextFor(x, x.phase.goal))
  {
    CreatedIsWellFormed(fs, TempPath(x.job, x.phase.attempt), TextFor(x, x.phase.goal));
    Move(c, s, d, es, t, x, SyncTemp);
    es', u := es + [By(d, SyncTemp)], NextBy(c, t, d, SyncTemp);
  }

  lemma RenameFile(c: Config, s: State, d: nat, es: seq<Event>, t: State, x: Deployer) returns (es': seq<Event>, u: State)
    requires Doing(c, s, d, es, t, x) && x.phase.Renaming?
    requires WellFormed(Rename(t.fs, TempPath(x.job, x.phase.attempt), Target(x.job)))
    ensures Doing(c, s, d, es', u, x.(phase := Flushing(x.phase.goal)))
    ensures u.fs == Rename(t.fs, TempPath(x.job, x.phase.attempt), Target(x.job))
  {
    Move(c, s, d, es, t, x, RenameTemp);
    es', u := es + [By(d, RenameTemp)], NextBy(c, t, d, RenameTemp);
  }

  lemma RemoveFile(c: Config, s: State, d: nat, es: seq<Event>, t: State, x: Deployer) returns (es': seq<Event>, u: State)
    requires Doing(c, s, d, es, t, x) && x.phase.Removing?
    ensures Doing(c, s, d, es', u, x.(phase := Flushing(Restore))) && Placed(t.fs, u.fs, Target(x.job), None)
  {
    UnlinkPlaces(t.fs, Target(x.job));
    Move(c, s, d, es, t, x, RemoveFinal);
    es', u := es + [By(d, RemoveFinal)], NextBy(c, t, d, RemoveFinal);
  }

  lemma Flush(c: Config, s: State, d: nat, es: seq<Event>, t: State, x: Deployer) returns (es': seq<Event>, u: State)
    requires Doing(c, s, d, es, t, x) && x.phase.Flushing?
    ensures Doing(c, s, d, es', u, x.(phase := Reloading(x.phase.goal)))
    ensures Placed(t.fs, u.fs, Target(x.job), Read(t.fs, Target(x.job))) && u.fs.entries == t.fs.entries
  {
    SyncPlaces(t.fs, x.job.uid, Target(x.job));
    Move(c, s, d, es, t, x, FlushDir);
    es', u := es + [By(d, FlushDir)], NextBy(c, t, d, FlushDir);
  }

  lemma FailReload(c: Config, s: State, d: nat, es: seq<Event>, t: State, x: Deployer) returns (es': seq<Event>, u: State)
    requires Doing(c, s, d, es, t, x) && x.phase == Reloading(Install)
    ensures Doing(c, s, d, es', u, StartRestore(x, false)) && u.fs == t.fs
  {
    Move(c, s, d, es, t, x, ReloadFails(true));
    es', u := es + [By(d, ReloadFails(true))], NextBy(c, t, d, ReloadFails(true));
  }

  /** Acts that end a call without changing a file, and how it then ends. */
  predicate Stops(x: Deployer, a: Act, end: Phase) {
    match a
    case GiveUp => x.phase.Holding? && end == Done(Untouched)
    case CrashProcess => end == Crashed(Applied(x.phase))
    case OpenFails => x.phase.Opening? && x.phase.goal.Restore? && end == Done(RestoreFailed(true))
    case RemoveFails => x.phase.Removing? && end == Done(RestoreFailed(true))
    case FlushFails =>
      x.phase.Flushing? && end == Done(if x.phase.goal.Install? then InstallUnsynced else RestoreFailed(false))
    case ReloadFails(_) => x.phase == Reloading(Restore) && end == Done(RolledBack)
    case Restart(healthy) => x.phase == Restarting(Install) && healthy && end == Done(Committed)
    case _ => false
  }

  lemma Stop(c: Config, s: State, d: nat, es: seq<Event>, t: State, x: Deployer, a: Act, end: Phase)
    returns (es': seq<Event>, u: State)
    requires Doing(c, s, d, es, t, x) && Stops(x, a, end)
    ensures Ended(c, s, d, es', u, x.(phase := end)) && u.fs == t.fs
  {
    Move(c, s, d, es, t, x, a);
    es', u := es + [By(d, a)], NextBy(c, t, d, a);
  }

  // ----- Its stretches -----

  /** Some temporary name from attempt `a` on is free. */
  ghost predicate FreeFrom(fs: Fs, job: Job, a: nat) {
    exists k: nat :: a <= k < MAX_ATTEMPTS && TempPath(job, k) !in fs.entries
  }

  lemma {:induction false} Attempts(c: Config, s: State, d: nat, es: seq<Event>, t: State, x: Deployer)
    returns (es': seq<Event>, u: State, k: nat)
    requires Doing(c, s, d, es, t, x) && x.phase.Opening? && FreeFrom(t.fs, x.job, x.phase.attempt)
    ensures Doing(c, s, d, es', u, x.(phase := Opening(x.phase.goal, k))) && u.fs == t.fs
    ensures k < MAX_ATTEMPTS && TempPath(x.job, k) !in t.fs.entries
    decreases MAX_ATTEMPTS - x.phase.attempt
  {
    var a := x.phase.attempt;
    if TempPath(x.job, a) !in t.fs.entries {
      es', u, k := es, t, a;
    } else {
      var k0: nat :| a <= k0 < MAX_ATTEMPTS && TempPath(x.job, k0) !in t.fs.entries;
      assert a + 1 <= k0;
      es', u := Retry(c, s, d, es, t, x);
      es', u, k := Attempts(c, s, d, es', u, x.(phase := Opening(x.phase.goal, a + 1)));
    }
  }

  /** A temporary file is created and written ... */
  lemma FillUnsynced(c: Config, s: State, d: nat, es: seq<Event>, t: State, x: Deployer) returns (es': seq<Event>, u: State)
    requires Doing(c, s, d, es, t, x) && x.phase.Opening? && TempPath(x.job, x.phase.attempt) !in t.fs.entries
    ensures Doing(c, s, d, es', u, x.(phase := Filling(x.phase.goal, x.phase.attempt, t.fs.next)))
    ensures u.fs == Append(Create(t.fs, TempPath(x.job, x.phase.attempt)), t.fs.next, TextFor(x, x.phase.goal))
  {
    es', u := CreateFile(c, s, d, es, t, x);
    es', u := WriteFile(c, s, d, es', u, x.(phase := Filling(x.phase.goal, x.phase.attempt, t.fs.next)), t.fs);
  }

  /** ... and synced. */
  lemma Fill(c: Config, s: State, d: nat, es: seq<Event>, t: State, x: Deployer) returns (es': seq<Event>, u: State)
    requires Doing(c, s, d, es, t, x) && x.phase.Opening? && TempPath(x.job, x.phase.attempt) !in t.fs.entries
    ensures Doing(c, s, d, es', u, x.(phase := Renaming(x.phase.goal, x.phase.attempt, t.fs.next)))
    ensures u.fs == Filled(t.fs, TempPath(x.job, x.phase.attempt), TextFor(x, x.phase.goal))
  {
    es', u := FillUnsynced(c, s, d, es, t, x);
    es', u := SyncTheFile(c, s, d, es', u, x.(phase := Filling(x.phase.goal, x.phase.attempt, t.fs.next)), t.fs);
  }

  /** The rename. */
  lemma Place(c: Config, s: State, d: nat, es: seq<Event>, t: State, x: Deployer, fs: Fs) returns (es': seq<Event>, u: State)
    requires Doing(c, s, d, es, t, x) && x.phase.Renaming? && QuadletPath(Target(x.job)) && WellFormed(fs)
    requires TempPath(x.job, x.phase.attempt) !in fs.entries && x.phase.attempt < MAX_ATTEMPTS
    requires t.fs == Filled(fs, TempPath(x.job, x.phase.attempt), TextFor(x, x.phase.goal))
    ensures Doing(c, s, d, es', u, x.(phase := Flushing(x.phase.goal)))
    ensures Placed(fs, u.fs, Target(x.job), Some(TextFor(x, x.phase.goal))) && OldRemains(fs, u.fs, Target(x.job))
    ensures FreeFrom(u.fs, x.job, 0)
  {
    var tmp := TempPath(x.job, x.phase.attempt);
    TempIsNoQuadlet(x.job, x.phase.attempt);
    RenameEndsWrite(fs, t.fs, tmp, Target(x.job), TextFor(x, x.phase.goal));
    es', u := RenameFile(c, s, d, es, t, x);
    assert tmp !in u.fs.entries;
  }

  /** A free temporary name is found, and the file behind it created, written and synced. */
  lemma FillFree(c: Config, s: State, d: nat, es: seq<Event>, t: State, x: Deployer)
    returns (es': seq<Event>, u: State, k: nat)
    requires Doing(c, s, d, es, t, x) && x.phase.Opening? && FreeFrom(t.fs, x.job, x.phase.attempt)
    ensures k < MAX_ATTEMPTS && TempPath(x.job, k) !in t.fs.entries
    ensures Doing(c, s, d, es', u, x.(phase := Renaming(x.phase.goal, k, t.fs.next)))
    ensures u.fs == Filled(t.fs, TempPath(x.job, k), TextFor(x, x.phase.goal))
  {
    es', u, k := Attempts(c, s, d, es, t, x);
    es', u := Fill(c, s, d, es', u, x.(phase := Opening(x.phase.goal, k)));
  }

  /** `atomic_write_file` from its first system call to the rename. */
  lemma Put(c: Config, s: State, d: nat, es: seq<Event>, t: State, x: Deployer) returns (es': seq<Event>, u: State)
    requires Doing(c, s, d, es, t, x) && x.phase.Opening? && FreeFrom(t.fs, x.job, x.phase.attempt)
    requires QuadletPath(Target(x.job))
    ensures Doing(c, s, d, es', u, x.(phase := Flushing(x.phase.goal)))
    ensures Placed(t.fs, u.fs, Target(x.job), Some(TextFor(x, x.phase.goal))) && OldRemains(t.fs, u.fs, Target(x.job))
    ensures FreeFrom(u.fs, x.job, 0)
  {
    var k;
    es', u, k := FillFree(c, s, d, es, t, x);
    es', u := Place(c, s, d, es', u, x.(phase := Renaming(x.phase.goal, k, t.fs.next)), t.fs);
  }

  /** Snapshot and install, up to the directory fsync: what every end with the Quadlet installed begins with. */
  lemma InstallFile(c: Config, s: State, d: nat) returns (es: seq<Event>, t: State, x: Deployer)
    requires MayInstall(c, s, d)
    ensures Doing(c, s, d, es, t, x)
    ensures x.phase == Flushing(Install) && x.entry == x.snapshot == Read(s.fs, Target(x.job))
    ensures Placed(s.fs, t.fs, Target(x.job), Some(x.job.contents)) && OldRemains(s.fs, t.fs, Target(x.job))
    ensures FreeFrom(t.fs, x.job, 0)
  {
    es, t, x := Enter(c, s, d);
    es, t := Snapshot(c, s, d, es, t, x);
    x := x.(phase := Opening(Install, 0), snapshot := Read(s.fs, Target(x.job)));
    es, t := Put(c, s, d, es, t, x);
    x := x.(phase := Flushing(Install));
  }

  /** Nothing on disk keeps `d` from installing its Quadlet. */
  ghost predicate MayInstall(c: Config, s: State, d: nat) {
    && Calm(s) && d < |s.ds| && s.ds[d].phase.Idle? && Acceptable(c, s.ds[d].job)
    && SnapshotFits(c, s.fs, s.ds[d].job) && FreeFrom(s.fs, s.ds[d].job, 0)
  }

  /** Installed, with the directory synced. */
  lemma InstallSynced(c: Config, s: State, d: nat) returns (es: seq<Event>, t: State, x: Deployer)
    requires MayInstall(c, s, d)
    ensures Doing(c, s, d, es, t, x)
    ensures x.phase == Reloading(Install) && x.entry == x.snapshot == Read(s.fs, Target(x.job))
    ensures Placed(s.fs, t.fs, Target(x.job), Some(x.job.contents)) && FreeFrom(t.fs, x.job, 0)
  {
    es, t, x := InstallFile(c, s, d);
    var text := Some(x.job.contents);
    ghost var mid := t.fs;
    es, t := Flush(c, s, d, es, t, x);
    PlacedTwice(s.fs, mid, t.fs, Target(x.job), text, text);
    x := x.(phase := Reloading(Install));
  }

  /** Installed and synced, then a reload that fails: the start of the rollback. */
  lemma StartUndo(c: Config, s: State, d: nat) returns (es: seq<Event>, t: State, x: Deployer)
    requires MayInstall(c, s, d)
    ensures Doing(c, s, d, es, t, x)
    ensures x.entry == x.snapshot == Read(s.fs, Target(x.job))
    ensures x.phase == if x.snapshot.Some? then Opening(Restore, 0) else Removing
    ensures Placed(s.fs, t.fs, Target(x.job), Some(x.job.contents)) && FreeFrom(t.fs, x.job, 0)
  {
    es, t, x := InstallSynced(c, s, d);
    es, t := FailReload(c, s, d, es, t, x);
    x := StartRestore(x, false);
  }

  /** The rollback up to its directory fsync. */
  lemma Undo(c: Config, s: State, d: nat) returns (es: seq<Event>, t: State, x: Deployer)
    requires MayInstall(c, s, d)
    ensures Doing(c, s, d, es, t, x)
    ensures x.phase == Flushing(Restore) && x.entry == Read(s.fs, Target(x.job))
    ensures Placed(s.fs, t.fs, Target(x.job), x.entry)
  {
    es, t, x := StartUndo(c, s, d);
    ghost var mid := t.fs;
    if x.snapshot.Some? {
      es, t := Put(c, s, d, es, t, x);
    } else {
      es, t := RemoveFile(c, s, d, es, t, x);
    }
    PlacedTwice(s.fs, mid, t.fs, Target(x.job), Some(x.job.contents), x.snapshot);
    x := x.(phase := Flushing(Restore));
  }

  /** `d`, at `x`, waits for its manager, which has read `seen` so far. */
  ghost predicate AwaitsReply(c: Config, s: State, d: nat, es: seq<Event>, t: State, x: Deployer, seen: map<Path, Option<string>>) {
    && Leads(c, s, d, es, t) && x.phase == Awaiting(Install)
    && t.busy == map[x.job.uid := Reload(Some(d), seen)] && AtWork(s, t.(busy := map[]), d, x)
  }

  lemma Ask(c: Config, s: State, d: nat, es: seq<Event>, t: State, x: Deployer) returns (es': seq<Event>, u: State)
    requires Doing(c, s, d, es, t, x) && x.phase == Reloading(Install)
    ensures AwaitsReply(c, s, d, es', u, x.(phase := Awaiting(Install)), map[]) && u.fs == t.fs
  {
    var ask := By(d, AskReload);
    LeadsOne(c, t, d, ask);
    LeadsOn(c, s, d, es, t, [ask], Next(c, t, ask));
    es', u := es + [ask], Next(c, t, ask);
    assert s.ds[d := x][d := x.(phase := Awaiting(Install))] == s.ds[d := x.(phase := Awaiting(Install))];
  }

  lemma ReadOwn(c: Config, s: State, d: nat, es: seq<Event>, t: State, x: Deployer) returns (es': seq<Event>, u: State)
    requires AwaitsReply(c, s, d, es, t, x, map[])
    ensures AwaitsReply(c, s, d, es', u, x, map[Target(x.job) := Read(t.fs, Target(x.job))]) && u.fs == t.fs
  {
    var read := ReadUnit(Target(x.job));
    LeadsOne(c, t, d, read);
    LeadsOn(c, s, d, es, t, [read], Next(c, t, read));
    es', u := es + [read], Next(c, t, read);
  }

  lemma Reply(c: Config, s: State, d: nat, es: seq<Event>, t: State, x: Deployer, seen: map<Path, Option<string>>)
    returns (es': seq<Event>, u: State)
    requires AwaitsReply(c, s, d, es, t, x, seen) && Target(x.job) in seen
    ensures u.fs == t.fs
    ensures if x.job.restart then Doing(c, s, d, es', u, x.(phase := Restarting(Install)))
            else Ended(c, s, d, es', u, x.(phase := Done(Committed)))
  {
    var answer := FinishReload(x.job.uid);
    LeadsOne(c, t, d, answer);
    LeadsOn(c, s, d, es, t, [answer], Next(c, t, answer));
    es', u := es + [answer], Next(c, t, answer);
    ReplyMovesOnly(s, t, d, x, seen);
  }

  lemma ReplyMovesOnly(s: State, t: State, d: nat, x: Deployer, seen: map<Path, Option<string>>)
    requires x.phase == Awaiting(Install) && AtWork(s, t.(busy := map[]), d, x)
    requires t.busy == map[x.job.uid := Reload(Some(d), seen)]
    ensures var u, x' := FinishedReload(t, x.job.uid), AfterReload(x, Install);
      if x.job.restart then AtWork(s, u, d, x') else Over(s, u, d, x')
  {
    var x' := AfterReload(x, Install);
    assert s.ds[d := x][d := x'] == s.ds[d := x'];
    assert t.busy - {x.job.uid} == map[];
    if !x.job.restart {
      assert Release(t.owner, d) == map[];
    }
  }

  /** The manager's answer to the own daemon-reload: request, reading, reply. */
  lemma Answered(c: Config, s: State, d: nat, es: seq<Event>, t: State, x: Deployer) returns (es': seq<Event>, u: State)
    requires Doing(c, s, d, es, t, x) && x.phase == Reloading(Install)
    ensures u.fs == t.fs
    ensures if x.job.restart then Doing(c, s, d, es', u, x.(phase := Restarting(Install)))
            else Ended(c, s, d, es', u, x.(phase := Done(Committed)))
  {
    var waiting := x.(phase := Awaiting(Install));
    es', u := Ask(c, s, d, es, t, x);
    es', u := ReadOwn(c, s, d, es', u, waiting);
    es', u := Reply(c, s, d, es', u, waiting, map[Target(x.job) := Read(t.fs, Target(x.job))]);
  }

  /** ... and, where wanted, a restart that ends healthy. */
  lemma Activated(c: Config, s: State, d: nat, es: seq<Event>, t: State, x: Deployer) returns (es': seq<Event>, u: State)
    requires Doing(c, s, d, es, t, x) && x.phase == Reloading(Install)
    ensures Ended(c, s, d, es', u, x.(phase := Done(Committed))) && u.fs == t.fs
  {
    es', u := Answered(c, s, d, es, t, x);
    if x.job.restart {
      es', u := Stop(c, s, d, es', u, x.(phase := Restarting(Install)), Restart(true), Done(Committed));
    }
  }

  // ----- Its ends -----

  /** What the disk holds at an end: the bundle where the program point says so, else what was found. */
  ghost predicate LeavesBehind(s: State, t: State, x: Deployer) {
    var p := Target(x.job);
    && x.entry == Read(s.fs, p)
    && Placed(s.fs, t.fs, p, if Applied(x.phase) then Some(x.job.contents) else x.entry)
  }

  lemma LeftBehind(s: State, t: State, x: Deployer, end: Phase)
    requires x.entry == Read(s.fs, Target(x.job))
    requires Placed(s.fs, t.fs, Target(x.job), if Applied(end) then Some(x.job.contents) else x.entry)
    ensures LeavesBehind(s, t, x.(phase := end))
  {
  }

  lemma Finish(c: Config, s: State, d: nat, es: seq<Event>, t: State, x: Deployer, a: Act, end: Phase)
    returns (es': seq<Event>, u: State, x': Deployer)
    requires Doing(c, s, d, es, t, x) && Stops(x, a, end) && x.entry == Read(s.fs, Target(x.job))
    requires Placed(s.fs, t.fs, Target(x.job), if Applied(end) then Some(x.job.contents) else x.entry)
    ensures Ended(c, s, d, es', u, x') && LeavesBehind(s, u, x') && x' == x.(phase := end) && u.fs == t.fs
  {
    LeftBehind(s, t, x, end);
    es', u := Stop(c, s, d, es, t, x, a, end);
    x' := x.(phase := end);
  }

  lemma EndsEarly(c: Config, s: State, d: nat, crash: bool) returns (es: seq<Event>, t: State, x: Deployer)
    requires Calm(s) && d < |s.ds| && s.ds[d].phase.Idle? && Acceptable(c, s.ds[d].job)
    ensures Ended(c, s, d, es, t, x) && LeavesBehind(s, t, x)
    ensures x.phase == if crash then Crashed(false) else Done(Untouched)
  {
    es, t, x := Enter(c, s, d);
    var a, end := if crash then CrashProcess else GiveUp, if crash then Crashed(false) else Done(Untouched);
    es, t, x := Finish(c, s, d, es, t, x, a, end);
  }

  lemma EndsUnflushed(c: Config, s: State, d: nat) returns (es: seq<Event>, t: State, x: Deployer)
    requires MayInstall(c, s, d)
    ensures Ended(c, s, d, es, t, x) && LeavesBehind(s, t, x) && x.phase == Done(InstallUnsynced)
    ensures OldRemains(s.fs, t.fs, Target(x.job))
  {
    es, t, x := InstallFile(c, s, d);
    es, t, x := Finish(c, s, d, es, t, x, FlushFails, Done(InstallUnsynced));
  }

  lemma EndsCrashed(c: Config, s: State, d: nat) returns (es: seq<Event>, t: State, x: Deployer)
    requires MayInstall(c, s, d)
    ensures Ended(c, s, d, es, t, x) && LeavesBehind(s, t, x) && x.phase == Crashed(true)
  {
    es, t, x := InstallFile(c, s, d);
    es, t, x := Finish(c, s, d, es, t, x, CrashProcess, Crashed(true));
  }

  lemma EndsCommitted(c: Config, s: State, d: nat) returns (es: seq<Event>, t: State, x: Deployer)
    requires MayInstall(c, s, d)
    ensures Ended(c, s, d, es, t, x) && LeavesBehind(s, t, x) && x.phase == Done(Committed)
  {
    es, t, x := InstallSynced(c, s, d);
    LeftBehind(s, t, x, Done(Committed));
    es, t := Activated(c, s, d, es, t, x);
    x := x.(phase := Done(Committed));
  }

  lemma EndsStuck(c: Config, s: State, d: nat) returns (es: seq<Event>, t: State, x: Deployer)
    requires MayInstall(c, s, d)
    ensures Ended(c, s, d, es, t, x) && LeavesBehind(s, t, x) && x.phase == Done(RestoreFailed(true))
  {
    es, t, x := StartUndo(c, s, d);
    var a := if x.snapshot.Some? then OpenFails else RemoveFails;
    es, t, x := Finish(c, s, d, es, t, x, a, Done(RestoreFailed(true)));
  }

  lemma EndsUnsynced(c: Config, s: State, d: nat) returns (es: seq<Event>, t: State, x: Deployer)
    requires MayInstall(c, s, d)
    ensures Ended(c, s, d, es, t, x) && LeavesBehind(s, t, x) && x.phase == Done(RestoreFailed(false))
  {
    es, t, x := Undo(c, s, d);
    es, t, x := Finish(c, s, d, es, t, x, FlushFails, Done(RestoreFailed(false)));
  }

  lemma UndoSynced(c: Config, s: State, d: nat) returns (es: seq<Event>, t: State, x: Deployer)
    requires MayInstall(c, s, d)
    ensures Doing(c, s, d, es, t, x)
    ensures x.phase == Reloading(Restore) && x.entry == Read(s.fs, Target(x.job))
    ensures Placed(s.fs, t.fs, Target(x.job), x.entry)
  {
    es, t, x := Undo(c, s, d);
    ghost var mid := t.fs;
    es, t := Flush(c, s, d, es, t, x);
    PlacedTwice(s.fs, mid, t.fs, Target(x.job), x.entry, x.entry);
    x := x.(phase := Reloading(Restore));
  }

  lemma EndsRestored(c: Config, s: State, d: nat) returns (es: seq<Event>, t: State, x: Deployer)
    requires MayInstall(c, s, d)
    ensures Ended(c, s, d, es, t, x) && LeavesBehind(s, t, x) && x.phase == Done(RolledBack)
  {
    es, t, x := UndoSynced(c, s, d);
    assert Stops(x, ReloadFails(true), Done(RolledBack)) && !Applied(Done(RolledBack));
    es, t, x := Finish(c, s, d, es, t, x, ReloadFails(true), Done(RolledBack));
  }

  /** Ends that come only after the new Quadlet was written. */
  predicate AfterInstall(ph: Phase) {
    ph != Done(Untouched) && ph != Crashed(false)
  }

  /** Every way a call can end does happen: from any calm state, to any deployment that may install its
      Quadlet, and each leaves on disk what `OutcomeIsExact` says. */
  lemma EveryEndHappens(c: Config, s: State, d: nat, end: Phase) returns (es: seq<Event>, t: State, x: Deployer)
    requires Calm(s) && d < |s.ds| && s.ds[d].phase.Idle? && Acceptable(c, s.ds[d].job)
    requires (end.Done? || end.Crashed?) && (AfterInstall(end) ==> MayInstall(c, s, d))
    ensures Ended(c, s, d, es, t, x) && LeavesBehind(s, t, x) && x.phase == end
  {
    match end {
      case Crashed(applied) =>
        if applied {
          es, t, x := EndsCrashed(c, s, d);
        } else {
          es, t, x := EndsEarly(c, s, d, true);
        }
      case Done(outcome) =>
        match outcome {
          case Untouched => es, t, x := EndsEarly(c, s, d, false);
          case InstallUnsynced => es, t, x := EndsUnflushed(c, s, d);
          case Committed => es, t, x := EndsCommitted(c, s, d);
          case RolledBack => es, t, x := EndsRestored(c, s, d);
          case RestoreFailed(applied) =>
            if applied {
              es, t, x := EndsStuck(c, s, d);
            } else {
              es, t, x := EndsUnsynced(c, s, d);
            }
        }
    }
  }
}
