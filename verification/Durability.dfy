/** What power cuts can do to a Quadlet path: exactly which texts they may bring back, when a deployment is
    atomic under them, and what is never lost. */
module Durability {
  import opened Text
  import opened Disk
  import opened Machine
  import opened Safety
  import opened Guarantees

  // ----- What one event does to the entries a crash may bring back -----

  /** Event `e` settles the directory of `p`: its fsync, or a crash, after which what is found is what is there. */
  predicate Settles(s: State, e: Event, p: Path) {
    e.CrashSystem? || (e.By? && e.act.FlushDir? && e.d < |s.ds| && s.ds[e.d].job.uid == p.uid)
  }

  lemma QuietEntry(c: Config, s: State, d: nat, a: Act, q: Path)
    requires ReadyBy(c, s, d, a) && QuadletPath(q) && !a.FlushDir?
    requires (a.RenameTemp? || a.RemoveFinal?) ==> q != Target(s.ds[d].job)
    ensures var fs' := Touch(c, s, d, a); Past(fs', q) == Past(s.fs, q) && Lookup(fs', q) == Lookup(s.fs, q)
  {
    var x := s.ds[d];
    if x.phase.Opening? || x.phase.Renaming? || x.phase.Cleaning? {
      TempIsNoQuadlet(x.job, x.phase.attempt);
    }
  }

  lemma FlushedEntry(fs: Fs, uid: nat, q: Path)
    ensures var fs' := SyncDirectory(fs, uid);
      && Lookup(fs', q) == Lookup(fs, q)
      && Past(fs', q) == if q.uid == uid then {} else Past(fs, q)
  {
  }

  lemma ChangedEntry(c: Config, s: State, d: nat, a: Act)
    requires ReadyBy(c, s, d, a) && (a.RenameTemp? || a.RemoveFinal?) && QuadletPath(Target(s.ds[d].job))
    ensures var fs', p := Touch(c, s, d, a), Target(s.ds[d].job);
      Past(fs', p) == Candidates(s.fs, p) && fs'.data == s.fs.data
  {
    var x := s.ds[d];
    if a.RenameTemp? {
      TempIsNoQuadlet(x.job, x.phase.attempt);
    }
  }

  /** Which entries are at a crash's mercy after one event: none after a settling one, the superseded entry
      more after a change of the path, and else the same. */
  lemma PastStep(c: Config, s: State, e: Event, p: Path)
    requires Inv(c, s) && Enabled(c, s, e) && QuadletPath(p)
    ensures var fs' := Next(c, s, e).fs;
      Past(fs', p) == if Settles(s, e, p) then {} else if Changes(s, e, p) then Candidates(s.fs, p) else Past(s.fs, p)
  {
    match e {
      case By(d, a) =>
        if Changes(s, e, p) {
          ChangedEntry(c, s, d, a);
        } else if a.FlushDir? {
          FlushedEntry(s.fs, s.ds[d].job.uid, p);
        } else {
          QuietEntry(c, s, d, a, p);
        }
      case _ =>
    }
  }

  lemma LookupStep(c: Config, s: State, e: Event, p: Path)
    requires Inv(c, s) && Enabled(c, s, e) && QuadletPath(p) && !Changes(s, e, p) && !e.CrashSystem?
    ensures Lookup(Next(c, s, e).fs, p) == Lookup(s.fs, p)
  {
    if e.By? {
      assert Mine(c, s, e.d);
      QuietEntries(c, s, e.d, e.act, p);
    }
  }

  /** The files a crash might bring back keep their texts. */
  lemma TextsStay(c: Config, s: State, e: Event, p: Path, i: Inode)
    requires Inv(c, s) && Enabled(c, s, e) && QuadletPath(p) && Some(i) in Candidates(s.fs, p)
    ensures TextOf(Next(c, s, e).fs, Some(i)) == TextOf(s.fs, Some(i))
  {
    assert FileOk(c, s.fs, p);
    if e.By? {
      assert Mine(c, s, e.d);
      QuietTexts(c, s, e.d, e.act, p, i);
    }
  }

  lemma SettledText(fs: Fs, p: Path)
    requires Past(fs, p) == {}
    ensures Survivors(fs, p) == {Read(fs, p)}
  {
    assert Candidates(fs, p) == {Lookup(fs, p)};
  }

  lemma SurvivorsGrow(fs: Fs, fs': Fs, p: Path)
    requires Candidates(fs', p) == Candidates(fs, p) + {Lookup(fs', p)}
    requires forall k <- Candidates(fs, p) :: TextOf(fs', k) == TextOf(fs, k)
    ensures Survivors(fs', p) == Survivors(fs, p) + {Read(fs', p)}
  {
    forall k | k in Candidates(fs, p) ensures TextOf(fs, k) in Survivors(fs', p) {
      assert k in Candidates(fs', p) && TextOf(fs', k) == TextOf(fs, k);
    }
    assert Lookup(fs', p) in Candidates(fs', p);
  }

  /** After one event a crash may bring back what it could before, unless that is settled, and what is there. */
  lemma SurvivorsStep(c: Config, s: State, e: Event, p: Path)
    requires Inv(c, s) && Enabled(c, s, e) && QuadletPath(p)
    ensures var fs' := Next(c, s, e).fs;
      Survivors(fs', p) == (if Settles(s, e, p) then {} else Survivors(s.fs, p)) + {Read(fs', p)}
  {
    var fs' := Next(c, s, e).fs;
    PastStep(c, s, e, p);
    if Settles(s, e, p) {
      SettledText(fs', p);
    } else {
      if !Changes(s, e, p) {
        LookupStep(c, s, e, p);
      }
      forall k | k in Candidates(s.fs, p) ensures TextOf(fs', k) == TextOf(s.fs, k) {
        if k.Some? {
          TextsStay(c, s, e, p, k.value);
        }
      }
      SurvivorsGrow(s.fs, fs', p);
    }
  }

  // ----- Exactly what a crash may bring back -----

  /** The texts the path has held since its directory was last settled, from `held` on. */
  ghost function HeldSince(c: Config, s: State, es: seq<Event>, p: Path, held: set<Option<string>>): set<Option<string>>
    requires ValidRun(c, s, es)
    decreases |es|
  {
    if es == [] then held
    else
      var t := Next(c, s, es[0]);
      HeldSince(c, t, es[1..], p, (if Settles(s, es[0], p) then {} else held) + {Read(t.fs, p)})
  }

  lemma {:induction false} SurvivorsAreHistory(c: Config, s: State, es: seq<Event>, p: Path)
    requires Inv(c, s) && ValidRun(c, s, es) && QuadletPath(p)
    ensures Survivors(After(c, s, es).fs, p) == HeldSince(c, s, es, p, Survivors(s.fs, p))
    decreases |es|
  {
    if es != [] {
      StepKeepsInv(c, s, es[0]);
      SurvivorsStep(c, s, es[0], p);
      SurvivorsAreHistory(c, Next(c, s, es[0]), es[1..], p);
    }
  }

  /** A crash may bring back any entry the directory fsync has not ruled out. */
  lemma CrashMayPick(fs: Fs, p: Path, kept: Option<Inode>) returns (after: Fs)
    requires kept in Candidates(fs, p)
    ensures CrashTo(fs, after) && Lookup(after, p) == kept && after.data == fs.data
  {
    after := Fs(if kept.Some? then fs.entries[p := kept.value] else fs.entries - {p}, map[], fs.data, fs.data.Keys, fs.next);
    forall q ensures Lookup(after, q) in Candidates(fs, q) {
      assert q != p ==> Lookup(after, q) == Lookup(fs, q);
    }
  }

  lemma SurvivorMayReturn(fs: Fs, p: Path, r: Option<string>) returns (after: Fs)
    requires r in Survivors(fs, p)
    ensures CrashTo(fs, after) && Read(after, p) == r
  {
    var k :| k in Candidates(fs, p) && TextOf(fs, k) == r;
    after := CrashMayPick(fs, p, k);
  }

  ghost predicate MayReturn(fs: Fs, p: Path, r: Option<string>) {
    exists after :: CrashTo(fs, after) && Read(after, p) == r
  }

  lemma SurvivorsAreWhatMayReturn(c: Config, fs: Fs, p: Path, r: Option<string>)
    requires FileOk(c, fs, p)
    ensures MayReturn(fs, p, r) <==> r in Survivors(fs, p)
  {
    if after :| CrashTo(fs, after) && Read(after, p) == r {
      CrashPicksSurvivor(c, fs, after, p);
    }
    if r in Survivors(fs, p) {
      var after := SurvivorMayReturn(fs, p, r);
    }
  }

  /** Exactly what a crash can do: after any run, it may leave a text at a Quadlet path if and only if the path
      has held that text since the last fsync of its directory, or the last crash. */
  lemma CrashBringsBackExactly(c: Config, s: State, es: seq<Event>, p: Path, r: Option<string>)
    requires Init(c, s) && ValidRun(c, s, es) && QuadletPath(p)
    ensures MayReturn(After(c, s, es).fs, p, r) <==> r in HeldSince(c, s, es, p, {Read(s.fs, p)})
  {
    InitInv(c, s);
    RunKeepsInv(c, s, es);
    SettledText(s.fs, p);
    SurvivorsAreHistory(c, s, es, p);
    assert FileOk(c, After(c, s, es).fs, p);
    SurvivorsAreWhatMayReturn(c, After(c, s, es).fs, p, r);
  }

  // ----- When a deployment is atomic under crashes -----

  /** What a deployment found and what a crash could bring back at its lock stay on its record. */
  lemma RecordStep(c: Config, s: State, d: nat, e: Event)
    requires Enabled(c, s, e) && d < |s.ds| && !s.ds[d].phase.Idle? && !s.ds[d].phase.Waiting?
    ensures var x, t := s.ds[d], Next(c, s, e);
      && d < |t.ds| && !t.ds[d].phase.Idle? && !t.ds[d].phase.Waiting?
      && t.ds[d].job == x.job && t.ds[d].entry == x.entry && t.ds[d].survivors == x.survivors
  {
    match e {
      case By(f, a) =>
        if f == d {
          AdvanceMoves(c, s, d, a);
          NeverBack(c, s, d, a);
        }
      case FinishReload(uid) => ReplyMoves(s, uid, d);
      case _ =>
    }
  }

  lemma NeverBack(c: Config, s: State, d: nat, a: Act)
    requires ReadyBy(c, s, d, a) && !s.ds[d].phase.Idle? && !s.ds[d].phase.Waiting?
    ensures !Advance(c, s, d, a).phase.Idle? && !Advance(c, s, d, a).phase.Waiting? && !a.Acquire?
  {
  }

  lemma {:induction false} RecordStays(c: Config, s: State, d: nat, es: seq<Event>)
    requires ValidRun(c, s, es) && d < |s.ds| && !s.ds[d].phase.Idle? && !s.ds[d].phase.Waiting?
    ensures var x, t := s.ds[d], After(c, s, es);
      d < |t.ds| && t.ds[d].job == x.job && t.ds[d].entry == x.entry && t.ds[d].survivors == x.survivors
    decreases |es|
  {
    if es != [] {
      RecordStep(c, s, d, es[0]);
      RecordStays(c, Next(c, s, es[0]), d, es[1..]);
    }
  }

  /** From `s` on, whenever the power fails while `d` has its lock, `d`'s path is left with what `d` found or
      with its bundle. */
  ghost predicate AtomicFrom(c: Config, s: State, d: nat)
    requires d < |s.ds|
  {
    var x := s.ds[d];
    forall es, after :: ValidRun(c, s, es) && StillHolds(After(c, s, es), d) && CrashTo(After(c, s, es).fs, after) ==>
      Read(after, Target(x.job)) in {x.entry, Some(x.job.contents)}
  }

  predicate StillHolds(s: State, d: nat) {
    d < |s.ds| && Holds(s.ds[d].phase)
  }

  lemma WindowIsAtomic(c: Config, s: State, d: nat, es: seq<Event>, after: Fs)
    requires Inv(c, s) && StillHolds(s, d) && s.ds[d].survivors <= {s.ds[d].entry, Some(s.ds[d].job.contents)}
    requires ValidRun(c, s, es) && StillHolds(After(c, s, es), d) && CrashTo(After(c, s, es).fs, after)
    ensures Read(after, Target(s.ds[d].job)) in {s.ds[d].entry, Some(s.ds[d].job.contents)}
  {
    RunKeepsInv(c, s, es);
    RecordStays(c, s, d, es);
    CrashInWindow(c, After(c, s, es), after, d);
  }

  lemma AtomicAtLock(c: Config, s: State, d: nat)
    requires Inv(c, s) && StillHolds(s, d) && s.ds[d].survivors == Survivors(s.fs, Target(s.ds[d].job))
    ensures AtomicFrom(c, s, d) <==> s.ds[d].survivors <= {s.ds[d].entry, Some(s.ds[d].job.contents)}
  {
    var x := s.ds[d];
    if x.survivors <= {x.entry, Some(x.job.contents)} {
      forall es, after | ValidRun(c, s, es) && StillHolds(After(c, s, es), d) && CrashTo(After(c, s, es).fs, after)
        ensures Read(after, Target(x.job)) in {x.entry, Some(x.job.contents)}
      {
        WindowIsAtomic(c, s, d, es, after);
      }
    } else {
      var r :| r in x.survivors && r !in {x.entry, Some(x.job.contents)};
      var after := SurvivorMayReturn(s.fs, Target(x.job), r);
      assert ValidRun(c, s, []) && After(c, s, []) == s;
    }
  }

  /** Crash atomicity, exactly: when a deployment gets its lock, all crashes until its return leave what it found
      or its bundle if and only if its path has held nothing else since the last fsync of its directory. */
  lemma AtomicExactly(c: Config, s: State, es: seq<Event>, d: nat)
    requires Init(c, s) && ValidRun(c, s, es) && ReadyBy(c, After(c, s, es), d, Acquire)
    ensures var t := NextBy(c, After(c, s, es), d, Acquire); var x := t.ds[d];
      AtomicFrom(c, t, d) <==>
      HeldSince(c, s, es, Target(x.job), {Read(s.fs, Target(x.job))}) <= {x.entry, Some(x.job.contents)}
  {
    InitInv(c, s);
    RunKeepsInv(c, s, es);
    var t := After(c, s, es);
    assert Mine(c, t, d);
    ByKeepsInv(c, t, d, Acquire);
    SettledText(s.fs, Target(t.ds[d].job));
    SurvivorsAreHistory(c, s, es, Target(t.ds[d].job));
    AtomicAtLock(c, NextBy(c, t, d, Acquire), d);
  }

  // ----- The same, as the outcomes of earlier deployments tell it -----

  /** Ended with the path changed, or possibly so, and its directory not synced. */
  predicate LooseEnd(ph: Phase) {
    ph.Crashed? || ph == Done(InstallUnsynced) || ph == Done(RestoreFailed(false))
  }

  predicate LooseAt(s: State, p: Path, e: nat) {
    e < |s.ds| && Target(s.ds[e].job) == p && (s.ds[e].phase.Flushing? || LooseEnd(s.ds[e].phase))
  }

  predicate LooseBefore(s: State, d: nat, e: nat) {
    d < |s.ds| && e < |s.ds| && e != d && Target(s.ds[e].job) == Target(s.ds[d].job) && LooseEnd(s.ds[e].phase)
  }

  ghost predicate PathSettled(s: State, p: Path) {
    Past(s.fs, p) == {} || exists e: nat :: LooseAt(s, p, e)
  }

  ghost predicate FoundSettled(s: State, d: nat) {
    StillHolds(s, d) ==> s.ds[d].survivors == {s.ds[d].entry} || exists e: nat :: LooseBefore(s, d, e)
  }

  ghost predicate SettledInv(s: State) {
    && (forall p | QuadletPath(p) :: PathSettled(s, p))
    && (forall d: nat :: FoundSettled(s, d))
  }

  /** A loose deployment stays loose until the fsync it has still to do. */
  lemma LooseStays(c: Config, s: State, e: Event, p: Path, f: nat)
    requires Enabled(c, s, e) && LooseAt(s, p, f) && !Settles(s, e, p)
    ensures LooseAt(Next(c, s, e), p, f)
  {
    match e {
      case By(d, a) =>
        if d == f {
          FlushingEnds(c, s, d, a);
        }
      case FinishReload(uid) => ReplyMoves(s, uid, f);
      case _ =>
    }
  }

  lemma FlushingEnds(c: Config, s: State, d: nat, a: Act)
    requires ReadyBy(c, s, d, a) && (s.ds[d].phase.Flushing? || LooseEnd(s.ds[d].phase)) && !a.FlushDir?
    ensures LooseEnd(Advance(c, s, d, a).phase) && Advance(c, s, d, a).job == s.ds[d].job
  {
  }

  lemma ChangeIsLoose(c: Config, s: State, d: nat, a: Act)
    requires ReadyBy(c, s, d, a) && (a.RenameTemp? || a.RemoveFinal?)
    ensures LooseAt(NextBy(c, s, d, a), Target(s.ds[d].job), d)
  {
  }

  lemma StepSettlesPath(c: Config, s: State, e: Event, p: Path)
    requires Inv(c, s) && Enabled(c, s, e) && QuadletPath(p) && PathSettled(s, p)
    ensures PathSettled(Next(c, s, e), p)
  {
    PastStep(c, s, e, p);
    if !Settles(s, e, p) {
      if Changes(s, e, p) {
        ChangeIsLoose(c, s, e.d, e.act);
      } else if Past(s.fs, p) != {} {
        var f: nat :| LooseAt(s, p, f);
        LooseStays(c, s, e, p, f);
      }
    }
  }

  lemma LooseEndStays(c: Config, s: State, e: Event, d: nat, f: nat)
    requires Enabled(c, s, e) && LooseBefore(s, d, f)
    ensures LooseBefore(Next(c, s, e), d, f)
  {
    JobsStay(c, s, e);
    if e.FinishReload? {
      ReplyMoves(s, e.uid, f);
    }
  }

  /** Whoever gets a lock finds its path settled, or some earlier deployment of it ended loose. */
  lemma AcquireFindsSettled(c: Config, s: State, d: nat)
    requires ReadyBy(c, s, d, Acquire) && Inv(c, s) && SettledInv(s)
    ensures FoundSettled(NextBy(c, s, d, Acquire), d)
  {
    var t, p := NextBy(c, s, d, Acquire), Target(s.ds[d].job);
    assert Mine(c, s, d) && PathSettled(s, p);
    if Past(s.fs, p) == {} {
      SettledText(s.fs, p);
    } else {
      var f: nat :| LooseAt(s, p, f);
      ByKeepsInv(c, s, d, Acquire);
      if s.ds[f].phase.Flushing? {
        assert Mine(c, t, d) && Mine(c, t, f);
        MutexTargets(c, t, d, f);
      }
      assert LooseBefore(t, d, f);
    }
  }

  lemma HeldBefore(c: Config, s: State, e: Event, d: nat)
    requires Enabled(c, s, e) && StillHolds(Next(c, s, e), d) && e != By(d, Acquire)
    ensures StillHolds(s, d)
  {
    match e {
      case By(f, a) =>
        if f == d {
          AdvanceMoves(c, s, d, a);
        }
      case FinishReload(uid) =>
        assert |FinishedReload(s, uid).ds| == |s.ds|;
        ReplyMoves(s, uid, d);
      case _ =>
    }
  }

  lemma StepFindsSettled(c: Config, s: State, e: Event, d: nat)
    requires Inv(c, s) && Enabled(c, s, e) && SettledInv(s)
    ensures FoundSettled(Next(c, s, e), d)
  {
    if e == By(d, Acquire) {
      AcquireFindsSettled(c, s, d);
    } else if StillHolds(Next(c, s, e), d) {
      HeldBefore(c, s, e, d);
      RecordStep(c, s, d, e);
      assert FoundSettled(s, d);
      if s.ds[d].survivors != {s.ds[d].entry} {
        var f: nat :| LooseBefore(s, d, f);
        LooseEndStays(c, s, e, d, f);
      }
    }
  }

  lemma {:induction false} RunKeepsSettledInv(c: Config, s: State, es: seq<Event>)
    requires Inv(c, s) && SettledInv(s) && ValidRun(c, s, es)
    ensures SettledInv(After(c, s, es))
    decreases |es|
  {
    if es != [] {
      var t := Next(c, s, es[0]);
      forall p | QuadletPath(p) ensures PathSettled(t, p) {
        StepSettlesPath(c, s, es[0], p);
      }
      forall d: nat ensures FoundSettled(t, d) {
        StepFindsSettled(c, s, es[0], d);
      }
      StepKeepsInv(c, s, es[0]);
      RunKeepsSettledInv(c, t, es[1..]);
    }
  }

  lemma ReachableIsSettled(c: Config, s: State)
    requires Reachable(c, s)
    ensures SettledInv(s)
  {
    var s0, es :| Init(c, s0) && ValidRun(c, s0, es) && s == After(c, s0, es);
    InitInv(c, s0);
    RunKeepsSettledInv(c, s0, es);
  }

  /** Nothing is at a crash's mercy at a path none of whose deployments is between its change of the path and
      the directory fsync, crashed, or ended with that fsync failed. */
  lemma SettledUnlessLoose(c: Config, s: State, p: Path)
    requires Reachable(c, s) && QuadletPath(p) && forall e: nat :: !LooseAt(s, p, e)
    ensures Past(s.fs, p) == {} && Survivors(s.fs, p) == {Read(s.fs, p)}
  {
    ReachableIsSettled(c, s);
    assert PathSettled(s, p);
    SettledText(s.fs, p);
  }

  /** Crash atomicity: unless another deployment of the path crashed, or returned with its directory fsync
      failed, a crash at any step of an install or restore leaves the complete contents from before or the
      complete bundle. */
  lemma CrashAtomic(c: Config, s: State, after: Fs, d: nat)
    requires Reachable(c, s) && CrashTo(s.fs, after) && StillHolds(s, d)
    requires forall e: nat :: !LooseBefore(s, d, e)
    ensures var x := s.ds[d]; Read(after, Target(x.job)) == x.entry || Read(after, Target(x.job)) == Some(x.job.contents)
  {
    ReachableInv(c, s);
    ReachableIsSettled(c, s);
    assert FoundSettled(s, d);
    CrashInWindow(c, s, after, d);
  }

  // ----- What is never lost -----

  /** The path holds `r`, and so does it after every crash. */
  ghost predicate SettledAs(s: State, p: Path, r: Option<string>) {
    Read(s.fs, p) == r && Past(s.fs, p) == {}
  }

  lemma SettledStep(c: Config, s: State, e: Event, p: Path, r: Option<string>)
    requires Inv(c, s) && Enabled(c, s, e) && QuadletPath(p) && !Changes(s, e, p) && SettledAs(s, p, r)
    ensures SettledAs(Next(c, s, e), p, r)
  {
    PastStep(c, s, e, p);
    if e.CrashSystem? {
      assert FileOk(c, s.fs, p);
      SettledSurvives(c, s.fs, p, e.after);
    } else {
      SettledText(s.fs, p);
      SettledText(Next(c, s, e).fs, p);
      SurvivorsStep(c, s, e, p);
      LookupStep(c, s, e, p);
      ReadStep(c, s, e, p);
    }
  }

  lemma ReadStep(c: Config, s: State, e: Event, p: Path)
    requires Inv(c, s) && Enabled(c, s, e) && QuadletPath(p) && !Changes(s, e, p) && !e.CrashSystem?
    ensures Read(Next(c, s, e).fs, p) == Read(s.fs, p)
  {
    if e.By? {
      QuietPath(c, s, e.d, e.act, p);
    }
  }

  lemma {:induction false} SettledRun(c: Config, s: State, es: seq<Event>, p: Path, r: Option<string>)
    requires Inv(c, s) && ValidRun(c, s, es) && QuadletPath(p) && SettledAs(s, p, r)
    requires forall e <- es :: !Changes(s, e, p)
    ensures SettledAs(After(c, s, es), p, r)
    decreases |es|
  {
    if es != [] {
      assert es[0] in es && forall e <- es[1..] :: e in es;
      StepKeepsInv(c, s, es[0]);
      SettledStep(c, s, es[0], p, r);
      JobsStay(c, s, es[0]);
      SettledRun(c, Next(c, s, es[0]), es[1..], p, r);
    }
  }

  /** What a return that is durable leaves at the path. */
  function Left(x: Deployer): Option<string> {
    if x.phase == Done(Committed) then Some(x.job.contents) else x.entry
  }

  ghost predicate ReturnsDurably(c: Config, s: State, e: Event, d: nat) {
    Returns(c, s, e, d) && (Next(c, s, e).ds[d].phase == Done(Committed) || Next(c, s, e).ds[d].phase == Done(RolledBack))
  }

  lemma ReturnSettles(c: Config, s: State, e: Event, d: nat)
    requires Reachable(c, s) && ReturnsDurably(c, s, e, d)
    ensures var t := Next(c, s, e); SettledAs(t, Target(t.ds[d].job), Left(t.ds[d]))
    ensures Inv(c, Next(c, s, e)) && QuadletPath(Target(Next(c, s, e).ds[d].job))
  {
    OutcomeIsExact(c, s, e, d);
    SettledAtReturn(c, s, e, d);
    ReachableInv(c, s);
    StepKeepsInv(c, s, e);
    JobsStay(c, s, e);
    assert Mine(c, s, d);
  }

  /** Durability: after a reported success the path reads the bundle, and after a completed rollback the entry,
      over every run without a rename or unlink at the path, through any number of system crashes. */
  lemma DurableUntilChanged(c: Config, s: State, e: Event, d: nat, es: seq<Event>)
    requires Reachable(c, s) && ReturnsDurably(c, s, e, d) && ValidRun(c, Next(c, s, e), es)
    requires forall f <- es :: !Changes(Next(c, s, e), f, Target(s.ds[d].job))
    ensures var x := Next(c, s, e).ds[d];
      SettledAs(After(c, Next(c, s, e), es), Target(s.ds[d].job), Left(x))
  {
    ReturnSettles(c, s, e, d);
    JobsStay(c, s, e);
    SettledRun(c, Next(c, s, e), es, Target(s.ds[d].job), Left(Next(c, s, e).ds[d]));
  }

  /** The bundle of the deployment that takes the lock of `p` in this event. */
  function Taken(s: State, e: Event, p: Path): set<Option<string>> {
    if e.By? && e.act.Acquire? && e.d < |s.ds| && Target(s.ds[e.d].job) == p then {Some(s.ds[e.d].job.contents)} else {}
  }

  ghost function TakenBy(c: Config, s: State, es: seq<Event>, p: Path): set<Option<string>>
    requires ValidRun(c, s, es)
    decreases |es|
  {
    if es == [] then {} else Taken(s, es[0], p) + TakenBy(c, Next(c, s, es[0]), es[1..], p)
  }

  ghost predicate HolderCovered(s: State, p: Path, texts: set<Option<string>>, d: nat) {
    StillHolds(s, d) && Target(s.ds[d].job) == p ==> s.ds[d].entry in texts && Some(s.ds[d].job.contents) in texts
  }

  /** Only `texts` can turn up at `p`: after a crash, or by the deployment that holds its lock. */
  ghost predicate Covered(s: State, p: Path, texts: set<Option<string>>) {
    Survivors(s.fs, p) <= texts && forall d: nat :: HolderCovered(s, p, texts, d)
  }

  lemma ReadSurvives(fs: Fs, p: Path)
    ensures Read(fs, p) in Survivors(fs, p)
  {
    assert Lookup(fs, p) in Candidates(fs, p);
  }

  /** What a holder puts at its path is its bundle or what it found. */
  lemma ChangeIsKnown(c: Config, s: State, d: nat, a: Act)
    requires ReadyBy(c, s, d, a) && Inv(c, s) && (a.RenameTemp? || a.RemoveFinal?)
    ensures var x := s.ds[d]; Read(Touch(c, s, d, a), Target(x.job)) in {x.entry, Some(x.job.contents)}
    ensures StillHolds(s, d)
  {
    OwnPath(c, s, d, a);
    assert Mine(c, s, d);
    assert ViewOk(c, s.fs, s.ds[d]);
  }

  lemma ReadCovered(c: Config, s: State, e: Event, p: Path, texts: set<Option<string>>)
    requires Inv(c, s) && Enabled(c, s, e) && QuadletPath(p) && Covered(s, p, texts)
    ensures Read(Next(c, s, e).fs, p) in texts
  {
    if e.CrashSystem? {
      assert FileOk(c, s.fs, p);
      CrashPicksSurvivor(c, s.fs, e.after, p);
    } else if Changes(s, e, p) {
      ChangeIsKnown(c, s, e.d, e.act);
      assert HolderCovered(s, p, texts, e.d);
    } else {
      ReadStep(c, s, e, p);
      ReadSurvives(s.fs, p);
    }
  }

  lemma StepCoversHolder(c: Config, s: State, e: Event, p: Path, texts: set<Option<string>>, d: nat)
    requires Inv(c, s) && Enabled(c, s, e) && QuadletPath(p) && Covered(s, p, texts)
    ensures HolderCovered(Next(c, s, e), p, texts + Taken(s, e, p), d)
  {
    if StillHolds(Next(c, s, e), d) {
      if e == By(d, Acquire) {
        ReadSurvives(s.fs, Target(s.ds[d].job));
      } else {
        HeldBefore(c, s, e, d);
        RecordStep(c, s, d, e);
        assert HolderCovered(s, p, texts, d);
      }
    }
  }

  lemma StepCovers(c: Config, s: State, e: Event, p: Path, texts: set<Option<string>>)
    requires Inv(c, s) && Enabled(c, s, e) && QuadletPath(p) && Covered(s, p, texts)
    ensures Covered(Next(c, s, e), p, texts + Taken(s, e, p))
  {
    SurvivorsStep(c, s, e, p);
    ReadCovered(c, s, e, p, texts);
    forall d: nat ensures HolderCovered(Next(c, s, e), p, texts + Taken(s, e, p), d) {
      StepCoversHolder(c, s, e, p, texts, d);
    }
  }

  lemma {:induction false} RunCovers(c: Config, s: State, es: seq<Event>, p: Path, texts: set<Option<string>>)
    requires Inv(c, s) && ValidRun(c, s, es) && QuadletPath(p) && Covered(s, p, texts)
    ensures Covered(After(c, s, es), p, texts + TakenBy(c, s, es, p))
    decreases |es|
  {
    if es == [] {
      assert texts + {} == texts;
    } else {
      var t, taken := Next(c, s, es[0]), Taken(s, es[0], p);
      StepKeepsInv(c, s, es[0]);
      StepCovers(c, s, es[0], p, texts);
      RunCovers(c, t, es[1..], p, texts + taken);
      assert texts + taken + TakenBy(c, t, es[1..], p) == texts + (taken + TakenBy(c, t, es[1..], p));
    }
  }

  lemma NobodyHoldsAtReturn(c: Config, s: State, e: Event, d: nat, f: nat)
    requires Inv(c, s) && Returns(c, s, e, d) && StillHolds(Next(c, s, e), f)
    requires e != By(f, Acquire)
    ensures Target(Next(c, s, e).ds[f].job) != Target(s.ds[d].job)
  {
    HeldBefore(c, s, e, f);
    JobsStay(c, s, e);
    assert Mine(c, s, d) && Mine(c, s, f);
    MutexTargets(c, s, d, f);
  }

  lemma ReturnCovers(c: Config, s: State, e: Event, d: nat)
    requires Reachable(c, s) && ReturnsDurably(c, s, e, d)
    ensures var t := Next(c, s, e); Covered(t, Target(s.ds[d].job), {Left(t.ds[d])})
  {
    ReachableInv(c, s);
    ReturnSettles(c, s, e, d);
    JobsStay(c, s, e);
    var t := Next(c, s, e);
    SettledText(t.fs, Target(s.ds[d].job));
    forall f: nat ensures HolderCovered(t, Target(s.ds[d].job), {Left(t.ds[d])}, f) {
      if StillHolds(t, f) {
        NobodyHoldsAtReturn(c, s, e, d, f);
      }
    }
  }

  /** Nothing committed is ever lost: after a reported success, in every run, system crashes included, the path
      reads that bundle or the bundle of a deployment that took the lock later; nothing from before returns. */
  lemma NothingCommittedIsLost(c: Config, s: State, e: Event, d: nat, es: seq<Event>)
    requires Reachable(c, s) && ReturnsDurably(c, s, e, d) && ValidRun(c, Next(c, s, e), es)
    ensures var t, p := Next(c, s, e), Target(s.ds[d].job);
      Read(After(c, t, es).fs, p) in {Left(t.ds[d])} + TakenBy(c, t, es, p)
  {
    var t, p := Next(c, s, e), Target(s.ds[d].job);
    ReturnSettles(c, s, e, d);
    JobsStay(c, s, e);
    ReturnCovers(c, s, e, d);
    RunCovers(c, t, es, p, {Left(t.ds[d])});
    ReadSurvives(After(c, t, es).fs, p);
  }
}
