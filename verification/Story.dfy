/** What one call does to its path and asks of the manager, in order: the deeds of a run that are a deployment's
    own, and the exact story they tell for each way the call can end. */
module Story {
  import opened Text
  import opened Disk
  import opened Machine
  import opened Safety
  import opened Guarantees

  datatype Deed =
    | Renamed                     // the temporary file to the final name
    | Removed                     // the final name
    | Synced                      // the directory
    | Answered                    // the own daemon-reload, by the manager
    | Refused                     // the own daemon-reload: an error or a timeout
    | Restarted(healthy: bool)    // the unit; false also for an error

  /** The event is the manager's answer to the daemon-reload of `d`. */
  predicate Answers(s: State, e: Event, d: nat) {
    e.FinishReload? && e.uid in s.busy && s.busy[e.uid].requester == Some(d)
  }

  /** What an event is for `d`, read off the event alone. */
  function DeedsOf(s: State, e: Event, d: nat): seq<Deed> {
    if Answers(s, e, d) then [Answered]
    else if e.By? && e.d == d then
      match e.act
      case RenameTemp => [Renamed]
      case RemoveFinal => [Removed]
      case FlushDir => [Synced]
      case ReloadFails(_) => [Refused]
      case Restart(healthy) => [Restarted(healthy)]
      case _ => []
    else []
  }

  ghost function Deeds(c: Config, s: State, es: seq<Event>, d: nat): seq<Deed>
    requires ValidRun(c, s, es)
    decreases |es|
  {
    if es == [] then [] else DeedsOf(s, es[0], d) + Deeds(c, Next(c, s, es[0]), es[1..], d)
  }

  lemma {:induction false} DeedsExtend(c: Config, s: State, es: seq<Event>, e: Event, d: nat)
    requires ValidRun(c, s, es) && Enabled(c, After(c, s, es), e)
    ensures ValidRun(c, s, es + [e])
    ensures Deeds(c, s, es + [e], d) == Deeds(c, s, es, d) + DeedsOf(After(c, s, es), e, d)
    decreases |es|
  {
    RunExtends(c, s, es, e);
    if es == [] {
      assert es + [e] == [e] && [e][1..] == [];
      assert Deeds(c, Next(c, s, e), [], d) == [];
    } else {
      assert (es + [e])[0] == es[0] && (es + [e])[1..] == es[1..] + [e];
      DeedsExtend(c, Next(c, s, es[0]), es[1..], e, d);
    }
  }

  // ----- The stories -----

  /** Up to the start of a rollback: installed, and then the reload refused or the restart a failure. */
  function Failed(again: bool): seq<Deed> {
    [Renamed, Synced] + if again then [Answered, Restarted(false)] else [Refused]
  }

  /** How the path gets back what it held: by a rename, or by its removal when it held nothing. */
  function PutBack(entry: Option<string>): Deed {
    if entry.Some? then Renamed else Removed
  }

  /** The rollback of a restart restarts what it restored, if that was there; the rollback of a reload does not. */
  predicate RestartsAgain(again: bool, entry: Option<string>) {
    again && entry.Some?
  }

  /** The story of a completed rollback: exactly one more restart when it is due and the reload was answered. */
  ghost predicate RollbackStory(entry: Option<string>, again: bool, deeds: seq<Deed>) {
    var undone := Failed(again) + [PutBack(entry), Synced];
    || deeds == undone + [Refused]
    || (!RestartsAgain(again, entry) && deeds == undone + [Answered])
    || (RestartsAgain(again, entry) && exists h :: deeds == undone + [Answered, Restarted(h)])
  }

  /** What a call that ended so has done. */
  ghost predicate Tale(job: Job, entry: Option<string>, outcome: Outcome, deeds: seq<Deed>) {
    match outcome
    case Untouched => deeds == []
    case InstallUnsynced => deeds == [Renamed]
    case Committed => deeds == [Renamed, Synced, Answered] + if job.restart then [Restarted(true)] else []
    case RestoreFailed(applied) =>
      exists again: bool :: (again ==> job.restart) && deeds == Failed(again) + if applied then [] else [PutBack(entry)]
    case RolledBack => exists again: bool :: (again ==> job.restart) && RollbackStory(entry, again, deeds)
  }

  function Undone(x: Deployer): seq<Deed> {
    Failed(x.again) + [PutBack(x.entry)]
  }

  /** The deeds so far while a rollback is going on. */
  predicate ToldInRollback(x: Deployer, deeds: seq<Deed>) {
    && (x.again ==> x.job.restart)
    && match x.phase
       case Flushing(_) => deeds == Undone(x)
       case Reloading(_) => deeds == Undone(x) + [Synced]
       case Awaiting(_) => deeds == Undone(x) + [Synced]
       case Restarting(_) => RestartsAgain(x.again, x.entry) && deeds == Undone(x) + [Synced, Answered]
       case _ => deeds == Failed(x.again)
  }

  predicate ToldGoingForward(x: Deployer, deeds: seq<Deed>) {
    match x.phase
    case Flushing(_) => deeds == [Renamed]
    case Reloading(_) => deeds == [Renamed, Synced]
    case Awaiting(_) => deeds == [Renamed, Synced]
    case Restarting(_) => x.job.restart && deeds == [Renamed, Synced, Answered]
    case _ => deeds == []
  }

  predicate RollingBack(ph: Phase) {
    match ph
    case Flushing(g) => g.Restore?
    case Reloading(g) => g.Restore?
    case Awaiting(g) => g.Restore?
    case Restarting(g) => g.Restore?
    case _ => Restoring(ph) || ph.Removing?
  }

  /** The tale of a call that has ended, with what it remembers of the start of its rollback. */
  ghost predicate Ended(x: Deployer, deeds: seq<Deed>)
    requires x.phase.Done?
  {
    match x.phase.outcome
    case RestoreFailed(applied) =>
      (x.again ==> x.job.restart) && deeds == Failed(x.again) + if applied then [] else [PutBack(x.entry)]
    case RolledBack => (x.again ==> x.job.restart) && RollbackStory(x.entry, x.again, deeds)
    case _ => Tale(x.job, x.entry, x.phase.outcome, deeds)
  }

  /** The deeds so far, at each program point. */
  ghost predicate Told(x: Deployer, deeds: seq<Deed>) {
    if x.phase.Crashed? then true
    else if x.phase.Done? then Ended(x, deeds)
    else if RollingBack(x.phase) then ToldInRollback(x, deeds)
    else ToldGoingForward(x, deeds)
  }

  // ----- One event more -----

  predicate Silent(a: Act) {
    !a.RenameTemp? && !a.RemoveFinal? && !a.FlushDir? && !a.ReloadFails? && !a.Restart?
  }

  lemma SilentMoves(c: Config, s: State, d: nat, a: Act)
    requires ReadyBy(c, s, d, a) && Silent(a)
    ensures var x, x' := s.ds[d], Advance(c, s, d, a);
      && x'.job == x.job && x'.again == x.again && (a.Acquire? || x'.entry == x.entry)
      && (a.Acquire? ==> x'.phase.Holding? && x.phase.Waiting?)
      && (x'.phase.Crashed? || (x'.phase.Done? && EndsSilently(x.phase, x'.phase.outcome)) || SameStretch(x.phase, x'.phase))
  {
  }

  /** Early ends: before anything was done, before the rename, or in the directory fsync. */
  predicate EndsSilently(ph: Phase, o: Outcome) {
    || (o == Untouched && !RollingBack(ph) && !ph.Flushing? && !ph.Reloading? && !ph.Awaiting? && !ph.Restarting? && !ph.Done? && !ph.Crashed?)
    || (o == InstallUnsynced && ph == Flushing(Install))
    || (o == RestoreFailed(true) && (Restoring(ph) || ph.Removing?))
    || (o == RestoreFailed(false) && ph == Flushing(Restore))
  }

  predicate SameStretch(ph: Phase, ph': Phase) {
    || (Restoring(ph) && Restoring(ph'))
    || (ph.Reloading? && ph' == Awaiting(ph.goal))
    || (BeforeRename(ph) && BeforeRename(ph'))
  }

  predicate BeforeRename(ph: Phase) {
    match ph
    case Opening(g, _) => g.Install?
    case Filling(g, _, _) => g.Install?
    case Renaming(g, _, _) => g.Install?
    case Cleaning(g, _) => g.Install?
    case _ => ph.Idle? || ph.Waiting? || ph.Holding?
  }

  lemma EndTold(x: Deployer, x': Deployer, deeds: seq<Deed>)
    requires Told(x, deeds) && x'.job == x.job && x'.entry == x.entry && x'.again == x.again && x'.phase.Done?
    requires EndsSilently(x.phase, x'.phase.outcome)
    ensures Told(x', deeds)
  {
    if RollingBack(x.phase) {
      assert Failed(x.again) + [] == Failed(x.again);
    }
  }

  lemma SilentTold(c: Config, s: State, d: nat, a: Act, deeds: seq<Deed>)
    requires ReadyBy(c, s, d, a) && Silent(a) && Told(s.ds[d], deeds)
    ensures Told(Advance(c, s, d, a), deeds)
  {
    var x, x' := s.ds[d], Advance(c, s, d, a);
    SilentMoves(c, s, d, a);
    if x'.phase.Done? {
      EndOfAct(c, s, d, a);
      EndTold(x, x', deeds);
    } else if !x'.phase.Crashed? {
      StretchTold(x, x', deeds);
    }
  }

  lemma EndOfAct(c: Config, s: State, d: nat, a: Act)
    requires ReadyBy(c, s, d, a) && Advance(c, s, d, a).phase.Done?
    ensures !a.Acquire?
  {
  }

  lemma StretchTold(x: Deployer, x': Deployer, deeds: seq<Deed>)
    requires Told(x, deeds) && x'.job == x.job && x'.again == x.again && SameStretch(x.phase, x'.phase)
    requires x'.entry == x.entry || x'.phase.Holding?
    ensures Told(x', deeds)
  {
  }

  /** The change of the path. */
  lemma ChangeTold(c: Config, s: State, d: nat, a: Act, deeds: seq<Deed>)
    requires ReadyBy(c, s, d, a) && (a.RenameTemp? || a.RemoveFinal?) && Told(s.ds[d], deeds) && ViewOk(c, s.fs, s.ds[d])
    ensures Told(Advance(c, s, d, a), deeds + DeedsOf(s, By(d, a), d))
  {
    assert [] + [Renamed] == [Renamed];
  }

  lemma SyncTold(c: Config, s: State, d: nat, deeds: seq<Deed>)
    requires ReadyBy(c, s, d, FlushDir) && Told(s.ds[d], deeds)
    ensures Told(Advance(c, s, d, FlushDir), deeds + [Synced])
  {
  }

  lemma RefusedTold(c: Config, s: State, d: nat, ended: bool, deeds: seq<Deed>)
    requires ReadyBy(c, s, d, ReloadFails(ended)) && Told(s.ds[d], deeds)
    ensures Told(Advance(c, s, d, ReloadFails(ended)), deeds + [Refused])
  {
    var x := s.ds[d];
    if x.phase.goal.Install? {
      assert deeds + [Refused] == Failed(false);
    } else {
      assert deeds + [Refused] == Failed(x.again) + [PutBack(x.entry), Synced] + [Refused];
      assert RollbackStory(x.entry, x.again, deeds + [Refused]);
    }
  }

  lemma FirstRestartTold(x: Deployer, healthy: bool, deeds: seq<Deed>)
    requires x.phase == Restarting(Install) && Told(x, deeds)
    ensures healthy ==> Told(x.(phase := Done(Committed)), deeds + [Restarted(healthy)])
    ensures !healthy ==> Told(StartRestore(x, true), deeds + [Restarted(healthy)])
  {
    assert deeds + [Restarted(healthy)] == [Renamed, Synced] + [Answered, Restarted(healthy)];
    assert [Renamed, Synced, Answered] + [Restarted(true)] == [Renamed, Synced] + [Answered, Restarted(true)];
  }

  lemma SecondRestartTold(x: Deployer, healthy: bool, deeds: seq<Deed>)
    requires x.phase == Restarting(Restore) && Told(x, deeds)
    ensures Told(x.(phase := Done(RolledBack)), deeds + [Restarted(healthy)])
  {
    assert deeds + [Restarted(healthy)] == Failed(x.again) + [PutBack(x.entry), Synced] + [Answered, Restarted(healthy)];
    assert RollbackStory(x.entry, x.again, deeds + [Restarted(healthy)]);
  }

  lemma RestartTold(c: Config, s: State, d: nat, healthy: bool, deeds: seq<Deed>)
    requires ReadyBy(c, s, d, Restart(healthy)) && Told(s.ds[d], deeds)
    ensures Told(Advance(c, s, d, Restart(healthy)), deeds + [Restarted(healthy)])
  {
    if s.ds[d].phase.goal.Install? {
      FirstRestartTold(s.ds[d], healthy, deeds);
    } else {
      SecondRestartTold(s.ds[d], healthy, deeds);
    }
  }

  lemma AnsweredTold(x: Deployer, deeds: seq<Deed>)
    requires x.phase.Awaiting? && Told(x, deeds) && x.snapshot == x.entry
    ensures Told(AfterReload(x, x.phase.goal), deeds + [Answered])
  {
    if x.phase.goal.Install? {
      assert [Renamed, Synced] + [Answered] == [Renamed, Synced, Answered];
      assert [Renamed, Synced, Answered] + [] == [Renamed, Synced, Answered];
    } else {
      assert deeds + [Answered] == Failed(x.again) + [PutBack(x.entry), Synced] + [Answered];
      assert deeds + [Answered] == Undone(x) + [Synced, Answered];
      if !RestartsAgain(x.again, x.entry) {
        assert RollbackStory(x.entry, x.again, deeds + [Answered]);
      }
    }
  }

  // ----- The manager answers those who wait -----

  /** A reload's requester waits for it, unless its process has crashed. */
  ghost predicate AskedInv(s: State) {
    forall uid <- s.busy ::
      var r := s.busy[uid].requester;
      r.Some? ==> r.value < |s.ds| && (s.ds[r.value].phase.Awaiting? || s.ds[r.value].phase.Crashed?)
  }

  lemma WaitEnds(c: Config, s: State, d: nat, a: Act)
    requires ReadyBy(c, s, d, a) && (s.ds[d].phase.Awaiting? || s.ds[d].phase.Crashed?)
    ensures s.ds[d].phase.Awaiting? && (a.ReloadFails? || (a.CrashProcess? && Advance(c, s, d, a).phase.Crashed?))
  {
  }

  lemma NewRequest(c: Config, s: State, d: nat, a: Act, uid: nat)
    requires ReadyBy(c, s, d, a) && BusyOk(s) && uid in NextBy(c, s, d, a).busy
    ensures var t := NextBy(c, s, d, a); var r := t.busy[uid].requester;
      r.Some? ==> (r.value == d && a.AskReload? && t.ds[d].phase.Awaiting?) ||
                  (uid in s.busy && r == s.busy[uid].requester && !(r.value == d && a.ReloadFails?))
  {
  }

  lemma ByKeepsAsked(c: Config, s: State, d: nat, a: Act)
    requires ReadyBy(c, s, d, a) && BusyOk(s) && AskedInv(s)
    ensures AskedInv(NextBy(c, s, d, a))
  {
    var t := NextBy(c, s, d, a);
    forall uid | uid in t.busy
      ensures var r := t.busy[uid].requester;
        r.Some? ==> r.value < |t.ds| && (t.ds[r.value].phase.Awaiting? || t.ds[r.value].phase.Crashed?)
    {
      NewRequest(c, s, d, a, uid);
      if t.busy[uid].requester == Some(d) && !a.AskReload? {
        WaitEnds(c, s, d, a);
      }
    }
  }

  lemma ReplyKeepsAsked(s: State, uid: nat)
    requires uid in s.busy && BusyOk(s) && AskedInv(s)
    ensures AskedInv(FinishedReload(s, uid))
  {
    var t := FinishedReload(s, uid);
    forall u | u in t.busy
      ensures var r := t.busy[u].requester;
        r.Some? ==> r.value < |t.ds| && (t.ds[r.value].phase.Awaiting? || t.ds[r.value].phase.Crashed?)
    {
      assert u != uid && t.busy[u] == s.busy[u];
      var r := t.busy[u].requester;
      if r.Some? {
        ReplyMoves(s, uid, r.value);
      }
    }
  }

  lemma StepKeepsAsked(c: Config, s: State, e: Event)
    requires Enabled(c, s, e) && BusyOk(s) && AskedInv(s)
    ensures AskedInv(Next(c, s, e))
  {
    match e {
      case By(d, a) => ByKeepsAsked(c, s, d, a);
      case FinishReload(uid) => ReplyKeepsAsked(s, uid);
      case _ =>
    }
  }

  // ----- Every run -----

  lemma ActTold(c: Config, s: State, d: nat, a: Act, deeds: seq<Deed>)
    requires ReadyBy(c, s, d, a) && Told(s.ds[d], deeds) && ViewOk(c, s.fs, s.ds[d])
    ensures Told(Advance(c, s, d, a), deeds + DeedsOf(s, By(d, a), d))
  {
    assert deeds + [] == deeds;
    if a.RenameTemp? || a.RemoveFinal? {
      ChangeTold(c, s, d, a, deeds);
    } else if a.FlushDir? {
      SyncTold(c, s, d, deeds);
    } else if a.ReloadFails? {
      RefusedTold(c, s, d, a.ended, deeds);
    } else if a.Restart? {
      RestartTold(c, s, d, a.healthy, deeds);
    } else {
      SilentTold(c, s, d, a, deeds);
    }
  }

  lemma ReplyTold(c: Config, s: State, uid: nat, d: nat, deeds: seq<Deed>)
    requires uid in s.busy && d < |s.ds| && AskedInv(s) && Told(s.ds[d], deeds) && ViewOk(c, s.fs, s.ds[d])
    ensures Told(FinishedReload(s, uid).ds[d], deeds + DeedsOf(s, FinishReload(uid), d))
  {
    assert deeds + [] == deeds;
    if s.busy[uid].requester == Some(d) && s.ds[d].phase.Awaiting? {
      AnsweredTold(s.ds[d], deeds);
    }
  }

  lemma StepTold(c: Config, s: State, d: nat, e: Event, deeds: seq<Deed>)
    requires Inv(c, s) && AskedInv(s) && Enabled(c, s, e) && d < |s.ds| && Told(s.ds[d], deeds)
    ensures d < |Next(c, s, e).ds| && Told(Next(c, s, e).ds[d], deeds + DeedsOf(s, e, d))
  {
    assert Mine(c, s, d);
    assert deeds + [] == deeds;
    match e {
      case By(f, a) =>
        if f == d {
          ActTold(c, s, d, a, deeds);
        }
      case FinishReload(uid) => ReplyTold(c, s, uid, d, deeds);
      case _ =>
    }
  }

  lemma {:induction false} RunTold(c: Config, s: State, es: seq<Event>, d: nat, deeds: seq<Deed>)
    requires Inv(c, s) && AskedInv(s) && ValidRun(c, s, es) && d < |s.ds| && Told(s.ds[d], deeds)
    ensures d < |After(c, s, es).ds| && Told(After(c, s, es).ds[d], deeds + Deeds(c, s, es, d))
    decreases |es|
  {
    if es == [] {
      assert deeds + [] == deeds;
    } else {
      var t, own := Next(c, s, es[0]), DeedsOf(s, es[0], d);
      StepTold(c, s, d, es[0], deeds);
      StepKeepsInv(c, s, es[0]);
      StepKeepsAsked(c, s, es[0]);
      RunTold(c, t, es[1..], d, deeds + own);
      InSequence(deeds, own, Deeds(c, t, es[1..], d));
    }
  }

  lemma InSequence(a: seq<Deed>, b: seq<Deed>, c: seq<Deed>)
    ensures a + b + c == a + (b + c)
  {
  }

  lemma {:induction false} RunKeepsAsked(c: Config, s: State, es: seq<Event>)
    requires Inv(c, s) && AskedInv(s) && ValidRun(c, s, es)
    ensures AskedInv(After(c, s, es))
    decreases |es|
  {
    if es != [] {
      StepKeepsInv(c, s, es[0]);
      StepKeepsAsked(c, s, es[0]);
      RunKeepsAsked(c, Next(c, s, es[0]), es[1..]);
    }
  }

  /** The story of every call, in every run, whatever everybody else does meanwhile: a call that has returned has
      done exactly what its outcome says.  In particular a rollback begun after a failed restart, with a file
      to restore and its reload answered, restarts the unit exactly once more, and no other rollback does. */
  lemma EveryCallsTale(c: Config, s: State, es: seq<Event>, d: nat)
    requires Init(c, s) && ValidRun(c, s, es) && d < |s.ds|
    ensures var t := After(c, s, es);
      d < |t.ds| && (t.ds[d].phase.Done? ==> Tale(t.ds[d].job, t.ds[d].entry, t.ds[d].phase.outcome, Deeds(c, s, es, d)))
  {
    DeedsAreTold(c, s, es, d);
    var x := After(c, s, es).ds[d];
    if x.phase.Done? {
      assert Ended(x, Deeds(c, s, es, d));
    }
  }

  lemma DeedsAreTold(c: Config, s: State, es: seq<Event>, d: nat)
    requires Init(c, s) && ValidRun(c, s, es) && d < |s.ds|
    ensures d < |After(c, s, es).ds| && Told(After(c, s, es).ds[d], Deeds(c, s, es, d))
  {
    InitInv(c, s);
    RunTold(c, s, es, d, []);
    assert [] + Deeds(c, s, es, d) == Deeds(c, s, es, d);
  }
}
