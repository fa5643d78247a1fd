/** The temporary files: exactly which of them are there after any run without a system crash. */
module Leftovers {
  import opened Text
  import opened Disk
  import opened Machine
  import opened Safety
  import opened SerialRuns

  predicate Uses(s: State, d: nat, q: Path) {
    d < |s.ds| && UsesTemp(s.ds[d].phase) && q == TempPath(s.ds[d].job, s.ds[d].phase.attempt)
  }

  /** Some deployment is writing, renaming or cleaning up `q`. */
  ghost predicate InUse(s: State, q: Path) {
    exists d: nat :: Uses(s, d, q)
  }

  /** The event leaves a temporary file behind: its unlink fails, or its process crashes. */
  predicate Abandons(s: State, e: Event, q: Path) {
    e.By? && Uses(s, e.d, q) && (e.act == CleanTemp(false) || e.act.CrashProcess?)
  }

  ghost predicate AbandonedIn(c: Config, s: State, es: seq<Event>, q: Path)
    requires ValidRun(c, s, es)
    decreases |es|
  {
    es != [] && (Abandons(s, es[0], q) || AbandonedIn(c, Next(c, s, es[0]), es[1..], q))
  }

  /** A file under a temporary name is there for one of three reasons, and a file in use for that one alone. */
  ghost predicate Accounted(c: Config, s: State, q: Path, left: bool) {
    && (q in s.fs.entries <==> q in c.initial.entries || InUse(s, q) || left)
    && (InUse(s, q) ==> q !in c.initial.entries && !left)
  }

  lemma UsersApart(c: Config, s: State, d: nat, e: nat, q: Path)
    requires Inv(c, s) && Uses(s, d, q) && Uses(s, e, q)
    ensures d == e
  {
    if d != e {
      assert Mine(c, s, d) && Mine(c, s, e);
      MutexTargets(c, s, d, e);
      TempsDiffer(s.ds[d].job, s.ds[d].phase.attempt, s.ds[e].job, s.ds[e].phase.attempt);
    }
  }

  /** Only an act on the temporary file itself changes whether it is there. */
  lemma ElsewhereStays(c: Config, s: State, d: nat, a: Act, q: Path)
    requires ReadyBy(c, s, d, a) && Inv(c, s) && !QuadletPath(q)
    requires !Uses(s, d, q) && !(a.CreateTemp? && q == TempPath(s.ds[d].job, s.ds[d].phase.attempt))
    ensures q in Touch(c, s, d, a).entries <==> q in s.fs.entries
    ensures !Uses(NextBy(c, s, d, a), d, q)
  {
    assert Mine(c, s, d);
    TempUseMoves(c, s, d, a);
    if Holds(s.ds[d].phase) {
      TouchEntries(c, s, d, a, q);
    } else {
      IdleTouchesNothing(c, s, d, a);
    }
  }

  lemma TempUseMoves(c: Config, s: State, d: nat, a: Act)
    requires ReadyBy(c, s, d, a)
    ensures var x, x' := s.ds[d], Advance(c, s, d, a);
      && x'.job == x.job
      && (UsesTemp(x'.phase) <==>
            a.CreateTemp? || (UsesTemp(x.phase) && !a.RenameTemp? && !a.CleanTemp? && !a.CrashProcess?))
      && (UsesTemp(x'.phase) ==> x'.phase.attempt == x.phase.attempt)
      && (a.CreateTemp? ==> !UsesTemp(x.phase))
      && (a.RenameTemp? || a.CleanTemp? ==> UsesTemp(x.phase))
  {
  }

  lemma OwnStays(c: Config, s: State, d: nat, a: Act, q: Path)
    requires ReadyBy(c, s, d, a) && Inv(c, s) && Uses(s, d, q) && q in s.fs.entries
    ensures q in Touch(c, s, d, a).entries <==> !a.RenameTemp? && a != CleanTemp(true)
  {
    assert Mine(c, s, d);
    TempIsNoQuadlet(s.ds[d].job, s.ds[d].phase.attempt);
  }

  lemma OthersUse(c: Config, s: State, d: nat, a: Act, e: nat, q: Path)
    requires ReadyBy(c, s, d, a) && e != d
    ensures Uses(NextBy(c, s, d, a), e, q) <==> Uses(s, e, q)
  {
  }

  /** The act of a deployment on its own temporary file. */
  lemma OwnAct(c: Config, s: State, d: nat, a: Act, q: Path, left: bool)
    requires ReadyBy(c, s, d, a) && Inv(c, s) && !QuadletPath(q) && Accounted(c, s, q, left)
    requires Uses(s, d, q)
    ensures Accounted(c, NextBy(c, s, d, a), q, left || Abandons(s, By(d, a), q))
  {
    var t := NextBy(c, s, d, a);
    TempUseMoves(c, s, d, a);
    OwnStays(c, s, d, a, q);
    if e: nat :| Uses(t, e, q) && e != d {
      OthersUse(c, s, d, a, e, q);
      UsersApart(c, s, d, e, q);
    }
    assert InUse(t, q) <==> Uses(t, d, q);
  }

  lemma CreateAct(c: Config, s: State, d: nat, q: Path, left: bool)
    requires ReadyBy(c, s, d, CreateTemp) && Inv(c, s) && !QuadletPath(q) && Accounted(c, s, q, left)
    requires q == TempPath(s.ds[d].job, s.ds[d].phase.attempt)
    ensures Accounted(c, NextBy(c, s, d, CreateTemp), q, left)
  {
    TempUseMoves(c, s, d, CreateTemp);
    assert Mine(c, s, d);
    TouchEntries(c, s, d, CreateTemp, q);
    assert Lookup(Touch(c, s, d, CreateTemp), q).Some?;
    assert Uses(NextBy(c, s, d, CreateTemp), d, q);
  }

  lemma ElsewhereAct(c: Config, s: State, d: nat, a: Act, q: Path, left: bool)
    requires ReadyBy(c, s, d, a) && Inv(c, s) && !QuadletPath(q) && Accounted(c, s, q, left)
    requires !Uses(s, d, q) && !(a.CreateTemp? && q == TempPath(s.ds[d].job, s.ds[d].phase.attempt))
    ensures Accounted(c, NextBy(c, s, d, a), q, left)
  {
    var t := NextBy(c, s, d, a);
    ElsewhereStays(c, s, d, a, q);
    if e: nat :| Uses(t, e, q) {
      OthersUse(c, s, d, a, e, q);
      assert Uses(s, e, q);
    }
    if e: nat :| Uses(s, e, q) {
      OthersUse(c, s, d, a, e, q);
      assert Uses(t, e, q);
    }
  }

  lemma ManagerAct(c: Config, s: State, e: Event, q: Path, left: bool)
    requires Enabled(c, s, e) && (e.ReadUnit? || e.FinishReload?) && Accounted(c, s, q, left)
    ensures Accounted(c, Next(c, s, e), q, left)
  {
    var t := Next(c, s, e);
    assert |t.ds| == |s.ds| && t.fs == s.fs;
    forall d: nat ensures Uses(t, d, q) <==> Uses(s, d, q) {
      if d < |s.ds| && e.FinishReload? {
        ReplyMoves(s, e.uid, d);
      }
    }
  }

  lemma StepAccounts(c: Config, s: State, e: Event, q: Path, left: bool)
    requires Inv(c, s) && Enabled(c, s, e) && !e.CrashSystem? && !QuadletPath(q) && Accounted(c, s, q, left)
    ensures Accounted(c, Next(c, s, e), q, left || Abandons(s, e, q))
  {
    match e {
      case By(d, a) =>
        if Uses(s, d, q) {
          OwnAct(c, s, d, a, q, left);
        } else if a.CreateTemp? && q == TempPath(s.ds[d].job, s.ds[d].phase.attempt) {
          CreateAct(c, s, d, q, left);
        } else {
          ElsewhereAct(c, s, d, a, q, left);
        }
      case _ => ManagerAct(c, s, e, q, left);
    }
  }

  lemma {:induction false} RunAccounts(c: Config, s: State, es: seq<Event>, q: Path, left: bool)
    requires Inv(c, s) && ValidRun(c, s, es) && (forall e <- es :: !e.CrashSystem?)
    requires !QuadletPath(q) && Accounted(c, s, q, left)
    ensures Accounted(c, After(c, s, es), q, left || AbandonedIn(c, s, es, q))
    decreases |es|
  {
    if es != [] {
      assert es[0] in es && forall e <- es[1..] :: e in es;
      StepKeepsInv(c, s, es[0]);
      StepAccounts(c, s, es[0], q, left);
      RunAccounts(c, Next(c, s, es[0]), es[1..], q, left || Abandons(s, es[0], q));
    }
  }

  /** After any run without a system crash, a name that is no Quadlet name exists in a user's directory if and
      only if it did at first, or a deployment is at work on it, or one left it there when its unlink failed or
      its process crashed. */
  lemma TemporaryFilesExactly(c: Config, s: State, es: seq<Event>, q: Path)
    requires Init(c, s) && ValidRun(c, s, es) && (forall e <- es :: !e.CrashSystem?) && !QuadletPath(q)
    ensures var t := After(c, s, es);
      q in t.fs.entries <==> q in s.fs.entries || InUse(t, q) || AbandonedIn(c, s, es, q)
  {
    InitInv(c, s);
    RunAccounts(c, s, es, q, false);
  }
}
