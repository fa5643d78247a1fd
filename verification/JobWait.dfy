/** Waiting for a systemd job over D-Bus: the reply names the job, a signal tells its end. */
module JobWait {
  import opened Text
  import Names

  datatype Signal = JobRemoved(job: string, result: string)
  datatype Outcome = InvalidUnit | BusError | TimedOut | BadResult(result: string) | Finished(job: string)

  /** What the signal callback shares with the caller. */
  datatype Shared = Shared(expected: Option<string>, done: bool, promise: Option<string>)

  /** The signal callback. */
  function Handle(s: Shared, signal: Signal): Shared {
    if s.done || s.expected != Some(signal.job) then s
    else s.(done := true, promise := Some(signal.result))
  }

  function HandleAll(s: Shared, signals: seq<Signal>): Shared
    decreases |signals|
  {
    if signals == [] then s else HandleAll(Handle(s, signals[0]), signals[1..])
  }

  /** The result the signals report for a job: that of the first signal for it. */
  function FirstResult(signals: seq<Signal>, job: string): Option<string>
    decreases |signals|
  {
    if signals == [] then None
    else if signals[0].job == job then Some(signals[0].result)
    else FirstResult(signals[1..], job)
  }

  const START := Shared(None, false, None)

  // ----- The program -----

  /** The bus connection of one call, with the callback's state. */
  class Wait {
    var shared: Shared
    var looping: bool
    var queue: seq<Signal>
    ghost var arrived: seq<Signal>
    ghost var handled: seq<Signal>

    ghost predicate Valid() reads this {
      && arrived == handled + queue
      && (!looping ==> handled == [])
      && (looping ==> shared.expected.Some?)
      && shared.done == shared.promise.Some?
      && shared.promise == (if shared.expected.Some? then FirstResult(handled, shared.expected.value) else None)
    }

    constructor ()
      ensures Valid() && !looping && arrived == [] && shared == START
    {
      shared, looping, queue, arrived, handled := START, false, [], [], [];
    }

    /** The bus delivers some signals to the connection's queue. */
    method Deliver(signals: seq<Signal>)
      requires Valid()
      modifies this`queue, this`arrived
      ensures Valid()
      ensures arrived == old(arrived) + signals
    {
      assert handled + queue + signals == handled + (queue + signals);
      queue, arrived := queue + signals, arrived + signals;
    }

    /** `std::promise::set_value`, which throws when there is a value already. */
    method SetValue(result: string)
      requires shared.promise.None?
      modifies this`shared
      ensures shared == old(shared).(promise := Some(result))
    {
      shared := shared.(promise := Some(result));
    }

    method OnJobRemoved(signal: Signal)
      requires shared.done == shared.promise.Some?
      modifies this`shared
      ensures shared == Handle(old(shared), signal)
    {
      if shared.done {
        return;
      }
      if shared.expected.None? || signal.job != shared.expected.value {
        return;
      }
      shared := shared.(done := true);
      SetValue(signal.result);
    }

    /** The reply to the method call: the job is known before any signal is looked at. */
    method CallReturned(job: string)
      requires Valid() && !looping && shared.expected.None?
      modifies this`shared
      ensures Valid() && shared == old(shared).(expected := Some(job))
    {
      shared := shared.(expected := Some(job));
    }

    /** The event loop takes the oldest signal from the queue. */
    method Dispatch()
      requires Valid() && looping && queue != []
      modifies this`shared, this`queue, this`handled
      ensures Valid() && shared.expected == old(shared).expected
      ensures |queue| < |old(queue)| && |handled| == |old(handled)| + 1
    {
      var signal := queue[0];
      FirstResultSnoc(handled, signal, shared.expected.value);
      assert handled + queue == handled + [signal] + queue[1..];
      OnJobRemoved(signal);
      queue, handled := queue[1..], handled + [signal];
    }

    /** Everything delivered so far is handled: then no signal was lost. */
    method Drain()
      requires Valid() && looping
      modifies this`shared, this`queue, this`handled
      ensures Valid() && queue == [] && shared.expected == old(shared).expected
      ensures shared.promise == FirstResult(arrived, shared.expected.value)
    {
      while queue != []
        invariant Valid() && shared.expected == old(shared).expected
        decreases |queue|
      {
        Dispatch();
      }
      assert arrived == handled;
    }

    /** Waiting on the future while the loop runs beside it: in each turn the bus delivers what has come, and the
        loop takes the oldest signal waiting; with the last turn the time is over. */
    method Await(turns: seq<seq<Signal>>) returns (ready: bool)
      requires Valid() && looping && handled == []
      modifies this
      ensures Valid() && looping && shared.expected == old(shared).expected
      ensures old(arrived) <= arrived <= old(arrived) + Flat(turns)
      ensures ready <==> shared.promise.Some?
      ensures !ready ==> InTime(old(arrived), turns, |turns|, |handled|)
    {
      ghost var early := arrived;
      assert Flat(turns[..0]) == [] && early + [] == early;
      for i := 0 to |turns|
        invariant Valid() && looping && shared.expected == old(shared).expected
        invariant arrived == early + Flat(turns[..i])
        invariant InTime(early, turns, i, |handled|)
      {
        FlatPrefix(turns, i);
        if shared.promise.Some? {
          return true;
        }
        TurnArrives(early, turns, i);
        Deliver(turns[i]);
        ghost var before := |handled|;
        if queue != [] {
          Dispatch();
        }
        TurnInTime(early, turns, i, before, |handled|);
      }
      assert turns[..|turns|] == turns;
      ready := shared.promise.Some?;
    }
  }

  /** All signals of some turns, in order. */
  function Flat(turns: seq<seq<Signal>>): seq<Signal> {
    if turns == [] then [] else Flat(turns[..|turns| - 1]) + turns[|turns| - 1]
  }

  /** How many signals have come before turn `t`. */
  function Come(early: seq<Signal>, turns: seq<seq<Signal>>, t: nat): nat
    requires t <= |turns|
  {
    |early| + |Flat(turns[..t])|
  }

  /** After `now` turns every signal has been handled that had come by some turn and had no more signals before it
      than there were turns since. */
  ghost predicate InTime(early: seq<Signal>, turns: seq<seq<Signal>>, now: nat, handled: nat)
    requires now <= |turns|
  {
    forall t: nat :: t <= now ==> handled >= Come(early, turns, t) || handled >= now - t
  }

  /** No signal for the job has come in time: by some turn, and with no more signals before it than there were
      turns left. */
  ghost predicate NothingTimely(early: seq<Signal>, turns: seq<seq<Signal>>, job: string) {
    forall t: nat, j: nat :: t <= |turns| && j < Come(early, turns, t) && j < |turns| - t ==>
      j < |early + Flat(turns)| && (early + Flat(turns))[j].job != job
  }

  lemma TurnArrives(early: seq<Signal>, turns: seq<seq<Signal>>, i: nat)
    requires i < |turns|
    ensures early + Flat(turns[..i]) + turns[i] == early + Flat(turns[..i + 1])
    ensures Come(early, turns, i + 1) == Come(early, turns, i) + |turns[i]|
  {
    assert turns[..i + 1][..i] == turns[..i];
  }

  lemma {:induction false} FlatPrefix(turns: seq<seq<Signal>>, i: nat)
    requires i <= |turns|
    ensures Flat(turns[..i]) <= Flat(turns)
    decreases |turns| - i
  {
    if i < |turns| {
      FlatPrefix(turns, i + 1);
      assert turns[..i + 1][..i] == turns[..i];
    } else {
      assert turns[..i] == turns;
    }
  }

  lemma {:induction false} ComeGrows(early: seq<Signal>, turns: seq<seq<Signal>>, t: nat, i: nat)
    requires t <= i <= |turns|
    ensures Come(early, turns, t) <= Come(early, turns, i)
    decreases i - t
  {
    if t < i {
      TurnArrives(early, turns, i - 1);
      ComeGrows(early, turns, t, i - 1);
    }
  }

  lemma TurnInTime(early: seq<Signal>, turns: seq<seq<Signal>>, i: nat, before: nat, after: nat)
    requires i < |turns| && InTime(early, turns, i, before)
    requires before <= Come(early, turns, i)
    requires after == if before < Come(early, turns, i + 1) then before + 1 else before
    ensures InTime(early, turns, i + 1, after)
  {
    forall t: nat | t <= i + 1 ensures after >= Come(early, turns, t) || after >= i + 1 - t {
      ComeGrows(early, turns, t, i + 1);
    }
  }

  /**
    * `unit_job_and_wait` up to the status query. The reply is none on a D-Bus error; `early` are the signals
    * that came before it, `turns` those that come while the caller waits, until the time is over.
    */
  method UnitJobAndWait(unit: string, reply: Option<string>, early: seq<Signal>, turns: seq<seq<Signal>>)
    returns (r: Outcome)
    ensures r.InvalidUnit? <==> !Names.SafeSystemdUnit(unit)
    ensures r.BusError? <==> Names.SafeSystemdUnit(unit) && reply.None?
    ensures r.Finished? ==> reply == Some(r.job) && FirstResult(early + Flat(turns), r.job) == Some("done")
    ensures r.BadResult? ==>
      reply.Some? && r.result != "done" && FirstResult(early + Flat(turns), reply.value) == Some(r.result)
    ensures r.TimedOut? ==> reply.Some? && NothingTimely(early, turns, reply.value)
    ensures Names.SafeSystemdUnit(unit) && reply.Some? && |early| <= |turns| && FirstResult(early, reply.value).Some? ==>
      r == if FirstResult(early, reply.value) == Some("done") then Finished(reply.value)
           else BadResult(FirstResult(early, reply.value).value)
  {
    if !Names.SafeSystemdUnit(unit) {
      return InvalidUnit;
    }
    var wait := new Wait();
    wait.Deliver(early);
    assert [] + early == early;
    if reply.None? {
      return BusError;
    }
    wait.CallReturned(reply.value);
    wait.looping := true;
    var ready := wait.Await(turns);
    ghost var all := early + Flat(turns);
    ghost var later := all[|wait.handled|..];
    assert all == wait.handled + later;
    FirstResultKeeps(wait.handled, later, reply.value);
    FirstResultKeeps(early, Flat(turns), reply.value);
    if !ready {
      assert wait.handled <= all;
      NothingInTime(early, turns, wait.handled, reply.value);
      if |early| <= |turns| {
        NothingEarly(early, turns, wait.handled, reply.value);
      }
      return TimedOut;
    }
    var result := wait.shared.promise.value;
    r := if result != "done" then BadResult(result) else Finished(reply.value);
  }

  /** What was handled in time without a result had none. */
  lemma TimelyIsHandled(early: seq<Signal>, turns: seq<seq<Signal>>, handled: nat, t: nat, j: nat)
    requires InTime(early, turns, |turns|, handled) && t <= |turns| && j < Come(early, turns, t) && j < |turns| - t
    ensures j < handled
  {
  }

  lemma NothingInTime(early: seq<Signal>, turns: seq<seq<Signal>>, handled: seq<Signal>, job: string)
    requires handled <= early + Flat(turns) && InTime(early, turns, |turns|, |handled|) && FirstResult(handled, job).None?
    ensures NothingTimely(early, turns, job)
  {
    NoneReported(handled, job);
    var all := early + Flat(turns);
    forall t: nat, j: nat | t <= |turns| && j < Come(early, turns, t) && j < |turns| - t
      ensures j < |all| && all[j].job != job
    {
      TimelyIsHandled(early, turns, |handled|, t, j);
      HandledIs(handled, all, j);
    }
  }

  lemma NothingEarly(early: seq<Signal>, turns: seq<seq<Signal>>, handled: seq<Signal>, job: string)
    requires handled <= early + Flat(turns) && InTime(early, turns, |turns|, |handled|) && FirstResult(handled, job).None?
    requires |early| <= |turns|
    ensures FirstResult(early, job).None?
  {
    EarlyIsHandled(early, turns, |handled|);
    InFront(early, handled, Flat(turns));
    NoneInFront(early, handled, job);
  }

  lemma InFront(early: seq<Signal>, handled: seq<Signal>, later: seq<Signal>)
    requires handled <= early + later && |early| <= |handled|
    ensures early <= handled
  {
  }

  lemma HandledIs(handled: seq<Signal>, all: seq<Signal>, j: nat)
    requires handled <= all && j < |handled|
    ensures j < |all| && all[j] == handled[j] && handled[j] in handled
  {
  }

  lemma EarlyIsHandled(early: seq<Signal>, turns: seq<seq<Signal>>, handled: nat)
    requires InTime(early, turns, |turns|, handled) && |early| <= |turns|
    ensures |early| <= handled
  {
    assert turns[..0] == [];
    assert Come(early, turns, 0) == |early|;
  }

  lemma NoneInFront(early: seq<Signal>, handled: seq<Signal>, job: string)
    requires early <= handled && FirstResult(handled, job).None?
    ensures FirstResult(early, job).None?
  {
    assert handled == early + handled[|early|..];
    FirstResultKeeps(early, handled[|early|..], job);
  }

  // ----- Laws -----

  lemma {:induction false} FirstResultSnoc(signals: seq<Signal>, last: Signal, job: string)
    ensures FirstResult(signals + [last], job) ==
            if FirstResult(signals, job).Some? then FirstResult(signals, job)
            else if last.job == job then Some(last.result) else None
    decreases |signals|
  {
    if signals != [] {
      assert (signals + [last])[1..] == signals[1..] + [last];
      FirstResultSnoc(signals[1..], last, job);
    }
  }

  /** A result once reported stays the result, whatever follows. */
  lemma {:induction false} FirstResultKeeps(a: seq<Signal>, b: seq<Signal>, job: string)
    ensures FirstResult(a + b, job) ==
            if FirstResult(a, job).Some? then FirstResult(a, job) else FirstResult(b, job)
    decreases |a|
  {
    if a == [] {
      assert a + b == b;
    } else {
      assert (a + b)[1..] == a[1..] + b;
      FirstResultKeeps(a[1..], b, job);
    }
  }

  /** Signals of other jobs, wherever they come, do not matter. */
  lemma {:induction false} OthersDoNotMatter(a: seq<Signal>, others: seq<Signal>, b: seq<Signal>, job: string)
    requires forall s <- others :: s.job != job
    ensures FirstResult(a + others + b, job) == FirstResult(a + b, job)
  {
    NoneReported(others, job);
    FirstResultKeeps(a + others, b, job);
    FirstResultKeeps(a, others, job);
    FirstResultKeeps(a, b, job);
  }

  lemma {:induction false} NoneReported(signals: seq<Signal>, job: string)
    ensures FirstResult(signals, job).None? <==> forall s <- signals :: s.job != job
    decreases |signals|
  {
    if signals != [] {
      NoneReported(signals[1..], job);
      assert signals == [signals[0]] + signals[1..];
    }
  }

  lemma {:induction false} HandledAfterReply(s: Shared, signals: seq<Signal>)
    requires s.expected.Some?
    ensures HandleAll(s, signals) ==
            if s.done || FirstResult(signals, s.expected.value).None? then s
            else s.(done := true, promise := FirstResult(signals, s.expected.value))
    decreases |signals|
  {
    if signals != [] {
      HandledAfterReply(Handle(s, signals[0]), signals[1..]);
    }
  }

  lemma {:induction false} HandledBeforeReply(signals: seq<Signal>)
    ensures HandleAll(START, signals) == START
    decreases |signals|
  {
    if signals != [] {
      HandledBeforeReply(signals[1..]);
    }
  }

  /** Two instead of one call to `HandleAll`, with the reply between them. */
  function Unqueued(before: seq<Signal>, job: string, after: seq<Signal>): Shared {
    HandleAll(HandleAll(START, before).(expected := Some(job)), after)
  }

  function Queued(before: seq<Signal>, job: string, after: seq<Signal>): Shared {
    HandleAll(START.(expected := Some(job)), before + after)
  }

  /** Holding signals back until the reply is what keeps an early one: exactly then it matters. */
  lemma QueueingMatters(before: seq<Signal>, job: string, after: seq<Signal>)
    ensures Queued(before, job, after).promise == FirstResult(before + after, job)
    ensures Unqueued(before, job, after).promise == FirstResult(after, job)
    ensures Unqueued(before, job, after) == Queued(before, job, after) <==>
            FirstResult(before, job).None? || FirstResult(before, job) == FirstResult(after, job)
  {
    HandledBeforeReply(before);
    HandledAfterReply(START.(expected := Some(job)), after);
    HandledAfterReply(START.(expected := Some(job)), before + after);
    FirstResultKeeps(before, after, job);
  }
}
