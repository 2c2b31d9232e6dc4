/**
 The self-rescheduling sync scheduler: timers, ticks, start and stop in every interleaving.
 */
module Scheduler {
  import opened Options

  /**
   handle is the module's _timeoutHandle, inFlight its _tickInFlight; pending are the timers armed
   in the event loop, running the ticks that have begun and not completed.
   */
  datatype State = State(handle: Option<nat>, inFlight: bool, pending: set<nat>, running: nat, nextTimer: nat)

  const IDLE := State(None, false, {}, 0, 0)

  datatype Step = Start | Stop | Fire(timer: nat) | Complete

  predicate Enabled(s: State, step: Step) {
    match step
    case Fire(t) => t in s.pending
    case Complete => s.running > 0
    case _ => true
  }

  function Scheduled(s: State): State {
    s.(handle := Some(s.nextTimer), pending := s.pending + {s.nextTimer}, nextTimer := s.nextTimer + 1)
  }

  function Next(s: State, step: Step): State
    requires Enabled(s, step)
  {
    match step
    case Start => if s.handle.Some? then s else Scheduled(s)
    case Stop => if s.handle.Some? then s.(handle := None, pending := s.pending - {s.handle.value}) else s
    case Fire(t) =>
      var fired := s.(pending := s.pending - {t});
      if s.inFlight then Scheduled(fired) else fired.(inFlight := true, running := s.running + 1)
    case Complete =>
      var done := s.(inFlight := false, running := s.running - 1);
      if s.handle.Some? then Scheduled(done) else done
  }

  /** The module's two variables, and the event loop they act on. */
  class SyncScheduler {
    var timeoutHandle: Option<nat>
    var tickInFlight: bool
    var pending: set<nat>
    var running: nat
    var nextTimer: nat

    function Now(): State
      reads this
    {
      State(timeoutHandle, tickInFlight, pending, running, nextTimer)
    }

    constructor ()
      ensures Now() == IDLE
    {
      timeoutHandle, tickInFlight, pending, running, nextTimer := None, false, {}, 0, 0;
    }

    method ScheduleTick()
      modifies this
      ensures Now() == Scheduled(old(Now()))
    {
      pending := pending + {nextTimer};
      timeoutHandle := Some(nextTimer);
      nextTimer := nextTimer + 1;
    }

    method StartSyncScheduler()
      modifies this
      ensures Now() == Next(old(Now()), Start)
    {
      if timeoutHandle.Some? { return; }
      ScheduleTick();
    }

    method StopSyncScheduler()
      modifies this
      ensures Now() == Next(old(Now()), Stop)
    {
      if timeoutHandle.Some? {
        pending := pending - {timeoutHandle.value};
        timeoutHandle := None;
      }
    }

    /** The timer's callback. */
    method OnTimer(t: nat)
      requires t in pending
      modifies this
      ensures Now() == Next(old(Now()), Fire(t))
    {
      pending := pending - {t};
      if tickInFlight {
        ScheduleTick();
        return;
      }
      tickInFlight := true;
      running := running + 1;
    }

    /** The tick's finally block. */
    method OnTickDone()
      requires running > 0
      modifies this
      ensures Now() == Next(old(Now()), Complete)
    {
      running := running - 1;
      tickInFlight := false;
      if timeoutHandle.Some? { ScheduleTick(); }
    }
  }

  // ----- runs -----------------------------------------------------------------------------------

  predicate Run(s: State, steps: seq<Step>)
    decreases |steps|
  {
    steps == [] || (Enabled(s, steps[0]) && Run(Next(s, steps[0]), steps[1..]))
  }

  function End(s: State, steps: seq<Step>): State
    requires Run(s, steps)
    decreases |steps|
  {
    if steps == [] then s else End(Next(s, steps[0]), steps[1..])
  }

  predicate Sane(s: State) {
    && s.running == (if s.inFlight then 1 else 0)
    && (forall t | t in s.pending :: t < s.nextTimer)
    && (s.handle.Some? ==> s.handle.value < s.nextTimer)
    && (s.handle.Some? ==> s.running > 0 || s.pending != {})
  }

  lemma StepKeepsSane(s: State, step: Step)
    requires Sane(s) && Enabled(s, step)
    ensures Sane(Next(s, step))
  {
    if step.Start? || step.Complete? || (step.Fire? && s.inFlight) {
      assert s.nextTimer in Next(s, step).pending || Next(s, step).handle == s.handle;
    }
  }

  /** In every interleaving at most one tick is in flight, and the guard flag says whether one is. */
  lemma {:induction false} OneTickInFlight(s: State, steps: seq<Step>)
    requires Sane(s) && Run(s, steps)
    ensures Sane(End(s, steps)) && End(s, steps).running <= 1
    ensures End(s, steps).inFlight <==> End(s, steps).running == 1
    decreases |steps|
  {
    if steps != [] {
      StepKeepsSane(s, steps[0]);
      OneTickInFlight(Next(s, steps[0]), steps[1..]);
    }
  }

  // ----- chains ---------------------------------------------------------------------------------

  /** Every armed timer and every running tick carries one self-rescheduling chain on. */
  function Chains(s: State): nat { |s.pending| + s.running }

  function ChainsGained(s: State, step: Step): int {
    match step
    case Start => if s.handle.None? then 1 else 0
    case Stop => if s.handle.Some? && s.handle.value in s.pending then -1 else 0
    case Fire(_) => 0
    case Complete => if s.handle.None? then -1 else 0
  }

  /** Timer fires never change the number of chains; starts, stops and completions do only as stated. */
  lemma ChainsConserved(s: State, step: Step)
    requires Sane(s) && Enabled(s, step)
    ensures Chains(Next(s, step)) == Chains(s) + ChainsGained(s, step)
  {
    match step
    case Fire(t) =>
      assert |s.pending - {t}| == |s.pending| - 1;
      assert s.nextTimer !in s.pending;
    case Complete => assert s.nextTimer !in s.pending;
    case Start => assert s.nextTimer !in s.pending;
    case Stop =>
  }

  /** Without a stop, no chain is ever lost: a second one, once there, stays. */
  lemma {:induction false} ChainsPersist(s: State, steps: seq<Step>)
    requires Sane(s) && Run(s, steps) && s.handle.Some? && Stop !in steps
    ensures Chains(End(s, steps)) == Chains(s) && End(s, steps).handle.Some?
    decreases |steps|
  {
    if steps != [] {
      StepKeepsSane(s, steps[0]);
      ChainsConserved(s, steps[0]);
      ChainsPersist(Next(s, steps[0]), steps[1..]);
    }
  }

  // ----- one timer, and silence after stop ------------------------------------------------------

  /** The only timer there can be is the one the handle names. */
  predicate Tidy(s: State) {
    s.pending <= if s.handle.Some? then {s.handle.value} else {}
  }

  lemma TidyHasOneTimer(s: State)
    requires Tidy(s)
    ensures |s.pending| <= 1
    ensures s.handle.None? ==> s.pending == {}
  {
    if s.handle.Some? {
      assert s.pending == {} || s.pending == {s.handle.value};
    }
  }

  /** The one step that forgets a timer: a tick completing while the handle's timer is still armed. */
  predicate Forgets(s: State, step: Step) {
    step.Complete? && s.handle.Some? && s.handle.value in s.pending
  }

  lemma TidyUnlessForgotten(s: State, step: Step)
    requires Sane(s) && Enabled(s, step) && Tidy(s)
    ensures Tidy(Next(s, step)) <==> !Forgets(s, step)
  {
    var s' := Next(s, step);
    if Forgets(s, step) {
      assert s.handle.value in s'.pending && s.handle.value != s.nextTimer;
    } else if step.Complete? && s.handle.Some? {
      assert s.pending == {};
    }
  }

  predicate NeverForgets(s: State, steps: seq<Step>)
    requires Run(s, steps)
    decreases |steps|
  {
    steps == [] || (!Forgets(s, steps[0]) && NeverForgets(Next(s, steps[0]), steps[1..]))
  }

  predicate AlwaysTidy(s: State, steps: seq<Step>)
    requires Run(s, steps)
    decreases |steps|
  {
    Tidy(s) && (steps == [] || AlwaysTidy(Next(s, steps[0]), steps[1..]))
  }

  /** The exact condition: all states of a run are tidy just when no step of it forgets a timer. */
  lemma {:induction false} TidyExactly(s: State, steps: seq<Step>)
    requires Sane(s) && Tidy(s) && Run(s, steps)
    ensures AlwaysTidy(s, steps) <==> NeverForgets(s, steps)
    decreases |steps|
  {
    if steps != [] {
      TidyUnlessForgotten(s, steps[0]);
      StepKeepsSane(s, steps[0]);
      if Tidy(Next(s, steps[0])) { TidyExactly(Next(s, steps[0]), steps[1..]); }
    }
  }

  /** No start takes effect while a tick from before a stop is still running. */
  predicate NoHastyRestart(s: State, steps: seq<Step>)
    requires Run(s, steps)
    decreases |steps|
  {
    steps == [] ||
    (!(steps[0].Start? && s.handle.None? && s.inFlight) && NoHastyRestart(Next(s, steps[0]), steps[1..]))
  }

  predicate Begins(s: State, step: Step) { step.Fire? && !s.inFlight }

  /** Whether the last call of the two was a stop, or, before any, what it was. */
  predicate StoppedBy(stopped: bool, step: Step) { step.Stop? || (stopped && !step.Start?) }

  /** No tick begins between a stop and the next call of start; stopped says whether such a stop came before. */
  predicate QuietWhenStopped(s: State, stopped: bool, steps: seq<Step>)
    requires Run(s, steps)
    decreases |steps|
  {
    steps == [] ||
    (!(stopped && Begins(s, steps[0])) &&
     QuietWhenStopped(Next(s, steps[0]), StoppedBy(stopped, steps[0]), steps[1..]))
  }

  /** While a tick runs no timer is armed. */
  predicate Calm(s: State) { Tidy(s) && (s.inFlight ==> s.pending == {}) }

  predicate Silent(s: State) { s.handle.None? && s.pending == {} }

  lemma CalmStep(s: State, stopped: bool, step: Step)
    requires Sane(s) && Calm(s) && (stopped ==> Silent(s)) && Enabled(s, step)
    requires !(step.Start? && s.handle.None? && s.inFlight)
    ensures Calm(Next(s, step)) && Chains(Next(s, step)) <= 1 && !(stopped && Begins(s, step))
    ensures StoppedBy(stopped, step) ==> Silent(Next(s, step))
  {
    var s' := Next(s, step);
    TidyUnlessForgotten(s, step);
    TidyHasOneTimer(s');
    if step.Fire? { assert s.pending == {step.timer}; }
  }

  /**
   If every restart waits for the tick in flight - in particular with a single start - there is
   never more than one timer or tick, and no tick begins between a stop and the next start.
   */
  lemma {:induction false} QuietAfterStop(s: State, stopped: bool, steps: seq<Step>)
    requires Sane(s) && Calm(s) && (stopped ==> Silent(s)) && Run(s, steps) && NoHastyRestart(s, steps)
    ensures AlwaysTidy(s, steps) && QuietWhenStopped(s, stopped, steps)
    ensures steps != [] ==> Chains(End(s, steps)) <= 1
    decreases |steps|
  {
    if steps != [] {
      CalmStep(s, stopped, steps[0]);
      StepKeepsSane(s, steps[0]);
      QuietAfterStop(Next(s, steps[0]), StoppedBy(stopped, steps[0]), steps[1..]);
      assert steps[1..] == [] ==> End(s, steps) == Next(s, steps[0]);
    }
  }

  predicate StartsAtMostOnce(steps: seq<Step>) {
    forall i: nat, j: nat | i < |steps| && j < |steps| && steps[i].Start? && steps[j].Start? :: i == j
  }

  lemma {:induction false} NoStartNoRestart(s: State, steps: seq<Step>)
    requires Run(s, steps) && Start !in steps
    ensures NoHastyRestart(s, steps)
    decreases |steps|
  {
    if steps != [] { NoStartNoRestart(Next(s, steps[0]), steps[1..]); }
  }

  /** Until the one start nothing can happen, so it finds no tick in flight. */
  lemma {:induction false} SingleStartIsNotHasty(steps: seq<Step>)
    requires Run(IDLE, steps) && StartsAtMostOnce(steps)
    ensures NoHastyRestart(IDLE, steps)
    decreases |steps|
  {
    if steps != [] {
      if steps[0].Start? {
        forall i: nat | i < |steps[1..]| ensures steps[1..][i] != Start {
          assert steps[1..][i] == steps[i + 1];
        }
        NoStartNoRestart(Next(IDLE, steps[0]), steps[1..]);
      } else {
        assert Next(IDLE, steps[0]) == IDLE;
        forall i: nat, j: nat | i < |steps[1..]| && j < |steps[1..]| && steps[1..][i].Start? && steps[1..][j].Start?
          ensures i == j
        {
          assert steps[1..][i] == steps[i + 1] && steps[1..][j] == steps[j + 1];
        }
        SingleStartIsNotHasty(steps[1..]);
      }
    }
  }

  /** With a single start: one timer or tick at a time, and silence after the stop. */
  lemma SingleStartIsSafe(steps: seq<Step>)
    requires Run(IDLE, steps) && StartsAtMostOnce(steps)
    ensures AlwaysTidy(IDLE, steps) && QuietWhenStopped(IDLE, true, steps) && Chains(End(IDLE, steps)) <= 1
  {
    SingleStartIsNotHasty(steps);
    QuietAfterStop(IDLE, true, steps);
  }

  // ----- which states a stop silences ------------------------------------------------------------

  /** A stop disarms every timer exactly when the state is tidy. */
  lemma TidyIsStoppable(s: State)
    ensures Tidy(s) <==> Next(s, Stop).pending == {}
  {
  }

  /** Some run without a start begins a tick. */
  ghost predicate CanBegin(s: State) {
    exists steps: seq<Step> :: Start !in steps && Run(s, steps) && !QuietWhenStopped(s, true, steps)
  }

  lemma {:induction false} SilentStaysQuiet(s: State, steps: seq<Step>)
    requires Silent(s) && Start !in steps && Run(s, steps)
    ensures QuietWhenStopped(s, true, steps)
    decreases |steps|
  {
    if steps != [] { SilentStaysQuiet(Next(s, steps[0]), steps[1..]); }
  }

  lemma ArmedCanBegin(s: State, t: nat)
    requires Sane(s) && s.handle.None? && t in s.pending
    ensures CanBegin(s)
  {
    if s.inFlight {
      var steps := [Complete, Fire(t)];
      assert steps[1..] == [Fire(t)] && Run(Next(s, Complete), steps[1..]);
      assert Begins(Next(s, Complete), steps[1..][0]);
      assert !QuietWhenStopped(Next(s, Complete), true, steps[1..]);
      assert Start !in steps && Run(s, steps) && !QuietWhenStopped(s, true, steps);
    } else {
      var steps := [Fire(t)];
      assert Begins(s, steps[0]) && Run(Next(s, steps[0]), steps[1..]);
      assert Start !in steps && Run(s, steps) && !QuietWhenStopped(s, true, steps);
    }
  }

  /** The exact states: after a stop a tick can still begin if and only if the state was not tidy. */
  lemma SilencedExactly(s: State)
    requires Sane(s)
    ensures CanBegin(Next(s, Stop)) <==> !Tidy(s)
  {
    var stopped := Next(s, Stop);
    StepKeepsSane(s, Stop);
    if Tidy(s) {
      forall steps: seq<Step> | Start !in steps && Run(stopped, steps) ensures QuietWhenStopped(stopped, true, steps) {
        SilentStaysQuiet(stopped, steps);
      }
    } else {
      var t: nat :| t in s.pending && t !in (if s.handle.Some? then {s.handle.value} else {});
      ArmedCanBegin(stopped, t);
    }
  }

  // ----- what a hasty restart does --------------------------------------------------------------

  const HASTY := [Start, Fire(0), Stop, Start, Complete]

  /** Stop and start during a tick: two timers afterwards, one of which the next stop misses. */
  lemma HastyRestartLeaksATimer()
    ensures Run(IDLE, HASTY) && End(IDLE, HASTY).pending == {1, 2}
    ensures Run(End(IDLE, HASTY), [Stop, Fire(1)]) && !QuietWhenStopped(End(IDLE, HASTY), false, [Stop, Fire(1)])
  {
    var s1 := Next(IDLE, Start);
    var s2 := Next(s1, Fire(0));
    var s3 := Next(s2, Stop);
    var s4 := Next(s3, Start);
    var s5 := Next(s4, Complete);
    assert HASTY[1..][1..][1..][1..] == [Complete];
    assert HASTY[1..][1..][1..] == [Start, Complete];
    assert HASTY[1..][1..] == [Stop, Start, Complete];
    assert HASTY[1..] == [Fire(0), Stop, Start, Complete];
    assert s5.pending == {1, 2};
    assert Run(s4, [Complete]) && End(s4, [Complete]) == s5;
    assert Run(s3, [Start, Complete]) && End(s3, [Start, Complete]) == s5;
    assert Run(s2, [Stop, Start, Complete]) && End(s2, [Stop, Start, Complete]) == s5;
    assert Run(s1, HASTY[1..]) && End(s1, HASTY[1..]) == s5;
    assert [Stop, Fire(1)][1..] == [Fire(1)];
    assert Run(Next(s5, Stop), [Fire(1)]);
  }
}
