/** The coalesced retention trigger: RetentionScheduler (src/artifacts/retention_scheduler.h)
    and the critical sections of `maintenance_mutex_` in src/runtime/context.cpp. */
module RetentionTrigger {

  datatype Triggers = Triggers(time: nat, captures: nat)

  datatype Schedule = Schedule(lastRun: int, committed: nat)

  function Counted(s: Schedule): Schedule {
    s.(committed := s.committed + 1)
  }

  predicate Fires(s: Schedule, t: Triggers) {
    t.captures != 0 && s.committed >= t.captures
  }

  predicate IsDue(s: Schedule, t: Triggers, now: int) {
    now - s.lastRun >= t.time
  }

  class RetentionScheduler {
    const triggers: Triggers
    var lastRun: int
    var committedCaptures: nat

    function View(): Schedule
      reads this
    {
      Schedule(lastRun, committedCaptures)
    }

    constructor (triggers: Triggers)
      ensures this.triggers == triggers && View() == Schedule(0, 0)
    {
      this.triggers := triggers;
      lastRun, committedCaptures := 0, 0;
    }

    method OnCaptureCommitted() returns (fires: bool)
      modifies this
      ensures View() == Counted(old(View())) && fires == Fires(View(), triggers)
    {
      committedCaptures := committedCaptures + 1;
      fires := triggers.captures != 0 && committedCaptures >= triggers.captures;
    }

    predicate Due(now: int)
      reads this
    {
      now - lastRun >= triggers.time
    }

    method OnRetentionRun(now: int)
      modifies this
      ensures View() == Schedule(now, 0)
    {
      lastRun, committedCaptures := now, 0;
    }
  }

  /** Where the maintenance thread is: at the head of its loop (or waiting there), in
      `enforce_retention` without the mutex, or returned. */
  datatype Phase = AtLoop | Running | Returned

  datatype State = State(schedule: Schedule, requested: bool, stop: bool, phase: Phase)

  function AfterSchedule(s: State, t: Triggers, committed: bool, now: int): State {
    var schedule := if committed then Counted(s.schedule) else s.schedule;
    var request := (committed && Fires(schedule, t)) || IsDue(schedule, t, now);
    s.(schedule := schedule, requested := s.requested || request)
  }

  predicate Starts(s: State, t: Triggers, now: int) {
    s.phase == AtLoop && !s.stop && (s.requested || IsDue(s.schedule, t, now))
  }

  function Iterated(s: State, t: Triggers, now: int): State {
    if s.stop then s.(phase := Returned)
    else if Starts(s, t, now) then s.(requested := false, phase := Running)
    else s
  }

  function Completed(s: State, now: int): State {
    s.(schedule := Schedule(now, 0), phase := AtLoop)
  }

  function StopRequested(s: State): State {
    s.(stop := true, requested := false)
  }

  class Maintenance {
    const retention: RetentionScheduler
    var requested: bool
    var stop: bool
    var phase: Phase

    function View(): State
      reads this, retention
    {
      State(retention.View(), requested, stop, phase)
    }

    constructor (triggers: Triggers, now: int)
      ensures View() == Initial(now) && retention.triggers == triggers
      ensures fresh(retention)
    {
      retention := new RetentionScheduler(triggers);
      requested, stop, phase := false, false, AtLoop;
      new;
      retention.OnRetentionRun(now);
    }

    /** `schedule_retention`, called once for every inspection that captured a frame. */
    method ScheduleRetention(committed: bool, now: int)
      modifies this, retention
      ensures View() == AfterSchedule(old(View()), retention.triggers, committed, now)
    {
      var request := false;
      if committed {
        request := retention.OnCaptureCommitted();
      }
      if !request {
        request := retention.Due(now);
      }
      if request {
        requested := true;
      }
    }

    /** One pass of `maintenance_loop` up to the wait or to the unlocking before the run. */
    method Iterate(now: int) returns (starts: bool)
      requires phase == AtLoop
      modifies this
      ensures starts == Starts(old(View()), retention.triggers, now)
      ensures View() == Iterated(old(View()), retention.triggers, now)
    {
      if stop {
        phase := Returned;
        return false;
      }
      if !requested {
        if retention.Due(now) {
          requested := true;
        }
      }
      if !requested {
        return false;
      }
      requested := false;
      phase := Running;
      return true;
    }

    /** The mutex is taken again after the run, whether it succeeded or not. */
    method Complete(now: int)
      requires phase == Running
      modifies this, retention
      ensures View() == Completed(old(View()), now)
    {
      retention.OnRetentionRun(now);
      phase := AtLoop;
    }

    method RequestStop()
      modifies this
      ensures View() == StopRequested(old(View()))
    {
      stop := true;
      requested := false;
    }
  }

  // ----- runs of the machine -----------------------------------------------------------------------

  function Initial(now: int): State {
    State(Schedule(now, 0), false, false, AtLoop)
  }

  /** The save worker commits a capture before the inspection that asked for it counts it, under
      the inspection gate, in `schedule_retention`; an inspection without a capture calls that
      too.  Clock readings never decrease. */
  datatype Step = Committed | Scheduled(now: int) | Iterate(now: int) | Complete(now: int) | Stop

  /** Besides the state: the latest clock reading, whether a committed capture is still to be
      counted, runs started so far, captures committed since the last start, when the last run
      ended (or the context was made), and captures counted since then. */
  datatype World = World(s: State, now: int, open: bool, runs: nat, sinceStart: nat, lastEnd: int, counted: nat)

  predicate Enabled(w: World, step: Step) {
    match step
    case Committed => !w.open
    case Scheduled(now) => now >= w.now
    case Iterate(now) => w.s.phase == AtLoop && now >= w.now
    case Complete(now) => w.s.phase == Running && now >= w.now
    case Stop => true
  }

  function Apply(w: World, t: Triggers, step: Step): World
    requires Enabled(w, step)
  {
    match step
    case Committed => w.(open := true, sinceStart := w.sinceStart + 1)
    case Scheduled(now) =>
      w.(s := AfterSchedule(w.s, t, w.open, now), now := now, open := false,
         counted := if w.open then w.counted + 1 else w.counted)
    case Iterate(now) =>
      var v := w.(s := Iterated(w.s, t, now), now := now);
      if Starts(w.s, t, now) then v.(runs := w.runs + 1, sinceStart := 0) else v
    case Complete(now) => w.(s := Completed(w.s, now), now := now, lastEnd := now, counted := 0)
    case Stop => w.(s := StopRequested(w.s))
  }

  function Begin(now: int): World {
    World(Initial(now), now, false, 0, 0, now, 0)
  }

  predicate Runnable(w: World, t: Triggers, steps: seq<Step>)
    decreases |steps|
  {
    steps == [] || (Enabled(w, steps[0]) && Runnable(Apply(w, t, steps[0]), t, steps[1..]))
  }

  function Run(w: World, t: Triggers, steps: seq<Step>): World
    requires Runnable(w, t, steps)
    decreases |steps|
  {
    if steps == [] then w else Run(Apply(w, t, steps[0]), t, steps[1..])
  }

  // ----- what holds in every run -------------------------------------------------------------------

  /** Captures that are committed and not counted yet. */
  function Uncounted(w: World): nat {
    if w.open then 1 else 0
  }

  predicate Quiet(w: World) {
    !w.s.requested && !w.s.stop && w.s.phase != Running
  }

  ghost predicate Inv(w: World, t: Triggers) {
    t.captures > 0 && !w.s.requested && !w.s.stop ==>
      match w.s.phase
      case AtLoop =>
        && w.s.schedule.committed < t.captures
        && w.sinceStart < w.s.schedule.committed + t.captures + Uncounted(w)
      case Running =>
        && w.sinceStart <= w.s.schedule.committed + Uncounted(w)
        && (w.sinceStart > Uncounted(w) ==> w.s.schedule.committed < t.captures)
      case Returned => false
  }

  lemma StepInv(w: World, t: Triggers, step: Step)
    requires Inv(w, t) && Enabled(w, step)
    ensures Inv(Apply(w, t, step), t)
  {
  }

  lemma {:induction false} RunInv(w: World, t: Triggers, steps: seq<Step>)
    requires Inv(w, t) && Runnable(w, t, steps)
    ensures Inv(Run(w, t, steps), t)
    decreases |steps|
  {
    if steps != [] {
      StepInv(w, t, steps[0]);
      RunInv(Apply(w, t, steps[0]), t, steps[1..]);
    }
  }

  /** No trigger is lost: once enough captures are counted, a run is requested or in progress,
      unless the context is closing. */
  lemma TriggerIsNotLost(now: int, t: Triggers, steps: seq<Step>)
    requires Runnable(Begin(now), t, steps) && t.captures > 0
    ensures var s := Run(Begin(now), t, steps).s;
            s.schedule.committed >= t.captures ==> s.requested || s.phase == Running || s.stop
  {
    RunInv(Begin(now), t, steps);
  }

  /** The bound of the coalesced trigger: with nothing requested, running or stopping, at most
      2 * T - 2 counted captures, and one still to be counted, were committed since the last run
      began to scan. */
  lemma CoalescedBound(now: int, t: Triggers, steps: seq<Step>)
    requires Runnable(Begin(now), t, steps) && t.captures > 0
    ensures var w := Run(Begin(now), t, steps);
            Quiet(w) ==> w.sinceStart <= 2 * t.captures - 2 + Uncounted(w)
  {
    RunInv(Begin(now), t, steps);
  }

  // ----- when a run is requested and when it starts --------------------------------------------------

  /** The scheduler remembers when the last run ended and what was counted since. */
  ghost predicate Remembers(w: World) {
    w.s.schedule == Schedule(w.lastEnd, w.counted)
  }

  lemma {:induction false} RunRemembers(w: World, t: Triggers, steps: seq<Step>)
    requires Remembers(w) && Runnable(w, t, steps)
    ensures Remembers(Run(w, t, steps))
    decreases |steps|
  {
    if steps != [] {
      RunRemembers(Apply(w, t, steps[0]), t, steps[1..]);
    }
  }

  /** In every run, the schedule step of an inspection requests a run exactly if at least the time
      of the time trigger has passed since the last run ended, or it counts a capture that makes
      the number counted since then reach a capture trigger that is not zero; a request that is
      already pending stays. */
  lemma RequestedExactly(start: int, t: Triggers, steps: seq<Step>, now: int)
    requires Runnable(Begin(start), t, steps) && Enabled(Run(Begin(start), t, steps), Scheduled(now))
    ensures var w := Run(Begin(start), t, steps);
            var v := Apply(w, t, Scheduled(now));
            && (v.s.requested <==>
                  || w.s.requested || now - w.lastEnd >= t.time
                  || (w.open && t.captures > 0 && w.counted + 1 >= t.captures))
            && v.s.stop == w.s.stop && v.s.phase == w.s.phase && !v.open
  {
    RunRemembers(Begin(start), t, steps);
  }

  /** In every run, the maintenance thread at its loop head starts a run exactly if no stop was
      requested and a run is requested or the time has passed; the start takes the request, a
      stop makes the thread return, and otherwise it waits. */
  lemma StartsExactly(start: int, t: Triggers, steps: seq<Step>, now: int)
    requires Runnable(Begin(start), t, steps) && Enabled(Run(Begin(start), t, steps), Iterate(now))
    ensures var w := Run(Begin(start), t, steps);
            var v := Apply(w, t, Iterate(now));
            var starts := !w.s.stop && (w.s.requested || now - w.lastEnd >= t.time);
            && (v.s.phase == Running <==> starts) && (v.s.phase == Returned <==> w.s.stop)
            && v.runs == (if starts then w.runs + 1 else w.runs)
            && v.s.requested == (if starts then false else w.s.requested)
  {
    RunRemembers(Begin(start), t, steps);
  }

  // ----- the bound is sharp --------------------------------------------------------------------------

  lemma {:induction false} RunConcat(w: World, t: Triggers, a: seq<Step>, b: seq<Step>)
    requires Runnable(w, t, a) && Runnable(Run(w, t, a), t, b)
    ensures Runnable(w, t, a + b) && Run(w, t, a + b) == Run(Run(w, t, a), t, b)
    decreases |a|
  {
    if a == [] {
      assert a + b == b;
    } else {
      assert (a + b)[1..] == a[1..] + b;
      RunConcat(Apply(w, t, a[0]), t, a[1..], b);
    }
  }

  /** `n` captures, each counted before the next. */
  function Captures(n: nat, now: int): seq<Step> {
    if n == 0 then [] else [Committed, Scheduled(now)] + Captures(n - 1, now)
  }

  lemma {:induction false} CapturesRun(w: World, t: Triggers, n: nat)
    requires !w.open && !IsDue(w.s.schedule, t, w.now)
    ensures Runnable(w, t, Captures(n, w.now))
    ensures var r := Run(w, t, Captures(n, w.now));
            var count := w.s.schedule.committed + n;
            r == w.(sinceStart := w.sinceStart + n, counted := w.counted + n,
                    s := w.s.(schedule := Schedule(w.s.schedule.lastRun, count),
                              requested := w.s.requested || (n > 0 && t.captures != 0 && count >= t.captures)))
    decreases n
  {
    if n > 0 {
      var steps := Captures(n, w.now);
      var v := Apply(w, t, Committed);
      assert steps[1..] == [Scheduled(w.now)] + Captures(n - 1, w.now);
      assert steps[1..][1..] == Captures(n - 1, w.now);
      CapturesRun(Apply(v, t, Scheduled(w.now)), t, n - 1);
    }
  }

  lemma OneStep(w: World, t: Triggers, steps: seq<Step>, step: Step)
    requires Runnable(w, t, steps) && Enabled(Run(w, t, steps), step)
    ensures Runnable(w, t, steps + [step]) && Run(w, t, steps + [step]) == Apply(Run(w, t, steps), t, step)
  {
    assert [step][1..] == [];
    RunConcat(w, t, steps, [step]);
  }

  /** A request made during a run starts another one with an empty counter, during which and
      after which T - 1 captures can be counted, and one more be committed. */
  lemma ReachBound(t: Triggers) returns (counted: seq<Step>, uncounted: seq<Step>)
    requires t.captures > 0 && t.time > 0
    ensures Runnable(Begin(0), t, counted) && Quiet(Run(Begin(0), t, counted))
    ensures var w := Run(Begin(0), t, counted); !w.open && w.sinceStart == 2 * t.captures - 2
    ensures Runnable(Begin(0), t, uncounted) && Quiet(Run(Begin(0), t, uncounted))
    ensures var w := Run(Begin(0), t, uncounted); w.open && w.sinceStart == 2 * t.captures - 1
  {
    var T, w := t.captures, Begin(0);
    var steps := SecondRun(t);
    CapturesRun(Run(w, t, steps), t, T - 1);
    RunConcat(w, t, steps, Captures(T - 1, 0));
    steps := steps + Captures(T - 1, 0);
    OneStep(w, t, steps, Complete(0));
    steps := steps + [Complete(0)];
    CapturesRun(Run(w, t, steps), t, T - 1);
    RunConcat(w, t, steps, Captures(T - 1, 0));
    counted := steps + Captures(T - 1, 0);
    OneStep(w, t, counted, Committed);
    uncounted := counted + [Committed];
  }

  lemma SecondRun(t: Triggers) returns (steps: seq<Step>)
    requires t.captures > 0 && t.time > 0
    ensures Runnable(Begin(0), t, steps)
    ensures Run(Begin(0), t, steps) == World(State(Schedule(0, 0), false, false, Running), 0, false, 2, 0, 0, 0)
  {
    var w := Begin(0);
    CapturesRun(w, t, t.captures);
    steps := Captures(t.captures, 0);
    OneStep(w, t, steps, Iterate(0));
    steps := steps + [Iterate(0)];
    OneStep(w, t, steps, Committed);
    steps := steps + [Committed];
    OneStep(w, t, steps, Scheduled(0));
    steps := steps + [Scheduled(0)];
    OneStep(w, t, steps, Complete(0));
    steps := steps + [Complete(0)];
    OneStep(w, t, steps, Iterate(0));
    steps := steps + [Iterate(0)];
  }

  /** With a time trigger of zero every inspection requests a run. */
  ghost predicate AlwaysDueInv(w: World) {
    && w.s.schedule.lastRun <= w.now
    && (!w.s.requested && !w.s.stop ==> w.sinceStart <= Uncounted(w))
  }

  lemma {:induction false} AlwaysDue(w: World, t: Triggers, steps: seq<Step>)
    requires t.time == 0 && AlwaysDueInv(w) && Runnable(w, t, steps)
    ensures AlwaysDueInv(Run(w, t, steps))
    decreases |steps|
  {
    if steps != [] {
      AlwaysDue(Apply(w, t, steps[0]), t, steps[1..]);
    }
  }

  ghost predicate Reaches(t: Triggers, steps: seq<Step>) {
    && Runnable(Begin(0), t, steps)
    && Quiet(Run(Begin(0), t, steps))
    && Run(Begin(0), t, steps).sinceStart == 2 * t.captures - 1
  }

  /** The bound is reached unless the time trigger is zero and the capture trigger is not one. */
  lemma BoundIsReached(t: Triggers)
    requires t.captures > 0
    ensures (exists steps :: Reaches(t, steps)) <==> t.time > 0 || t.captures == 1
  {
    if t.time > 0 {
      var counted, uncounted := ReachBound(t);
      assert Reaches(t, uncounted);
    } else {
      if steps :| Reaches(t, steps) {
        AlwaysDue(Begin(0), t, steps);
      }
      if t.captures == 1 {
        OneStep(Begin(0), t, [], Committed);
        assert [] + [Committed] == [Committed];
        assert Reaches(t, [Committed]);
      }
    }
  }

  /** No run starts after stopping was requested, and once the thread came to its loop head it
      returns. */
  lemma {:induction false} NoRunAfterStop(w: World, t: Triggers, steps: seq<Step>)
    requires w.s.stop && Runnable(w, t, steps)
    ensures var r := Run(w, t, steps);
            && r.s.stop && r.runs == w.runs
            && (w.s.phase == Returned ==> r.s.phase == Returned)
            && (w.s.phase == AtLoop ==> r.s.phase != Running)
    decreases |steps|
  {
    if steps != [] {
      NoRunAfterStop(Apply(w, t, steps[0]), t, steps[1..]);
    }
  }
}
