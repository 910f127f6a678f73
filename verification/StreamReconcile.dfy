/** Single-flight coalescing of integration-stream reconciles (src/index.ts:291-328). */
module StreamReconcile {
  import opened Seqs

  /**
   * `inFlight` is whether `streamReconcilePromise` is set. The async loops
   * started so far that have not finished are either awaiting a pass or have
   * ended, well (`endedOk`) or not (`endedBad`), with their `finally` still to run.
   */
  datatype State = State(
    pending: bool, inFlight: bool, timer: bool, shuttingDown: bool,
    awaitingPass: nat, endedOk: nat, endedBad: nat)

  const START := State(false, false, false, false, 0, 0, 0)

  datatype Step =
    | Request        // reconcileIntegrationStreams() is called
    | Schedule       // scheduleStreamReconcile() is called
    | TimerFires
    | PassOk         // an awaited pass resolves
    | PassThrows     // an awaited pass rejects
    | FinallyOk      // the `finally` callback of a loop that ended well runs
    | FinallyBad     // the `finally` callback of a loop that threw runs
    | Shutdown

  /** The loop's guard, and the synchronous start of a pass when it holds. */
  function LoopTurn(st: State): State {
    if st.pending && !st.shuttingDown then st.(pending := false, awaitingPass := st.awaitingPass + 1)
    else st.(endedOk := st.endedOk + 1)
  }

  function Requested(st: State): State {
    if st.shuttingDown then st
    else if st.inFlight then st.(pending := true)
    else LoopTurn(st.(pending := true, inFlight := true))
  }

  function Finished(st: State): State {
    var settled := st.(inFlight := false);
    if settled.pending && !settled.shuttingDown then Requested(settled) else settled
  }

  predicate Enabled(st: State, step: Step) {
    match step
    case TimerFires => st.timer
    case PassOk => st.awaitingPass > 0
    case PassThrows => st.awaitingPass > 0
    case FinallyOk => st.endedOk > 0
    case FinallyBad => st.endedBad > 0
    case _ => true
  }

  function Taken(st: State, step: Step): State
    requires Enabled(st, step)
  {
    match step
    case Request => Requested(st)
    case Schedule => if st.shuttingDown || st.timer then st else st.(timer := true)
    case TimerFires => Requested(st.(timer := false))
    case PassOk => LoopTurn(st.(awaitingPass := st.awaitingPass - 1))
    case PassThrows => st.(awaitingPass := st.awaitingPass - 1, endedBad := st.endedBad + 1)
    case FinallyOk => Finished(st.(endedOk := st.endedOk - 1))
    case FinallyBad => Finished(st.(endedBad := st.endedBad - 1))
    case Shutdown => if st.shuttingDown then st else st.(shuttingDown := true, timer := false)
  }

  /** One step; a step that cannot happen changes nothing. */
  function Next(st: State, step: Step): State {
    if Enabled(st, step) then Taken(st, step) else st
  }

  /** The variables and closures of the bootstrap function that take part. */
  class Reconciler {
    var streamReconcilePending: bool
    var streamReconcilePromise: bool
    var streamReconcileTimer: bool
    var shuttingDown: bool
    ghost var awaitingPass: nat
    ghost var endedOk: nat
    ghost var endedBad: nat

    ghost function Abs(): State
      reads this
    {
      State(streamReconcilePending, streamReconcilePromise, streamReconcileTimer, shuttingDown, awaitingPass, endedOk, endedBad)
    }

    constructor ()
      ensures Abs() == START
    {
      streamReconcilePending, streamReconcilePromise, streamReconcileTimer, shuttingDown := false, false, false, false;
      awaitingPass, endedOk, endedBad := 0, 0, 0;
    }

    /** Runs until the loop awaits a pass (`true`) or ends. */
    method RunLoop() returns (passStarted: bool)
      modifies this
      ensures Abs() == LoopTurn(old(Abs()))
      ensures passStarted <==> old(streamReconcilePending && !shuttingDown)
    {
      passStarted := streamReconcilePending && !shuttingDown;
      if passStarted {
        streamReconcilePending := false;
        awaitingPass := awaitingPass + 1;
      } else {
        endedOk := endedOk + 1;
      }
    }

    method ReconcileIntegrationStreams() returns (passStarted: bool)
      modifies this
      ensures Abs() == Requested(old(Abs()))
      ensures passStarted <==> old(!shuttingDown && !streamReconcilePromise)
    {
      if shuttingDown {
        return false;
      }
      streamReconcilePending := true;
      if streamReconcilePromise {
        return false;
      }
      streamReconcilePromise := true;
      passStarted := RunLoop();
    }

    method PassResolved() returns (passStarted: bool)
      requires awaitingPass > 0
      modifies this
      ensures Abs() == Next(old(Abs()), PassOk)
    {
      awaitingPass := awaitingPass - 1;
      passStarted := RunLoop();
    }

    method PassRejected()
      requires awaitingPass > 0
      modifies this
      ensures Abs() == Next(old(Abs()), PassThrows)
    {
      awaitingPass, endedBad := awaitingPass - 1, endedBad + 1;
    }

    method Finally(ghost ok: bool) returns (passStarted: bool)
      requires if ok then endedOk > 0 else endedBad > 0
      modifies this
      ensures Abs() == Next(old(Abs()), if ok then FinallyOk else FinallyBad)
    {
      if ok {
        endedOk := endedOk - 1;
      } else {
        endedBad := endedBad - 1;
      }
      streamReconcilePromise := false;
      passStarted := false;
      if streamReconcilePending && !shuttingDown {
        passStarted := ReconcileIntegrationStreams();
      }
    }

    method ScheduleStreamReconcile()
      modifies this
      ensures Abs() == Next(old(Abs()), Schedule)
    {
      if shuttingDown || streamReconcileTimer {
        return;
      }
      streamReconcileTimer := true;
    }

    method TimerFired() returns (passStarted: bool)
      requires streamReconcileTimer
      modifies this
      ensures Abs() == Next(old(Abs()), TimerFires)
    {
      streamReconcileTimer := false;
      passStarted := ReconcileIntegrationStreams();
    }

    method ShutDown()
      modifies this
      ensures Abs() == Next(old(Abs()), Shutdown)
    {
      if shuttingDown {
        return;
      }
      shuttingDown := true;
      streamReconcileTimer := false;
    }
  }

  // ---------------------------------------------------------------------------
  // Runs
  // ---------------------------------------------------------------------------

  function From(st: State, steps: seq<Step>): State {
    if steps == [] then st else Next(From(st, steps[..|steps| - 1]), steps[|steps| - 1])
  }

  function Run(steps: seq<Step>): State {
    From(START, steps)
  }

  lemma FromPush(st: State, steps: seq<Step>, step: Step)
    ensures From(st, steps + [step]) == Next(From(st, steps), step)
  {
    InitOfPush(steps, step);
  }

  /** Whether a step starts a pass, which reads the demand at once. */
  predicate Begins(st: State, step: Step) {
    Enabled(st, step) && Next(st, step).awaitingPass > st.awaitingPass - (if step == PassOk || step == PassThrows then 1 else 0)
  }

  predicate Accepts(st: State, step: Step) {
    !st.shuttingDown && (step == Request || (step == TimerFires && st.timer))
  }

  /** At most one loop is alive, and the promise is set exactly while one is. */
  predicate SingleFlight(st: State) {
    && st.awaitingPass + st.endedOk + st.endedBad == (if st.inFlight then 1 else 0)
    && (st.pending && !st.inFlight ==> st.shuttingDown)
    && (st.timer ==> !st.shuttingDown)
  }

  lemma NextKeepsSingleFlight(st: State, step: Step)
    requires SingleFlight(st)
    ensures SingleFlight(Next(st, step))
  {
  }

  lemma {:induction false} NeverOverlaps(steps: seq<Step>)
    ensures SingleFlight(Run(steps)) && Run(steps).awaitingPass <= 1
  {
    if steps != [] {
      NeverOverlaps(steps[..|steps| - 1]);
      NextKeepsSingleFlight(Run(steps[..|steps| - 1]), steps[|steps| - 1]);
    }
  }

  function Passes(steps: seq<Step>): nat {
    if steps == [] then 0
    else Passes(steps[..|steps| - 1]) + if Begins(Run(steps[..|steps| - 1]), steps[|steps| - 1]) then 1 else 0
  }

  function Requests(steps: seq<Step>): nat {
    if steps == [] then 0
    else Requests(steps[..|steps| - 1]) + if Accepts(Run(steps[..|steps| - 1]), steps[|steps| - 1]) then 1 else 0
  }

  /** What one step does to the pending flag. */
  lemma StepPending(st: State, step: Step)
    requires SingleFlight(st)
    ensures Next(st, step).pending <==> (st.pending || Accepts(st, step)) && !Begins(st, step)
    ensures Begins(st, step) ==> st.pending || Accepts(st, step)
    ensures Begins(st, step) && st.pending ==> !Accepts(st, step)
    ensures st.shuttingDown ==> !Begins(st, step) && Next(st, step).shuttingDown
  {
  }

  /** Every pass is paid for by a request of its own. */
  lemma {:induction false} PassesNeverOutnumberRequests(steps: seq<Step>)
    ensures Passes(steps) + (if Run(steps).pending then 1 else 0) <= Requests(steps)
  {
    if steps != [] {
      PassesNeverOutnumberRequests(steps[..|steps| - 1]);
      NeverOverlaps(steps[..|steps| - 1]);
      StepPending(Run(steps[..|steps| - 1]), steps[|steps| - 1]);
    }
  }

  function Demands(): Step -> bool {
    (step: Step) => step.Request? || step.TimerFires?
  }

  /** Passes are paid for by calls and timers that came. */
  lemma {:induction false} RequestsAreSteps(steps: seq<Step>)
    ensures Requests(steps) <= |Filter(Demands(), steps)|
    ensures Passes(steps) <= |Filter(Demands(), steps)|
  {
    PassesNeverOutnumberRequests(steps);
    if steps != [] {
      RequestsAreSteps(steps[..|steps| - 1]);
    }
  }

  lemma {:induction false} NoPassAfterShutdown(before: seq<Step>, after: seq<Step>)
    requires Run(before).shuttingDown
    ensures Run(before + after).shuttingDown && Passes(before + after) == Passes(before)
    decreases |after|
  {
    if after == [] {
      AppendNothing(before);
    } else {
      var front, step := after[..|after| - 1], after[|after| - 1];
      NoPassAfterShutdown(before, front);
      PushRun(before, after);
      NeverOverlaps(before + front);
      StepPending(Run(before + front), step);
    }
  }

  lemma PushRun(before: seq<Step>, after: seq<Step>)
    requires after != []
    ensures var s := before + after;
            s != [] && s[..|s| - 1] == before + after[..|after| - 1] && s[|s| - 1] == after[|after| - 1]
  {
  }

  // ---------------------------------------------------------------------------
  // Every accepted request is followed by a pass
  // ---------------------------------------------------------------------------

  /** Some accepted request has not been followed by the start of a pass yet. */
  predicate Unserved(steps: seq<Step>) {
    steps != [] &&
      var front, step := steps[..|steps| - 1], steps[|steps| - 1];
      (Unserved(front) || Accepts(Run(front), step)) && !Begins(Run(front), step)
  }

  lemma {:induction false} PendingMeansUnserved(steps: seq<Step>)
    ensures Unserved(steps) <==> Run(steps).pending
  {
    if steps != [] {
      PendingMeansUnserved(steps[..|steps| - 1]);
      NeverOverlaps(steps[..|steps| - 1]);
      StepPending(Run(steps[..|steps| - 1]), steps[|steps| - 1]);
    }
  }

  /** While a request is unserved, a loop that will see it is alive, unless shutting down. */
  lemma UnservedMeansInFlight(steps: seq<Step>)
    requires Unserved(steps) && !Run(steps).shuttingDown
    ensures Run(steps).pending && Run(steps).inFlight
  {
    PendingMeansUnserved(steps);
    NeverOverlaps(steps);
  }

  predicate Internal(step: Step) {
    step.PassOk? || step.PassThrows? || step.FinallyOk? || step.FinallyBad?
  }

  lemma InternalStepExists(st: State)
    requires SingleFlight(st) && st.inFlight
    ensures exists step :: Internal(step) && Enabled(st, step)
  {
    if st.awaitingPass > 0 {
      assert Internal(PassOk) && Enabled(st, PassOk);
    } else if st.endedOk > 0 {
      assert Internal(FinallyOk) && Enabled(st, FinallyOk);
    } else {
      assert Internal(FinallyBad) && Enabled(st, FinallyBad);
    }
  }

  /** How many of these steps are passes settling or callbacks running. */
  function Settled(st: State, steps: seq<Step>): nat {
    if steps == [] then 0
    else
      var front, step := steps[..|steps| - 1], steps[|steps| - 1];
      Settled(st, front) + if Internal(step) && Enabled(From(st, front), step) then 1 else 0
  }

  predicate NoShutdown(steps: seq<Step>) {
    steps == [] || (NoShutdown(steps[..|steps| - 1]) && !steps[|steps| - 1].Shutdown?)
  }

  /** A request waits for a pass, and how many steps may settle before one begins. */
  predicate Waiting(st: State, left: nat) {
    SingleFlight(st) && st.pending && !st.shuttingDown && st.inFlight && 2 * st.awaitingPass + st.endedOk + st.endedBad == left
  }

  lemma WaitingMeans(st: State, left: nat)
    requires Waiting(st, left)
    ensures SingleFlight(st) && st.inFlight && left <= 2
  {
  }

  lemma WaitingStep(st: State, step: Step, left: nat)
    requires Waiting(st, left) && !step.Shutdown? && !Begins(st, step)
    ensures left <= 2
    ensures if Internal(step) && Enabled(st, step) then left == 2 && Waiting(Next(st, step), 1) else Waiting(Next(st, step), left)
  {
  }

  /** Whether a step of these starts a pass. */
  predicate PassBegins(st: State, steps: seq<Step>) {
    steps != [] && (PassBegins(st, steps[..|steps| - 1]) || Begins(From(st, steps[..|steps| - 1]), steps[|steps| - 1]))
  }

  lemma {:induction false} StillWaiting(st: State, steps: seq<Step>, left: nat)
    requires Waiting(st, left) && NoShutdown(steps) && !PassBegins(st, steps)
    ensures left <= 2 && Settled(st, steps) < left && Waiting(From(st, steps), left - Settled(st, steps))
  {
    if steps == [] {
      WaitingMeans(st, left);
    } else {
      var front, step := steps[..|steps| - 1], steps[|steps| - 1];
      StillWaiting(st, front, left);
      hide Waiting, Next, Begins, Enabled, Internal;
      WaitingStep(From(st, front), step, left - Settled(st, front));
    }
  }

  lemma {:induction false} PassesAfter(before: seq<Step>, after: seq<Step>)
    ensures Run(before + after) == From(Run(before), after)
    ensures Passes(before + after) >= Passes(before)
    ensures Passes(before + after) == Passes(before) <==> !PassBegins(Run(before), after)
    decreases |after|
  {
    if after == [] {
      AppendNothing(before);
    } else {
      PassesAfter(before, after[..|after| - 1]);
      PushRun(before, after);
      hide Next, Begins;
    }
  }

  /**
   * While an accepted request has not been followed by a pass, some step is there to settle; and of any continuation
   * without a shutdown, whatever further requests and timers it holds, two settled steps are enough for a pass to begin.
   */
  lemma EveryRequestIsServed(before: seq<Step>, after: seq<Step>)
    requires Unserved(before) && !Run(before).shuttingDown && NoShutdown(after)
    ensures Settled(Run(before), after) >= 2 ==> Passes(before + after) > Passes(before)
    ensures Passes(before + after) == Passes(before) ==> exists step :: Internal(step) && Enabled(Run(before + after), step)
  {
    UnservedMeansInFlight(before);
    NeverOverlaps(before);
    PassesAfter(before, after);
    ServedFrom(Run(before), after);
    hide *;
  }

  lemma ServedFrom(st: State, steps: seq<Step>)
    requires SingleFlight(st) && st.pending && st.inFlight && !st.shuttingDown && NoShutdown(steps)
    ensures Settled(st, steps) >= 2 ==> PassBegins(st, steps)
    ensures !PassBegins(st, steps) ==> exists step :: Internal(step) && Enabled(From(st, steps), step)
  {
    var left := 2 * st.awaitingPass + st.endedOk + st.endedBad;
    assert Waiting(st, left);
    hide *;
    if !PassBegins(st, steps) {
      StillWaiting(st, steps, left);
      WaitingMeans(From(st, steps), left - Settled(st, steps));
      InternalStepExists(From(st, steps));
    }
  }

  /** Two are needed: a pass that throws, and then the `finally` that starts the next one. */
  lemma TwoStepsAreNeeded()
    ensures var before := [] + [Request] + [Request];
            && Unserved(before) && !Run(before).shuttingDown
            && Settled(Run(before), [] + [PassThrows]) == 1
            && Passes(before + [PassThrows]) == Passes(before)
  {
    FromPush(START, [], Request);
    FromPush(START, [] + [Request], Request);
    PendingMeansUnserved([] + [Request] + [Request]);
    InitOfPush([] + [Request] + [Request], PassThrows);
    InitOfPush([], PassThrows);
  }

  // ---------------------------------------------------------------------------
  // What awaiting the returned promise means
  // ---------------------------------------------------------------------------

  /** How far a pass that began after the watched request has come; `Abandoned` when a shutdown came before it began. */
  datatype Watch = NotBegun | Begun | Done | Abandoned

  function Watched(st: State, w: Watch, step: Step): Watch {
    if w.NotBegun? && Begins(st, step) then Begun
    else if w.NotBegun? && step.Shutdown? then Abandoned
    else if w.Begun? && step.PassOk? && Enabled(st, step) then Done
    else w
  }

  function WatchFrom(st: State, w: Watch, steps: seq<Step>): Watch {
    if steps == [] then w
    else Watched(From(st, steps[..|steps| - 1]), WatchFrom(st, w, steps[..|steps| - 1]), steps[|steps| - 1])
  }

  /** Steps before the promise settles. */
  predicate Unsettled(steps: seq<Step>) {
    steps == [] || (
      && Unsettled(steps[..|steps| - 1])
      && var step := steps[|steps| - 1]; !step.FinallyOk? && !step.FinallyBad?)
  }

  /** The watch on a request made in `st`, over the steps that follow it. */
  function Watching(st: State, steps: seq<Step>): Watch {
    WatchFrom(Next(st, Request), if Begins(st, Request) then Begun else NotBegun, steps)
  }

  predicate WatchState(st: State, now: State, w: Watch) {
    && SingleFlight(now) && now.inFlight && (w.NotBegun? ==> !now.shuttingDown) && (w.Abandoned? ==> now.shuttingDown)
    && if st.endedOk + st.endedBad > 0 then
         (w.NotBegun? || w.Abandoned?) && now.endedOk == st.endedOk && now.endedBad == st.endedBad
       else
         (w.NotBegun? ==> now.pending && now.endedOk == 0) && (now.endedOk > 0 ==> w.Done? || w.Abandoned?)
  }

  lemma WatchStep(st: State, now: State, w: Watch, step: Step)
    requires WatchState(st, now, w) && !step.FinallyOk? && !step.FinallyBad?
    ensures WatchState(st, Next(now, step), Watched(now, w, step))
  {
  }

  lemma {:induction false} WatchInvariant(st: State, steps: seq<Step>)
    requires SingleFlight(st) && !st.shuttingDown && Unsettled(steps)
    ensures WatchState(st, From(Next(st, Request), steps), Watching(st, steps))
  {
    if steps != [] {
      var front := steps[..|steps| - 1];
      WatchInvariant(st, front);
      WatchStep(st, From(Next(st, Request), front), Watching(st, front), steps[|steps| - 1]);
      hide WatchState, Next, Begins, Enabled;
    }
  }

  /**
   * When the promise a request returned is about to be fulfilled, a pass begun after that request has completed, exactly
   * if the request did not land between the loop's end and its `finally` and no shutdown came before its pass began.
   */
  lemma FulfilledMeansServed(before: seq<Step>, steps: seq<Step>)
    requires !Run(before).shuttingDown && Unsettled(steps)
    requires From(Next(Run(before), Request), steps).endedOk > 0
    ensures Watching(Run(before), steps).Done? <==> Run(before).endedOk == 0 && !Watching(Run(before), steps).Abandoned?
  {
    NeverOverlaps(before);
    WatchInvariant(Run(before), steps);
  }

  /** The window is reachable: a request between loop exit and `finally` awaits no pass of its own. */
  lemma ExitWindowIsReachable()
    ensures var before := [] + [Request] + [PassOk];
            !Run(before).shuttingDown && Run(before).endedOk > 0 && Watching(Run(before), []).NotBegun?
  {
    FromPush(START, [], Request);
    FromPush(START, [] + [Request], PassOk);
  }

  // ---------------------------------------------------------------------------
  // Scheduled requests
  // ---------------------------------------------------------------------------

  /** Some schedule has not been followed by its timer yet. */
  ghost predicate Outstanding(steps: seq<Step>) {
    exists i :: 0 <= i < |steps| && steps[i].Schedule? && forall j :: i < j < |steps| ==> !steps[j].TimerFires?
  }

  ghost predicate ShutdownIn(steps: seq<Step>) {
    exists i :: 0 <= i < |steps| && steps[i].Shutdown?
  }

  lemma OutstandingPush(steps: seq<Step>)
    requires steps != []
    ensures var front, last := steps[..|steps| - 1], steps[|steps| - 1];
            Outstanding(steps) <==> last.Schedule? || (Outstanding(front) && !last.TimerFires?)
  {
    var front, last, n := steps[..|steps| - 1], steps[|steps| - 1], |steps| - 1;
    assert forall j :: 0 <= j < n ==> front[j] == steps[j];
    if last.Schedule? {
      assert steps[n].Schedule?;
    } else {
      if Outstanding(front) && !last.TimerFires? {
        var i :| 0 <= i < |front| && front[i].Schedule? && forall j :: i < j < |front| ==> !front[j].TimerFires?;
        assert steps[i].Schedule?;
      }
      if Outstanding(steps) {
        var i :| 0 <= i < |steps| && steps[i].Schedule? && forall j :: i < j < |steps| ==> !steps[j].TimerFires?;
        assert i < n && front[i].Schedule? && !steps[n].TimerFires?;
      }
    }
  }

  lemma ShutdownPush(steps: seq<Step>)
    requires steps != []
    ensures ShutdownIn(steps) <==> steps[|steps| - 1].Shutdown? || ShutdownIn(steps[..|steps| - 1])
  {
    var front, n := steps[..|steps| - 1], |steps| - 1;
    if steps[n].Shutdown? {
      assert ShutdownIn(steps);
    }
    if i :| 0 <= i < |front| && front[i].Shutdown? {
      assert steps[i].Shutdown?;
    }
    if i :| 0 <= i < |steps| && steps[i].Shutdown? {
      assert i < n ==> front[i].Shutdown?;
    }
  }

  /** In every run the timer is armed exactly while a schedule is outstanding and no shutdown came; shutting down is final. */
  lemma {:induction false} TimerArmedExactly(steps: seq<Step>)
    ensures Run(steps).timer <==> Outstanding(steps) && !ShutdownIn(steps)
    ensures Run(steps).shuttingDown <==> ShutdownIn(steps)
  {
    if steps != [] {
      var front, last := steps[..|steps| - 1], steps[|steps| - 1];
      TimerArmedExactly(front);
      OutstandingPush(steps);
      ShutdownPush(steps);
      hide Outstanding, ShutdownIn;
      TimerStep(Run(front), last);
    }
  }

  lemma TimerStep(st: State, step: Step)
    requires st.timer ==> !st.shuttingDown
    ensures Next(st, step).timer <==> !st.shuttingDown && !step.Shutdown? && (step.Schedule? || (st.timer && !step.TimerFires?))
    ensures Next(st, step).shuttingDown <==> st.shuttingDown || step.Shutdown?
  {
  }

  /**
   * The timer of an outstanding schedule can fire before a shutdown, and then a
   * pass begins: at once, or within two settled steps of any continuation
   * without a shutdown.
   */
  lemma ScheduledIsServed(before: seq<Step>, after: seq<Step>)
    requires Outstanding(before) && !ShutdownIn(before) && NoShutdown(after)
    ensures Enabled(Run(before), TimerFires)
    ensures var fired := before + [TimerFires];
            || Passes(fired) > Passes(before)
            || (Unserved(fired) && (Settled(Run(fired), after) >= 2 ==> Passes(fired + after) > Passes(before)))
  {
    TimerArmedExactly(before);
    NeverOverlaps(before);
    var fired := before + [TimerFires];
    InitOfPush(before, TimerFires);
    if !Begins(Run(before), TimerFires) {
      FiredStep(Run(before));
      assert Unserved(fired) && !Run(fired).shuttingDown && Passes(fired) == Passes(before);
      EveryRequestIsServed(fired, after);
    }
  }

  lemma FiredStep(st: State)
    requires st.timer && !st.shuttingDown
    ensures Accepts(st, TimerFires) && !Next(st, TimerFires).shuttingDown
  {
  }
}
