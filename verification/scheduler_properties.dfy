/**
 * What the scheduler of src/workflow/workflow-factory.ts guarantees, stated
 * over the snapshot function `Scheduler.Next` and over runs of it.
 */
module SchedulerProperties {
  import opened Wrappers
  import opened StepMachine
  import opened RefIds
  import opened Graph
  import opened Scheduler

  // ---------------------------------------------------------------------
  // The START sweep of handleStepComplete
  // ---------------------------------------------------------------------

  /** START to a list of actors unlocks those still in `initial` and changes nothing else. */
  lemma {:induction false} StartSweepUnlocks(ctx: StepContext, actors: map<string, StepState>, ids: seq<string>)
    ensures StartSweep(ctx, actors, ids) == Unlocked(actors, ids)
    decreases |ids|
  {
    if ids != [] {
      var init, last := ids[..|ids| - 1], ids[|ids| - 1];
      StartSweepUnlocks(ctx, actors, init);
      var m := Unlocked(actors, init);
      var r := StartSweep(ctx, actors, ids);
      assert r == Deliver(ctx, m, last, START).actors;
      assert KeysOf(ids) == KeysOf(init) + {StepRefId(last)} by {
        assert forall i :: 0 <= i < |init| ==> init[i] == ids[i];
      }
      forall k | k in actors
        ensures r[k] == Unlocked(actors, ids)[k]
      {
        if k == StepRefId(last) {
          StartOnlyUnlocksInitial(ctx, last, m[k]);
        }
      }
    }
  }

  /** The second START of handleStepComplete, sent once the first has arrived, changes nothing. */
  lemma StartSweepIdempotent(ctx: StepContext, actors: map<string, StepState>, ids: seq<string>)
    ensures StartSweep(ctx, StartSweep(ctx, actors, ids), ids) == StartSweep(ctx, actors, ids)
  {
    var once := StartSweep(ctx, actors, ids);
    StartSweepUnlocks(ctx, actors, ids);
    StartSweepUnlocks(ctx, once, ids);
    forall k | k in once
      ensures Unlocked(once, ids)[k] == once[k]
    {
    }
  }

  // ---------------------------------------------------------------------
  // Creation and the snapshot invariant
  // ---------------------------------------------------------------------

  /** After `initial` and `start`: `idle`, at step 0, not running, the first step's actor `ready` and every other one `initial`. */
  lemma StartState(steps: seq<StepDefinition>, ctx: StepContext)
    ensures SnapshotOk(steps, Start(steps, ctx))
    ensures Start(steps, ctx).phase == Idle && Start(steps, ctx).currentStepIndex == 0
    ensures steps != [] ==> Start(steps, ctx).actors[StepRefId(steps[0].id)] == Ready
    ensures forall k :: k in Start(steps, ctx).actors && (steps == [] || k != StepRefId(steps[0].id)) ==>
              Start(steps, ctx).actors[k] == Initial
  {
    if steps != [] {
      assert StepRefId(steps[0].id) in InitialActors(steps);
    }
  }

  /** Every input keeps the snapshot invariant: the actor set never changes, and the running index is -1 exactly in `idle`. */
  lemma NextPreservesOk(steps: seq<StepDefinition>, ctx: StepContext, s: Snapshot, input: Input)
    requires SnapshotOk(steps, s)
    ensures SnapshotOk(steps, Next(steps, ctx, s, input))
  {
    match input
    case RUN =>
      EnterQueueOk(steps, ctx, s.(runningStepIndex := -1));
    case NOTIFY(note) =>
      OnNotificationOk(steps, ctx, s, note);
    case STEP_EVENT(id, e) =>
      var d := Deliver(ctx, s.actors, id, e);
      if d.note.Some? {
        OnNotificationOk(steps, ctx, s.(actors := d.actors), d.note.value);
      }
    case _ =>
  }

  /** `queue` and `process` keep the actor set, and leave the scheduler running at a valid index or idle at -1. */
  lemma EnterQueueOk(steps: seq<StepDefinition>, ctx: StepContext, s: Snapshot)
    requires s.actors.Keys == RefKeys(steps) && s.runningStepIndex >= -1
    ensures SnapshotOk(steps, EnterQueue(steps, ctx, s))
  {
  }

  /** A notification keeps the snapshot invariant. */
  lemma OnNotificationOk(steps: seq<StepDefinition>, ctx: StepContext, s: Snapshot, note: Notification)
    requires SnapshotOk(steps, s)
    ensures SnapshotOk(steps, OnNotification(steps, ctx, s, note))
  {
    if s.phase == Running && note.STEP_COMPLETE? && s.currentStepIndex != s.runningStepIndex {
      EnterQueueOk(steps, ctx, s);
    }
  }

  /** Each snapshot of a run from a valid snapshot is the previous one advanced by one input. */
  lemma {:induction false} ReplayStep(steps: seq<StepDefinition>, ctx: StepContext, s: Snapshot, inputs: seq<Input>, k: nat)
    requires k < |inputs|
    ensures Replay(steps, ctx, s, inputs)[k + 1] == Next(steps, ctx, Replay(steps, ctx, s, inputs)[k], inputs[k])
    decreases k
  {
    if k > 0 {
      ReplayStep(steps, ctx, Next(steps, ctx, s, inputs[0]), inputs[1..], k - 1);
    }
  }

  /** The snapshot invariant holds all along any run. */
  lemma {:induction false} ReplayOk(steps: seq<StepDefinition>, ctx: StepContext, s: Snapshot, inputs: seq<Input>, k: nat)
    requires SnapshotOk(steps, s) && k <= |inputs|
    ensures SnapshotOk(steps, Replay(steps, ctx, s, inputs)[k])
    decreases k
  {
    if k > 0 {
      ReplayOk(steps, ctx, s, inputs, k - 1);
      ReplayStep(steps, ctx, s, inputs, k - 1);
      NextPreservesOk(steps, ctx, Replay(steps, ctx, s, inputs)[k - 1], inputs[k - 1]);
    }
  }

  // ---------------------------------------------------------------------
  // The run loop
  // ---------------------------------------------------------------------

  /** With distinct ids, the node at each index is found in `graphIndexMap`. */
  lemma RunTargetDistinct(steps: seq<StepDefinition>, i: int)
    requires DistinctIds(steps) && 0 <= i < |steps|
    ensures RunTarget(steps, i) == Some(steps[i].id)
  {
    OwnersDistinct(steps, |steps|);
  }

  /** PROCESS answers with nothing, STEP_PROCESSING, STEP_INVALID or STEP_SKIP; never with STEP_COMPLETE. */
  lemma ProcessAnswers(ctx: StepContext, id: string, st: StepState)
    ensures var note := Transition(ctx, id, st, PROCESS).note;
      note == None || note == Some(STEP_PROCESSING(id)) || note == Some(STEP_INVALID(id)) || note == Some(STEP_SKIP)
  {
    if st == Complete {
      CompleteProcess(ctx, id);
    } else if st in {Ready, Outdatable, Invalid, Outdated} {
      GuardedProcess(ctx, id, st);
    }
  }

  /**
   * `process` handles the answer to its own PROCESS exactly as it handles
   * any notification: reacting to STEP_INVALID alone loses nothing.
   */
  lemma ProcessedAnswer(steps: seq<StepDefinition>, ctx: StepContext, s: Snapshot, id: string)
    requires s.phase == Running
    ensures var d := Deliver(ctx, s.actors, id, PROCESS);
      var t := s.(actors := d.actors);
      Processed(ctx, s, id) == if d.note.Some? then OnNotification(steps, ctx, t, d.note.value) else t
  {
    if StepRefId(id) in s.actors {
      ProcessAnswers(ctx, id, s.actors[StepRefId(id)]);
    }
  }

  /** RUN from `idle`: the first PROCESS goes to the node at index 0, and either the run waits there or ends with the current index at 0. */
  lemma RunStartsAtZero(steps: seq<StepDefinition>, ctx: StepContext, s: Snapshot)
    requires SnapshotOk(steps, s) && s.phase == Idle
    ensures var r := Next(steps, ctx, s, RUN);
      && (r.phase == Running ==> r.runningStepIndex == 0 && r.currentStepIndex == s.currentStepIndex)
      && (r.phase == Idle ==> r.runningStepIndex == -1 && r.currentStepIndex == 0)
      && r.actors == match RunTarget(steps, 0)
                     case Some(id) => Deliver(ctx, s.actors, id, PROCESS).actors
                     case None => s.actors
  {
  }

  /** While running, one input keeps the running index, adds exactly one to it, or ends the run with -1. */
  lemma RunIndexAdvances(steps: seq<StepDefinition>, ctx: StepContext, s: Snapshot, input: Input)
    requires SnapshotOk(steps, s) && s.phase == Running
    ensures var r := Next(steps, ctx, s, input);
      && (r.phase == Running ==> r.runningStepIndex == s.runningStepIndex || r.runningStepIndex == s.runningStepIndex + 1)
      && (r.phase == Idle ==> r.runningStepIndex == -1)
  {
  }

  /** Within a run the running index never decreases, and it grows by at most one per input. */
  lemma {:induction false} RunIndexMonotone(steps: seq<StepDefinition>, ctx: StepContext, s: Snapshot, inputs: seq<Input>, a: nat, b: nat)
    requires SnapshotOk(steps, s) && a <= b <= |inputs|
    requires forall k :: a <= k <= b ==> Replay(steps, ctx, s, inputs)[k].phase == Running
    ensures var t := Replay(steps, ctx, s, inputs);
      t[a].runningStepIndex <= t[b].runningStepIndex <= t[a].runningStepIndex + (b - a)
    decreases b - a
  {
    if a < b {
      var t := Replay(steps, ctx, s, inputs);
      RunIndexMonotone(steps, ctx, s, inputs, a, b - 1);
      ReplayOk(steps, ctx, s, inputs, b - 1);
      ReplayStep(steps, ctx, s, inputs, b - 1);
      RunIndexAdvances(steps, ctx, t[b - 1], inputs[b - 1]);
    }
  }

  /** Each step's own node is among the keys of `graphIndexMap`. */
  lemma {:induction false} OwnerIsKey(steps: seq<StepDefinition>, j: nat, i: nat)
    requires i < j <= |steps|
    ensures Owner(steps, i) in OwnersUpTo(steps, j)
  {
    if i < j - 1 {
      OwnerIsKey(steps, j - 1, i);
    }
  }

  /**
   * STEP_COMPLETE for the current step while it runs: the children of the
   * completed step are unlocked, the run ends, and the current index moves
   * on by one but never past the last node.
   */
  lemma CompletionOfCurrentStep(steps: seq<StepDefinition>, ctx: StepContext, s: Snapshot, id: string, g: nat)
    requires SnapshotOk(steps, s) && s.phase == Running && s.currentStepIndex == s.runningStepIndex
    requires IndexOf(steps, id) == Some(g)
    ensures var r := OnNotification(steps, ctx, s, STEP_COMPLETE(id));
      && r.phase == Idle && r.runningStepIndex == -1
      && r.currentStepIndex == NextIndex(s.currentStepIndex, |Owners(steps)|)
      && 0 <= r.currentStepIndex < |Owners(steps)|
      && r.actors == Unlocked(s.actors, ChildIds(steps, g))
  {
    StartSweepUnlocks(ctx, s.actors, ChildIds(steps, g));
    assert Owner(steps, g) == g;
    OwnerIsKey(steps, |steps|, g);
    assert |Owners(steps)| >= 1;
  }

  /** STEP_COMPLETE for an id that names no step ends the run and changes nothing else. */
  lemma CompletionOfUnknownStep(steps: seq<StepDefinition>, ctx: StepContext, s: Snapshot, id: string)
    requires s.phase == Running && s.currentStepIndex == s.runningStepIndex
    requires forall i :: 0 <= i < |steps| ==> steps[i].id != id
    ensures OnNotification(steps, ctx, s, STEP_COMPLETE(id)) == Snapshot(Idle, s.currentStepIndex, -1, s.actors)
  {
    IndexOfUnknown(steps, id);
  }

  /** STEP_COMPLETE while the current and running indices differ goes back to `queue`: the run moves to the next node. */
  lemma CompletionElsewhere(steps: seq<StepDefinition>, ctx: StepContext, s: Snapshot, id: string)
    requires s.phase == Running && s.currentStepIndex != s.runningStepIndex
    ensures var r := OnNotification(steps, ctx, s, STEP_COMPLETE(id));
      && r == EnterQueue(steps, ctx, s)
      && (r.phase == Running ==> r.runningStepIndex == s.runningStepIndex + 1 && r.currentStepIndex == s.currentStepIndex)
      && (r.phase == Idle ==> r.currentStepIndex == s.runningStepIndex + 1)
  {
  }

  /** STEP_INVALID while running ends the run with the current index at the running one. */
  lemma InvalidCatchesUp(steps: seq<StepDefinition>, ctx: StepContext, s: Snapshot, id: string)
    requires s.phase == Running
    ensures OnNotification(steps, ctx, s, STEP_INVALID(id)) == Snapshot(Idle, s.runningStepIndex, -1, s.actors)
  {
  }

  /** `idle` handles no notification, and `process` none but STEP_COMPLETE and STEP_INVALID: a skipped step stalls the run. */
  lemma UnhandledNotifications(steps: seq<StepDefinition>, ctx: StepContext, s: Snapshot, note: Notification)
    requires s.phase == Idle || !(note.STEP_COMPLETE? || note.STEP_INVALID?)
    ensures OnNotification(steps, ctx, s, note) == s
  {
  }

  /** STOP from anywhere leaves the scheduler in `idle` with the running index at -1, and nothing else changed. */
  lemma StopReturnsToIdle(steps: seq<StepDefinition>, ctx: StepContext, s: Snapshot)
    requires SnapshotOk(steps, s)
    ensures Next(steps, ctx, s, STOP) == Snapshot(Idle, s.currentStepIndex, -1, s.actors)
  {
  }

  // ---------------------------------------------------------------------
  // Navigation
  // ---------------------------------------------------------------------

  /** `currentStep.UPDATE` is ignored while running. */
  lemma UpdateOnlyInIdle(steps: seq<StepDefinition>, ctx: StepContext, s: Snapshot, v: UpdateValue)
    requires s.phase == Running
    ensures Next(steps, ctx, s, UPDATE_CURRENT_STEP(v)) == s
  {
  }

  /** A number passes the guard unless some step's id is its decimal text: `${n}Ref` names no actor. */
  lemma NumericUpdateUnguarded(steps: seq<StepDefinition>, ctx: StepContext, s: Snapshot, n: int)
    requires SnapshotOk(steps, s) && s.phase == Idle
    requires forall i :: 0 <= i < |steps| ==> steps[i].id != NumberString(n)
    ensures Next(steps, ctx, s, UPDATE_CURRENT_STEP(ByIndex(n))) == s.(currentStepIndex := n)
  {
    if StepRefId(NumberString(n)) in s.actors {
      var i :| 0 <= i < |steps| && StepRefId(steps[i].id) == StepRefId(NumberString(n));
      StepRefIdInjective(steps[i].id, NumberString(n));
    }
  }

  /** With distinct ids, navigating to step `i` by id succeeds exactly when its actor has left `initial`. */
  lemma UpdateById(steps: seq<StepDefinition>, ctx: StepContext, s: Snapshot, i: nat)
    requires SnapshotOk(steps, s) && s.phase == Idle && DistinctIds(steps) && i < |steps|
    ensures StepRefId(steps[i].id) in s.actors
    ensures Next(steps, ctx, s, UPDATE_CURRENT_STEP(ById(steps[i].id))).currentStepIndex ==
      if s.actors[StepRefId(steps[i].id)] == Initial then s.currentStepIndex else i
  {
    IndexOfDistinct(steps, i);
  }

  /** Navigating to an id no step has always passes the guard and goes to index 0. */
  lemma UpdateByUnknownId(steps: seq<StepDefinition>, ctx: StepContext, s: Snapshot, id: string)
    requires SnapshotOk(steps, s) && s.phase == Idle
    requires forall i :: 0 <= i < |steps| ==> steps[i].id != id
    ensures Next(steps, ctx, s, UPDATE_CURRENT_STEP(ById(id))) == s.(currentStepIndex := 0)
  {
    IndexOfUnknown(steps, id);
    if StepRefId(id) in s.actors {
      var i :| 0 <= i < |steps| && StepRefId(steps[i].id) == StepRefId(id);
      StepRefIdInjective(steps[i].id, id);
    }
  }
}
