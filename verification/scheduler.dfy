/**
 * The workflow scheduler of src/workflow/workflow-factory.ts as a function
 * on snapshots: its phase, `currentStepIndex`, `runningStepIndex` and the
 * state of every step actor, keyed as the scheduler's context keys them
 * (by `stepRefId`).
 *
 * The xstate states `initial` and `start` happen once, at creation
 * (`Start`); `queue` and `done` are transient and are folded into the
 * transitions that pass through them, so a snapshot is either in `idle` or
 * in `running.process`. Each step actor answers at most one notification
 * per event; the scheduler handles it after its own transition completes.
 */
module Scheduler {
  import opened Wrappers
  import opened StepMachine
  import opened RefIds
  import opened Graph

  /** `idle`, or `running` in its only stable substate, `process`. */
  datatype Phase = Idle | Running

  /** The payload of `currentStep.UPDATE`: a number, or a step id. */
  datatype UpdateValue = ByIndex(index: int) | ById(id: string)

  /** What the scheduler can receive: its own events, a notification, or an event for one step's actor. */
  datatype Input =
    | RUN
    | STOP
    | UPDATE_CURRENT_STEP(value: UpdateValue)
    | NOTIFY(note: Notification)
    | STEP_EVENT(id: string, event: StepEvent)

  datatype Snapshot = Snapshot(phase: Phase, currentStepIndex: int, runningStepIndex: int, actors: map<string, StepState>)

  /** The actors after an event reached one of them, and that actor's notification. */
  datatype Delivery = Delivery(actors: map<string, StepState>, note: Option<Notification>)

  /** The context keys of the step actors: one per distinct step id. */
  function RefKeys(steps: seq<StepDefinition>): set<string> {
    set i | 0 <= i < |steps| :: StepRefId(steps[i].id)
  }

  /** A snapshot the scheduler can be in: one actor per step, and `runningStepIndex` is -1 exactly outside a run. */
  ghost predicate SnapshotOk(steps: seq<StepDefinition>, s: Snapshot) {
    && s.actors.Keys == RefKeys(steps)
    && (s.phase == Idle ==> s.runningStepIndex == -1)
    && (s.phase == Running ==> s.runningStepIndex >= 0)
  }

  /**
   * `send(event, { to: context[stepRefId(id)] })`: the actor of step `id`
   * takes the event; when there is no such actor nothing happens.
   */
  function Deliver(ctx: StepContext, actors: map<string, StepState>, id: string, e: StepEvent): (d: Delivery)
    ensures d.actors.Keys == actors.Keys
    ensures forall k :: k in actors && k != StepRefId(id) ==> d.actors[k] == actors[k]
    ensures StepRefId(id) !in actors ==> d == Delivery(actors, None)
  {
    var key := StepRefId(id);
    if key in actors then
      var o := Transition(ctx, id, actors[key], e);
      Delivery(actors[key := o.next], o.note)
    else Delivery(actors, None)
  }

  // ---------------------------------------------------------------------
  // Creation: `initial` spawns every actor, `start` unlocks the first step
  // ---------------------------------------------------------------------

  function InitialActors(steps: seq<StepDefinition>): map<string, StepState> {
    map k | k in RefKeys(steps) :: Initial
  }

  /** The snapshot once `initial` and `start` have passed: in `idle`, at step 0, with the first step's actor sent START. */
  function Start(steps: seq<StepDefinition>, ctx: StepContext): Snapshot {
    var actors := InitialActors(steps);
    var started := if steps == [] then actors else Deliver(ctx, actors, steps[0].id, START).actors;
    Snapshot(Idle, 0, -1, started)
  }

  // ---------------------------------------------------------------------
  // handleStepComplete
  // ---------------------------------------------------------------------

  /** `Math.min(currentStepIndex + 1, graphIndexMap.size - 1)`. */
  function NextIndex(current: int, size: int): (r: int)
    ensures r <= current + 1 && r <= size - 1
    ensures r == current + 1 || r == size - 1
  {
    if current + 1 <= size - 1 then current + 1 else size - 1
  }

  /** The ids of the children of node `g`, in edge order. */
  function ChildIds(steps: seq<StepDefinition>, g: nat): (ids: seq<string>)
    ensures |ids| == |Children(steps, g)|
    ensures forall i :: 0 <= i < |ids| ==> Children(steps, g)[i] < |steps| && ids[i] == steps[Children(steps, g)[i]].id
  {
    var cs := Children(steps, g);
    NodesInRange(steps, |steps|, g);
    assert cs == ChildrenUpTo(steps, |steps|, g);
    assert forall i :: 0 <= i < |cs| ==> cs[i] in cs;
    seq(|cs|, i requires 0 <= i < |cs| => steps[cs[i]].id)
  }

  /** START sent to the actors of `ids`, in order. */
  function StartSweep(ctx: StepContext, actors: map<string, StepState>, ids: seq<string>): (r: map<string, StepState>)
    ensures r.Keys == actors.Keys
    decreases |ids|
  {
    if ids == [] then actors
    else Deliver(ctx, StartSweep(ctx, actors, ids[..|ids| - 1]), ids[|ids| - 1], START).actors
  }

  /** The actor keys of the steps `ids` names. */
  function KeysOf(ids: seq<string>): set<string> {
    set i | 0 <= i < |ids| :: StepRefId(ids[i])
  }

  /** Reference for a START sweep: every named actor still in `initial` becomes `ready`; nothing else changes. */
  function Unlocked(actors: map<string, StepState>, ids: seq<string>): map<string, StepState> {
    map k | k in actors :: if k in KeysOf(ids) && actors[k] == Initial then Ready else actors[k]
  }

  /**
   * `handleStepComplete` for step `id`, then `done` and `idle`: the
   * children of the completed step are sent START and the current index
   * moves on by one, clamped to the last node; an unknown id changes
   * nothing but the phase.
   */
  function CompleteStep(steps: seq<StepDefinition>, ctx: StepContext, s: Snapshot, id: string): Snapshot {
    match IndexOf(steps, id)
    case None => Idled(s)
    case Some(g) =>
      Snapshot(Idle, NextIndex(s.currentStepIndex, |Owners(steps)|), -1, StartSweep(ctx, s.actors, ChildIds(steps, g)))
  }

  // ---------------------------------------------------------------------
  // The run loop
  // ---------------------------------------------------------------------

  /** Back in `idle`: the exit of `done` and the entry of `idle` reset the running index. */
  function Idled(s: Snapshot): Snapshot {
    Snapshot(Idle, s.currentStepIndex, -1, s.actors)
  }

  /** STEP_INVALID in `process`: the current index catches up with the running one, and the run ends. */
  function Invalidated(s: Snapshot): Snapshot {
    Snapshot(Idle, s.runningStepIndex, -1, s.actors)
  }

  /** `graphIndexMap.get(i)?.refId`, as the id of the step whose actor it names. */
  function RunTarget(steps: seq<StepDefinition>, i: int): (t: Option<string>)
    ensures t.Some? ==> 0 <= i < |steps| && t.value == steps[i].id
  {
    NodesInRange(steps, |steps|, 0);
    if 0 <= i && i as nat in Owners(steps) then Some(steps[i].id) else None
  }

  /**
   * `process`, entered with the running index at a node: PROCESS goes to
   * that step's actor, and the actor's answer is handled in `process`,
   * where only STEP_INVALID (a refused PROCESS) moves the scheduler.
   */
  function Processed(ctx: StepContext, s: Snapshot, id: string): Snapshot {
    var d := Deliver(ctx, s.actors, id, PROCESS);
    if d.note.Some? && d.note.value.STEP_INVALID? then Invalidated(s.(actors := d.actors))
    else s.(actors := d.actors)
  }

  /** `queue` then `process`: the running index moves on by one and, when a node has that index, its step is processed. */
  function EnterQueue(steps: seq<StepDefinition>, ctx: StepContext, s: Snapshot): Snapshot {
    var queued := Snapshot(Running, s.currentStepIndex, s.runningStepIndex + 1, s.actors);
    match RunTarget(steps, queued.runningStepIndex)
    case None => queued
    case Some(id) => Processed(ctx, queued, id)
  }

  /** The scheduler's reaction to a notification: only `process` handles any, and only STEP_COMPLETE and STEP_INVALID. */
  function OnNotification(steps: seq<StepDefinition>, ctx: StepContext, s: Snapshot, note: Notification): Snapshot {
    if s.phase == Idle then s
    else
      match note
      case STEP_COMPLETE(id) =>
        if s.currentStepIndex == s.runningStepIndex then CompleteStep(steps, ctx, s, id)
        else EnterQueue(steps, ctx, s)
      case STEP_INVALID(_) => Invalidated(s)
      case _ => s
  }

  // ---------------------------------------------------------------------
  // Navigation
  // ---------------------------------------------------------------------

  /** The context key the guard of `currentStep.UPDATE` reads: `${value}Ref`. */
  function UpdateKey(v: UpdateValue): string {
    match v
    case ByIndex(n) => StepRefId(NumberString(n))
    case ById(id) => StepRefId(id)
  }

  /** The guard: the named actor, if any, is not in `initial`. */
  predicate UpdateAllowed(actors: map<string, StepState>, v: UpdateValue) {
    UpdateKey(v) !in actors || actors[UpdateKey(v)] != Initial
  }

  /** The new current index: a number as given, an id as its node's index, or 0 for an unknown id. */
  function UpdateTarget(steps: seq<StepDefinition>, v: UpdateValue): int {
    match v
    case ByIndex(n) => n
    case ById(id) => match IndexOf(steps, id) case Some(i) => i case None => 0
  }

  // ---------------------------------------------------------------------
  // One input
  // ---------------------------------------------------------------------

  /** The snapshot after one input, and after the notification it causes, if any. */
  function Next(steps: seq<StepDefinition>, ctx: StepContext, s: Snapshot, input: Input): Snapshot {
    match input
    case RUN =>
      if s.phase == Idle then EnterQueue(steps, ctx, s.(runningStepIndex := -1)) else s
    case STOP =>
      if s.phase == Running then Idled(s) else s
    case UPDATE_CURRENT_STEP(v) =>
      if s.phase == Idle && UpdateAllowed(s.actors, v) then s.(currentStepIndex := UpdateTarget(steps, v)) else s
    case NOTIFY(note) =>
      OnNotification(steps, ctx, s, note)
    case STEP_EVENT(id, e) =>
      var d := Deliver(ctx, s.actors, id, e);
      match d.note
      case None => s.(actors := d.actors)
      case Some(note) => OnNotification(steps, ctx, s.(actors := d.actors), note)
  }

  /** The snapshots the scheduler passes through, starting at `s`, as it receives `inputs` in order. */
  function Replay(steps: seq<StepDefinition>, ctx: StepContext, s: Snapshot, inputs: seq<Input>): (t: seq<Snapshot>)
    ensures |t| == |inputs| + 1 && t[0] == s
    decreases |inputs|
  {
    if inputs == [] then [s] else [s] + Replay(steps, ctx, Next(steps, ctx, s, inputs[0]), inputs[1..])
  }
}
