/**
 * The workflow machine that `useWorkflowMachine` builds
 * (src/workflow/workflow-factory.ts): the dependency graph, the two indices
 * its `assign` actions update, its phase, and the context entries that hold
 * the step actors. Each input method (`Run`, `Stop`, `UpdateCurrentStep`,
 * `Notify`, `SendToStep`) runs through the transient states and is proved to
 * produce the snapshot `Scheduler.Next` gives for that input. Each helper
 * method (an action or a state entry) is proved against the function it
 * implements.
 */
module WorkflowMachine {
  import opened Wrappers
  import opened StepMachine
  import opened RefIds
  import opened Graph
  import opened Scheduler

  class Workflow {
    const graph: DependencyGraph
    /** The context every step actor is spawned with. */
    const stepContext: StepContext
    var phase: Phase
    var currentStepIndex: int
    var runningStepIndex: int
    /** `context[stepRefId(id)]`: the state of each step's actor. */
    var actors: map<string, StepState>

    function State(): Snapshot
      reads this
    {
      Snapshot(phase, currentStepIndex, runningStepIndex, actors)
    }

    ghost predicate Valid()
      reads this, graph, graph.parents, graph.children
    {
      graph.Valid() && SnapshotOk(graph.steps, State())
    }

    /**
     * `initial` spawns one actor per step; `start` sends START to the first
     * step's actor; `idle` is entered with the running index at -1.
     */
    constructor (steps: seq<StepDefinition>)
      ensures Valid() && graph.steps == steps && stepContext == DefaultContext
      ensures State() == Start(steps, DefaultContext)
    {
      graph := new DependencyGraph(steps);
      stepContext := DefaultContext;
      currentStepIndex := 0;
      var spawned := map k | k in RefKeys(steps) :: Initial;
      actors := if steps == [] then spawned else Deliver(DefaultContext, spawned, steps[0].id, START).actors;
      runningStepIndex := -1;
      phase := Idle;
    }

    /** The actor of step `id` takes event `e`; its answer, if any, is returned for the scheduler to handle. */
    method SendTo(id: string, e: StepEvent) returns (note: Option<Notification>)
      modifies this
      ensures actors == Deliver(stepContext, old(actors), id, e).actors
      ensures note == Deliver(stepContext, old(actors), id, e).note
      ensures phase == old(phase) && currentStepIndex == old(currentStepIndex) && runningStepIndex == old(runningStepIndex)
    {
      var key := StepRefId(id);
      note := None;
      if key in actors {
        var o := Transition(stepContext, id, actors[key], e);
        actors := actors[key := o.next];
        note := o.note;
      }
    }

    /** The exit of `done` and the entry of `idle`. */
    method Finish()
      modifies this
      ensures State() == Idled(old(State()))
    {
      runningStepIndex := -1;
      phase := Idle;
    }

    /** `graphIndexMap.get(i)?.refId`, as the id of the step whose actor it names. */
    method RunTargetAt(i: int) returns (t: Option<string>)
      requires graph.Valid()
      ensures t == RunTarget(graph.steps, i)
    {
      NodesInRange(graph.steps, |graph.steps|, 0);
      if 0 <= i && i as nat in graph.graphIndexMap {
        t := Some(graph.nodes[graph.graphIndexMap[i as nat]].id);
      } else {
        t := None;
      }
    }

    /** `queue`: one more than the running index; then `process`, when a node has that index. */
    method EnterQueue()
      requires graph.Valid()
      modifies this
      ensures State() == Scheduler.EnterQueue(graph.steps, stepContext, old(State()))
    {
      runningStepIndex := runningStepIndex + 1;
      phase := Running;
      var target := RunTargetAt(runningStepIndex);
      match target
      case Some(id) => Process(id);
      case None =>
    }

    /** `process`: PROCESS to the actor of step `id`, and its answer handled. */
    method Process(id: string)
      modifies this
      ensures State() == Processed(stepContext, old(State()), id)
    {
      var note := SendTo(id, PROCESS);
      match note
      case Some(STEP_INVALID(_)) =>
        currentStepIndex := runningStepIndex;
        Finish();
      case _ =>
    }

    /**
     * `handleStepComplete`: START to the actor of every child of the
     * completed step, then the current index moved on, clamped to the last
     * node; nothing when no node has the id.
     */
    method HandleStepComplete(id: string)
      requires graph.Valid()
      modifies this
      ensures match IndexOf(graph.steps, id)
        case None => State() == old(State())
        case Some(g) =>
          && actors == StartSweep(stepContext, old(actors), ChildIds(graph.steps, g))
          && currentStepIndex == NextIndex(old(currentStepIndex), |Owners(graph.steps)|)
          && phase == old(phase) && runningStepIndex == old(runningStepIndex)
    {
      if id !in graph.graphMap {
        return;
      }
      var g := graph.graphMap[id];
      StartChildren(g);
      assert |graph.graphIndexMap| == |graph.graphIndexMap.Keys|;
      currentStepIndex := NextIndex(currentStepIndex, |graph.graphIndexMap|);
    }

    /** The `readyStepRefs.forEach` loop of `handleStepComplete`: START to each child of node `g`, in edge order. */
    method StartChildren(g: nat)
      requires graph.Valid() && g < |graph.steps|
      modifies this
      ensures actors == StartSweep(stepContext, old(actors), ChildIds(graph.steps, g))
      ensures phase == old(phase) && currentStepIndex == old(currentStepIndex) && runningStepIndex == old(runningStepIndex)
    {
      var kids := graph.children[g];
      ghost var ids := ChildIds(graph.steps, g);
      var i := 0;
      while i < |kids|
        invariant 0 <= i <= |kids|
        invariant actors == StartSweep(stepContext, old(actors), ids[..i])
        invariant phase == old(phase) && currentStepIndex == old(currentStepIndex)
        invariant runningStepIndex == old(runningStepIndex)
      {
        assert ids[..i + 1][..i] == ids[..i];
        var _ := SendTo(graph.nodes[kids[i]].id, START);
        i := i + 1;
      }
      assert ids[..i] == ids;
    }

    /** A notification from a step actor. */
    method Notify(note: Notification)
      requires Valid()
      modifies this
      ensures Valid() && State() == OnNotification(graph.steps, stepContext, old(State()), note)
    {
      if phase == Running {
        match note
        case STEP_COMPLETE(id) =>
          if currentStepIndex == runningStepIndex {
            HandleStepComplete(id);
            Finish();
          } else {
            EnterQueue();
          }
        case STEP_INVALID(_) =>
          currentStepIndex := runningStepIndex;
          Finish();
        case _ =>
      }
    }

    /** RUN: from `idle` into `running`, whose entry sets the running index to -1, then `queue`. */
    method Run()
      requires Valid()
      modifies this
      ensures Valid() && State() == Next(graph.steps, stepContext, old(State()), RUN)
    {
      if phase == Idle {
        runningStepIndex := -1;
        EnterQueue();
      }
    }

    /** STOP: from `running` back to `idle`. */
    method Stop()
      requires Valid()
      modifies this
      ensures Valid() && State() == Next(graph.steps, stepContext, old(State()), STOP)
    {
      if phase == Running {
        Finish();
      }
    }

    /** `currentStep.UPDATE`, handled in `idle` only and guarded by the named actor having left `initial`. */
    method UpdateCurrentStep(value: UpdateValue)
      requires Valid()
      modifies this
      ensures Valid() && State() == Next(graph.steps, stepContext, old(State()), UPDATE_CURRENT_STEP(value))
    {
      if phase == Idle && UpdateAllowed(actors, value) {
        match value
        case ByIndex(n) =>
          currentStepIndex := n;
        case ById(id) =>
          // `graphMap.get(value)?.index ?? 0`
          if id in graph.graphMap {
            currentStepIndex := graph.nodes[graph.graphMap[id]].index;
          } else {
            currentStepIndex := 0;
          }
      }
    }

    /** An event sent to the actor of step `id`, and the scheduler's reaction to the actor's answer. */
    method SendToStep(id: string, e: StepEvent)
      requires Valid()
      modifies this
      ensures Valid() && State() == Next(graph.steps, stepContext, old(State()), STEP_EVENT(id, e))
    {
      ghost var s := State();
      var note := SendTo(id, e);
      assert State() == s.(actors := Deliver(stepContext, s.actors, id, e).actors);
      if note.Some? {
        Notify(note.value);
      }
    }
  }
}
