# Workflow step orchestration, modelled in Dafny

This project models the core of a small workflow orchestrator. A workflow is an
ordered list of steps, and each step may name other steps as hard dependencies.
The model has two halves.

- **The step lifecycle machine** (`src/stepMachine.ts`). Each step is driven by its
  own actor with nine states: `initial`, `ready`, `outdatable`, `touched`,
  `processing`, `complete`, `invalid`, `outdated` and `locked`. It accepts nine
  events, from START to LOCK. Its guards read an immutable context:
  `alwaysProcess` and `disableProcessFromStates`. Entering some states sends a
  notification to the parent scheduler.
  - This is a pure transition table: the total function `StepMachine.Transition`
    from (context, state, event) to (next state, optional notification).
  - Lemmas cover single transitions and event sequences (`StepMachine.Trace`).
- **The scheduler and its dependency graph** (`src/workflow/workflow-factory.ts`).
  - **Actor keys.** Each step's actor is keyed by `stepRefId` (`RefIds`).
  - **Dependency graph.** The class `Graph.DependencyGraph` holds the graph. Its
    constructor runs the source's construction loops over arrays of edge lists.
    It is proved to produce the graph that the functions `Parents`, `Children`
    and `Owners` describe.
  - **The scheduler machine.** The class `WorkflowMachine.Workflow` has the
    phase, `currentStepIndex`, `runningStepIndex` and the actors' states.
    - The input methods `Run`, `Stop`, `UpdateCurrentStep`, `Notify` and
      `SendToStep` are each proved to give the snapshot that `Scheduler.Next`
      gives for that input; for `Notify` this is `Scheduler.OnNotification`.
    - The helper methods are each proved against the function they implement:
      - `SendTo` against `Deliver`;
      - `Finish` against `Idled`;
      - `RunTargetAt` against `RunTarget`;
      - `EnterQueue` against `Scheduler.EnterQueue`;
      - `Process` against `Processed`;
      - `HandleStepComplete` and `StartChildren` against `StartSweep` and `NextIndex`.
  - **Properties.** Those of `Scheduler.Next` and of runs of it (`Scheduler.Replay`)
    are in `SchedulerProperties`.

Modelling decisions:

- **Actors are a map.** The step actors are a map from actor key (`${id}Ref`) to
  the actor's state. This mirrors the scheduler context, so two steps that share
  an id share one actor, as `Object.fromEntries` makes them.
- **Graph lookups are by index.** Graph nodes are identified by declaration
  index, and the edge lists hold indices. `graphMap.get(id)` keeps the last step
  with that id, as `new Map(entries)` does (`Graph.IdMap`).
- **Transient states are folded in.** The xstate states `queue` and `done` are
  transient, so a snapshot is either `idle` or `running.process`. An event's
  transition includes the transient states it passes through.
- **Notifications are explicit values.** Each actor answers an event with at
  most one notification. The scheduler handles it once its own transition is
  complete.
- **Steps use the default context.** Every step actor is spawned with the
  default context, because the factory passes `onProcess` and never `context`.
  The step model is still parameterised by the context.
- **Unlocking is START only.** `start` and `handleStepComplete` send START,
  never OUTDATABLE.
- **No workflow lock.** There is no workflow-level `locked` state and no LOCK
  broadcast.
- **No `ready` substate.** `running` has the substates `queue`, `process`
  and `done`, and no `ready` substate.
- **No soft dependencies.** Only the `deps` list is linked.

## Model

| member | source | states |
|---|---|---|
| StepMachine.EntryNote | src/stepMachine.ts:61-120 | exactly `touched`, `processing`, `complete`, `invalid` and `outdated` have an entry notification; it carries the step's id and is never STEP_SKIP |
| StepMachine.FirstEnabled | src/stepMachine.ts:31-40 | a guarded transition list takes the first candidate whose guard holds, and is ignored when none holds |
| StepMachine.Transition | src/stepMachine.ts:22-137 | a change of state sends exactly the new state's entry notification; a self-loop sends something only for PROCESS (STEP_INVALID, or STEP_SKIP in `complete`) |
| StepMachine.InitialOnlyUnlocks | src/stepMachine.ts:23-28 | from `initial`, only START (to `ready`) and OUTDATABLE (to `outdatable`) move, silently; every other event, PROCESS included, is ignored |
| StepMachine.StartOnlyUnlocksInitial | src/stepMachine.ts:23-28 | START moves `initial` to `ready` and is ignored in every other state |
| StepMachine.NothingEntersInitial | src/stepMachine.ts:22-137 | no transition enters `initial` from another state |
| StepMachine.GuardedProcess | src/stepMachine.ts:29-134 | PROCESS in `ready`/`outdatable`/`invalid`/`outdated`: exactly one of the two guards holds; it leads to `processing` with STEP_PROCESSING unless the state is disabled, else stays and sends STEP_INVALID(id) |
| StepMachine.CompleteProcess | src/stepMachine.ts:79-97 | PROCESS in `complete`: exactly one of three guards holds; reprocess, refuse with STEP_INVALID(id), or stay with STEP_SKIP |
| StepMachine.DefaultContextProcess | src/stepMachine.ts:17-21 | under the default context PROCESS reaches `processing` from ready/outdatable/touched/invalid/outdated and skips in `complete` |
| StepMachine.ProcessingExits | src/stepMachine.ts:68-74 | `processing` is left only by VALID (to `complete`) or INVALID (to `invalid`) |
| StepMachine.TouchedExits | src/stepMachine.ts:61-67 | `touched` accepts only PROCESS (unguarded, to `processing`) and RESET (to `ready`) |
| StepMachine.OutdateTargets | src/stepMachine.ts:45-118 | OUTDATE moves `outdatable`, `complete` and `invalid` to `outdated` and is ignored elsewhere |
| StepMachine.LockedIsFinal | src/stepMachine.ts:75-137 | `locked` ignores every event, and the only transition into it is LOCK from `complete` |
| StepMachine.Trace | src/stepMachine.ts:13-139 | the states an actor passes through: one more than the events, starting at the initial state |
| StepMachine.TraceStep | src/stepMachine.ts:13-139 | each state of a trace is the transition of the previous one on the event between them |
| StepMachine.LockedForever | src/stepMachine.ts:135-137 | once locked, every later state of a trace is `locked` |
| StepMachine.NeverBackToInitial | src/stepMachine.ts:22-137 | once a trace is out of `initial`, it never returns |
| StepMachine.LeavingInitial | src/stepMachine.ts:23-28 | a trace from `initial` that has left it did so at some first position, into `ready` or `outdatable` |
| StepMachine.ProcessingNeedsUnlock | src/stepMachine.ts:23-74 | no event sequence takes an actor from `initial` to `processing` without passing `ready` or `outdatable` |
| StepMachine.LockedOnlyAfterLock | src/stepMachine.ts:99-137 | an actor that ends up locked received LOCK while `complete` |
| RefIds.StepRefId | src/workflow/workflow-factory.ts:22 | no contract of its own; the actor key `${id}Ref`; StepRefIdInjective and NoEarlyRef state its properties, and RefIdRoundTrip proves UndoStepRefId its inverse |
| RefIds.UndoStepRefId | src/workflow/workflow-factory.ts:23 | the result is a prefix of the key with no "Ref" in it; it is the whole key or ends where the first "Ref" starts |
| RefIds.StepRefIdInjective | src/workflow/workflow-factory.ts:22 | distinct ids give distinct actor keys |
| RefIds.NoEarlyRef | src/workflow/workflow-factory.ts:22 | in `${id}Ref`, with no "Ref" in `id`, the first "Ref" is the suffix |
| RefIds.RefIdRoundTrip | src/workflow/workflow-factory.ts:22-23 | `undoStepRefId(stepRefId(id)) == id` for every id without "Ref" |
| RefIds.RefIdRoundTripCutsShort | src/workflow/workflow-factory.ts:22-23 | the restriction is needed: "myRef" comes back as "my" |
| RefIds.NaturalString | src/workflow/workflow-factory.ts:151 | the text of a natural number is a non-empty string of decimal digits |
| RefIds.NumberString | src/workflow/workflow-factory.ts:151 | no contract of its own; `${n}` for an integer; NumberStringValue states what the text denotes |
| RefIds.NaturalStringValue | src/workflow/workflow-factory.ts:151 | the text of a natural number is its decimal numeral: its digits denote the number, and there is no leading zero |
| RefIds.NumberStringValue | src/workflow/workflow-factory.ts:151 | `${n}` for an integer starts with a minus sign exactly when `n` is negative, and the digits after it denote the absolute value of `n` |
| Graph.IdMap | src/workflow/workflow-factory.ts:95-97 | every key of `graphMap` is the id of the step at the index it maps to |
| Graph.IdMapHasStep | src/workflow/workflow-factory.ts:95-97 | every step's id is a key of `graphMap` |
| Graph.IdMapLast | src/workflow/workflow-factory.ts:95-97 | `graphMap` keeps the last step with each id: no later step has that id |
| Graph.IndexOf | src/workflow/workflow-factory.ts:100-104 | `graphMap.get(id)`, when found, is a step that has that id |
| Graph.Owner | src/workflow/workflow-factory.ts:99-100 | the node found for step `j` is a step at or after `j` with the same id |
| Graph.KnownDeps | src/workflow/workflow-factory.ts:103-107 | no contract of its own; the nodes a dependency list names, unknown ids dropped; KnownDepsNamed, DepsSnoc and ParentsDistinct state its properties |
| Graph.ChildLinks | src/workflow/workflow-factory.ts:103-108 | no contract of its own; the child edges one dependency list adds into a node; LinksMutual, ChildLinksOwner and DepsSnoc state its properties |
| Graph.ParentsUpTo | src/workflow/workflow-factory.ts:99-109 | no contract of its own; the parents of a node after the first `j` steps; EdgesMutual, ParentsSelf, ParentsStep and BuildEdges state its properties |
| Graph.ChildrenUpTo | src/workflow/workflow-factory.ts:99-109 | no contract of its own; the children of a node after the first `j` steps; EdgesMutual, NodesInRange and BuildEdges state its properties |
| Graph.OwnersUpTo | src/workflow/workflow-factory.ts:99-112 | no contract of its own; the keys of `graphIndexMap` after the first `j` steps; OwnersSelf, OwnersDistinct, NodesInRange and OwnerIsKey state its properties |
| Graph.IndexOfDistinct | src/workflow/workflow-factory.ts:94-100 | with distinct ids, step `i`'s id finds node `i`, and step `i` owns node `i` |
| Graph.IndexOfUnknown | src/workflow/workflow-factory.ts:104-105 | an id no step has is not found |
| Graph.KnownDepsNamed | src/workflow/workflow-factory.ts:103-107 | a node is a parent added by a dependency list exactly when some listed id names it; unknown ids add nothing |
| Graph.LinksMutual | src/workflow/workflow-factory.ts:103-109 | one dependency list adds `d` to the parents of `s` exactly as often as `s` to the children of `d` |
| Graph.DepsSnoc | src/workflow/workflow-factory.ts:103-109 | one more dependency id appends the node it names, if any, to the parents, and the owner to that node's children |
| Graph.EdgesMutual | src/workflow/workflow-factory.ts:99-113 | `d` is among the parents of `s` exactly as often as `s` is among the children of `d` |
| Graph.ChildLinksOwner | src/workflow/workflow-factory.ts:108 | every child edge a dependency list adds points back to the list's owner |
| Graph.NodesInRange | src/workflow/workflow-factory.ts:99-113 | children and `graphIndexMap` keys are indices of steps |
| Graph.ChildIffParent | src/workflow/workflow-factory.ts:103-109 | `s` is a child of `d` exactly when `d` is a parent of `s` |
| Graph.ParentsDistinct | src/workflow/workflow-factory.ts:99-109 | with distinct ids, the parents of node `g` are the steps named by `g`'s own dependency list, in order |
| Graph.ParentsSelf | src/workflow/workflow-factory.ts:99-109 | with distinct ids, after `j` steps node `g` has its own known dependencies as parents if `g < j`, and none otherwise |
| Graph.ParentsStep | src/workflow/workflow-factory.ts:99-109 | step `j - 1`, owning its node, adds parents to that node only |
| Graph.OwnersDistinct | src/workflow/workflow-factory.ts:112 | with distinct ids, `graphIndexMap` has exactly the keys 0 to n - 1 |
| Graph.OwnersSelf | src/workflow/workflow-factory.ts:99-112 | with distinct ids, the first `j` steps enter exactly the keys 0 to j - 1 |
| Graph.DependencyGraph.constructor | src/workflow/workflow-factory.ts:94-113 | one node per step with its index and actor key; `graphMap` is the id lookup; `graphIndexMap` maps each owned index to itself; the parent and child arrays hold the edges the specification functions give |
| Graph.BuiltNone | src/workflow/workflow-factory.ts:96 | every node starts with no parents and no children |
| Graph.StartLinking | src/workflow/workflow-factory.ts:103 | before step `j`'s dependency loop, the edge arrays hold the edges of the first `j` steps |
| Graph.FinishLinking | src/workflow/workflow-factory.ts:103-109 | after step `j`'s whole dependency list, the arrays hold the edges of the first `j + 1` steps |
| Graph.BuildEdges | src/workflow/workflow-factory.ts:99-113 | the construction loop leaves every node's parents and children as `ParentsUpTo`/`ChildrenUpTo` give, and `graphIndexMap` with every owned index |
| Graph.IndexedStep | src/workflow/workflow-factory.ts:112 | `graphIndexMap.set` for step `j` extends the map with node `Owner(j)` under its own index |
| Graph.LinkStep | src/workflow/workflow-factory.ts:99-110 | one outer iteration adds exactly step `j`'s edges |
| Graph.LinkDependency | src/workflow/workflow-factory.ts:104-108 | one inner iteration pushes the named node onto the owner's parents and the owner onto that node's children, or skips an unknown id |
| Graph.NodesDistinct | src/workflow/workflow-factory.ts:94-112 | with distinct ids, node `i` has `index == i` and `refId == stepRefId(id)`, `graphMap` and `graphIndexMap` both find it, and there are n keys |
| Scheduler.Deliver | src/workflow/workflow-factory.ts:136 | sending to an actor changes only that actor and keeps the actor set; sending to a missing actor does nothing |
| Scheduler.NextIndex | src/workflow/workflow-factory.ts:40 | the next index is one more than the current one, clamped to the last node |
| Scheduler.ChildIds | src/workflow/workflow-factory.ts:31 | the ids of the completed node's children, one per child edge, in edge order |
| Scheduler.StartSweep | src/workflow/workflow-factory.ts:34-37 | START to a list of actors keeps the actor set |
| Scheduler.RunTarget | src/workflow/workflow-factory.ts:168 | PROCESS has a target only for an index of a step, and it is that step's id |
| Scheduler.Start | src/workflow/workflow-factory.ts:129-140 | no contract of its own; the snapshot after `initial` and `start`; StartState states it |
| Scheduler.Idled | src/workflow/workflow-factory.ts:185-190 | no contract of its own; the `done` exit and the `idle` entry; StopReturnsToIdle and CompletionOfUnknownStep state its effect |
| Scheduler.Invalidated | src/workflow/workflow-factory.ts:179-182 | no contract of its own; STEP_INVALID in `process`; InvalidCatchesUp states its effect |
| Scheduler.CompleteStep | src/workflow/workflow-factory.ts:25-46 | no contract of its own; `handleStepComplete` then `done`; CompletionOfCurrentStep and CompletionOfUnknownStep state its effect |
| Scheduler.Processed | src/workflow/workflow-factory.ts:166-183 | no contract of its own; PROCESS to the running step and the handling of its answer; ProcessedAnswer and ProcessAnswers state its properties |
| Scheduler.EnterQueue | src/workflow/workflow-factory.ts:162-168 | no contract of its own; `queue` then `process`; EnterQueueOk, RunStartsAtZero and RunIndexAdvances state its properties |
| Scheduler.OnNotification | src/workflow/workflow-factory.ts:170-183 | no contract of its own; the notification handlers of `process`; CompletionOfCurrentStep, CompletionOfUnknownStep, CompletionElsewhere, InvalidCatchesUp, UnhandledNotifications and OnNotificationOk state its properties |
| Scheduler.UpdateKey | src/workflow/workflow-factory.ts:151 | no contract of its own; the key `${value}Ref` the guard reads; NumericUpdateUnguarded and UpdateById state what it finds |
| Scheduler.UpdateAllowed | src/workflow/workflow-factory.ts:151 | no contract of its own; the guard of `currentStep.UPDATE`; NumericUpdateUnguarded, UpdateById and UpdateByUnknownId state when it holds |
| Scheduler.UpdateTarget | src/workflow/workflow-factory.ts:146-149 | no contract of its own; the assigned index; NumericUpdateUnguarded, UpdateById and UpdateByUnknownId state its value |
| Scheduler.Next | src/workflow/workflow-factory.ts:139-191 | no contract of its own; the scheduler's reaction to one input; NextPreservesOk, RunStartsAtZero, RunIndexAdvances, StopReturnsToIdle, UpdateOnlyInIdle, CompletionOfCurrentStep and ReplayStep state its properties |
| Scheduler.Replay | src/workflow/workflow-factory.ts:117-191 | a run has one snapshot per input plus the starting one |
| SchedulerProperties.StartSweepUnlocks | src/workflow/workflow-factory.ts:34-37 | START to the children unlocks exactly those still in `initial` and changes no other actor |
| SchedulerProperties.StartSweepIdempotent | src/workflow/workflow-factory.ts:35-36 | the second START to the same children changes nothing |
| SchedulerProperties.StartState | src/workflow/workflow-factory.ts:129-140 | after creation: `idle`, current index 0, running index -1, the first step's actor `ready` and all others `initial` |
| SchedulerProperties.NextPreservesOk | src/workflow/workflow-factory.ts:139-191 | every input keeps the actor set, and keeps the running index at -1 exactly in `idle` |
| SchedulerProperties.EnterQueueOk | src/workflow/workflow-factory.ts:162-168 | `queue` and `process` keep the actor set and leave a valid snapshot |
| SchedulerProperties.OnNotificationOk | src/workflow/workflow-factory.ts:170-183 | handling a notification keeps the snapshot invariant |
| SchedulerProperties.ReplayStep | src/workflow/workflow-factory.ts:117-191 | each snapshot of a run is the previous one advanced by one input |
| SchedulerProperties.ReplayOk | src/workflow/workflow-factory.ts:139-191 | the snapshot invariant holds all along a run |
| SchedulerProperties.RunTargetDistinct | src/workflow/workflow-factory.ts:168 | with distinct ids, PROCESS at index `i` goes to step `i` |
| SchedulerProperties.ProcessAnswers | src/workflow/workflow-factory.ts:167-183 | a step answers PROCESS with nothing, STEP_PROCESSING, STEP_INVALID or STEP_SKIP, never STEP_COMPLETE |
| SchedulerProperties.ProcessedAnswer | src/workflow/workflow-factory.ts:166-183 | `process` handles the answer to its own PROCESS exactly as it handles any notification |
| SchedulerProperties.RunStartsAtZero | src/workflow/workflow-factory.ts:155-168 | RUN from `idle` sends the first PROCESS to the node at index 0; the run waits there, or ends with the current index at 0 |
| SchedulerProperties.RunIndexAdvances | src/workflow/workflow-factory.ts:155-190 | while running, an input keeps the running index, adds exactly one, or ends the run with -1 |
| SchedulerProperties.RunIndexMonotone | src/workflow/workflow-factory.ts:157-165 | within a run, the running index never decreases and grows by at most one per input |
| SchedulerProperties.OwnerIsKey | src/workflow/workflow-factory.ts:112 | each step's node is a key of `graphIndexMap` |
| SchedulerProperties.CompletionOfCurrentStep | src/workflow/workflow-factory.ts:170-176 | STEP_COMPLETE for the current step unlocks the completed step's children and ends the run; the current index advances by one but stays a valid node index |
| SchedulerProperties.CompletionOfUnknownStep | src/workflow/workflow-factory.ts:28-29 | STEP_COMPLETE for an unknown id ends the run and changes nothing else |
| SchedulerProperties.CompletionElsewhere | src/workflow/workflow-factory.ts:177 | STEP_COMPLETE while the indices differ goes back to `queue`, on to the next node |
| SchedulerProperties.InvalidCatchesUp | src/workflow/workflow-factory.ts:179-182 | STEP_INVALID ends the run with the current index set to the running one |
| SchedulerProperties.UnhandledNotifications | src/workflow/workflow-factory.ts:141-183 | `idle` handles no notification, and `process` handles only STEP_COMPLETE and STEP_INVALID |
| SchedulerProperties.StopReturnsToIdle | src/workflow/workflow-factory.ts:158-159 | STOP gives `idle` with running index -1 and changes nothing else |
| SchedulerProperties.UpdateOnlyInIdle | src/workflow/workflow-factory.ts:144-152 | `currentStep.UPDATE` is ignored while running |
| SchedulerProperties.NumericUpdateUnguarded | src/workflow/workflow-factory.ts:146-151 | a number passes the guard and is assigned as is, unless some step's id is its decimal text |
| SchedulerProperties.UpdateById | src/workflow/workflow-factory.ts:148-151 | with distinct ids, an update to step `i`'s id sets index `i` exactly when that actor has left `initial` |
| SchedulerProperties.UpdateByUnknownId | src/workflow/workflow-factory.ts:148 | an id no step has passes the guard and sets index 0 |
| WorkflowMachine.Workflow.constructor | src/workflow/workflow-factory.ts:117-140 | builds the graph, spawns every actor with the default context and sends START to the first; the state is `Scheduler.Start` |
| WorkflowMachine.Workflow.SendTo | src/workflow/workflow-factory.ts:136 | an event to one actor updates it as `Deliver` says and returns its answer; the indices and phase are unchanged |
| WorkflowMachine.Workflow.Finish | src/workflow/workflow-factory.ts:185-190 | the exit of `done` and the entry of `idle`: back in `idle` with the running index at -1 |
| WorkflowMachine.Workflow.RunTargetAt | src/workflow/workflow-factory.ts:168 | the lookup through `graphIndexMap` and the node's `refId` gives the `RunTarget` id |
| WorkflowMachine.Workflow.EnterQueue | src/workflow/workflow-factory.ts:162-168 | `queue` then `process` produce the snapshot `Scheduler.EnterQueue` gives |
| WorkflowMachine.Workflow.Process | src/workflow/workflow-factory.ts:166-183 | PROCESS and the handling of its answer produce `Scheduler.Processed` |
| WorkflowMachine.Workflow.HandleStepComplete | src/workflow/workflow-factory.ts:25-46 | for a known id, START to every child in edge order and the clamped next index; for an unknown id, nothing |
| WorkflowMachine.Workflow.StartChildren | src/workflow/workflow-factory.ts:31-37 | the loop over the children leaves the actors as `StartSweep` over the child ids gives |
| WorkflowMachine.Workflow.Notify | src/workflow/workflow-factory.ts:170-183 | a notification produces `Scheduler.OnNotification` and keeps the invariant |
| WorkflowMachine.Workflow.Run | src/workflow/workflow-factory.ts:142-157 | RUN produces `Scheduler.Next` for RUN and keeps the invariant |
| WorkflowMachine.Workflow.Stop | src/workflow/workflow-factory.ts:159 | STOP produces `Scheduler.Next` for STOP and keeps the invariant |
| WorkflowMachine.Workflow.UpdateCurrentStep | src/workflow/workflow-factory.ts:144-152 | `currentStep.UPDATE` produces `Scheduler.Next` for it and keeps the invariant |
| WorkflowMachine.Workflow.SendToStep | src/workflow/workflow-factory.ts:170-183 | an event to one actor, then the scheduler's reaction to its answer, produce `Scheduler.Next` and keep the invariant |

## Left out

- **UI.** `src/App.tsx` and `src/Step.tsx` are not part of this model: they hold React rendering, buttons, timers and the unused `softDeps`, `outdatable` and `disableProcessFromStates` fields.
- **The xstate and React runtime.**
  - The runtime itself (`Machine`, `spawn`, `sendParent`, `useMachine`, `useMemo`, `console.log`) is left out. Sends are synchronous calls, and a notification is an explicit return value.
  - Mailbox ordering across several pending notifications is not modelled.
- **Step `process` callbacks.** They are foreign asynchronous functions that the factory never forwards to a step actor. VALID and INVALID reach an actor only as external events (`Scheduler.Input.STEP_EVENT`).
- **The duplicate START.** `handleStepComplete` sends START both directly and as a queued action. It is modelled once; `SchedulerProperties.StartSweepIdempotent` shows that the second has no effect.
- **Actions returned by `pure`.** The model applies the `assign` that `handleStepComplete` returns as a queued action.
- **UPDATE payloads.** A `currentStep.UPDATE` value is either an integer or a string. Fractional and other JavaScript values are not modelled.
- **PROCESS past the last node.** It is addressed to `context['']`, which holds no actor, so the model sends nothing (`RunTarget` is `None`). The scheduler stays in `process` until STOP or another step's notification.
- **STEP_OUTDATED in `idle`.** Its handler is empty, so it is modelled as an ignored notification.
- **Features the code lacks** are not modelled:
  - soft-dependency links;
  - outdate propagation;
  - a workflow `locked` state;
  - scheduler handlers for STEP_SKIP, STEP_TOUCHED, STEP_PROCESSING and STEP_OUTDATED.
- **Numbers are unbounded.** JavaScript numbers are doubles, and integer indices beyond 2^53 are not modelled.
