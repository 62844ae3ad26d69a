/**
 * The lifecycle of one workflow step (src/stepMachine.ts): a closed table of
 * nine states and nine events whose guards read an immutable context, and
 * whose entry actions notify the parent scheduler.
 *
 * Events and notifications keep the source's upper-case tags; they are what
 * the actors and the scheduler send each other.
 */
module StepMachine {
  import opened Wrappers

  datatype StepState =
    | Initial | Ready | Outdatable | Touched | Processing
    | Complete | Invalid | Outdated | Locked

  datatype StepEvent =
    | START | OUTDATABLE | TOUCH | PROCESS | RESET | VALID | INVALID | OUTDATE | LOCK

  /** What an actor sends to its parent; STEP_SKIP is sent without the step's id. */
  datatype Notification =
    | STEP_TOUCHED(id: string)
    | STEP_PROCESSING(id: string)
    | STEP_COMPLETE(id: string)
    | STEP_INVALID(id: string)
    | STEP_OUTDATED(id: string)
    | STEP_SKIP

  /** The guard context: whether a complete step is reprocessed, and the states processing may not start from. */
  datatype StepContext = StepContext(alwaysProcess: bool, disableProcessFromStates: seq<StepState>)

  /** The values the factory puts under a caller's partial context. */
  const DefaultContext := StepContext(false, [])

  /** The state an event leads to and the notification it sends, if any. */
  datatype Outcome = Outcome(next: StepState, note: Option<Notification>)

  /** One entry of a guarded transition list: its guard and what it does. */
  datatype Candidate = Candidate(guard: bool, outcome: Outcome)

  predicate Disabled(ctx: StepContext, s: StepState) {
    s in ctx.disableProcessFromStates
  }

  /** The notification the entry action of `s` sends; states without an entry action send none. */
  function EntryNote(s: StepState, id: string): (r: Option<Notification>)
    ensures r.Some? <==> s in {Touched, Processing, Complete, Invalid, Outdated}
    ensures r.Some? ==> r.value != STEP_SKIP && r.value.id == id
  {
    match s
    case Touched => Some(STEP_TOUCHED(id))
    case Processing => Some(STEP_PROCESSING(id))
    case Complete => Some(STEP_COMPLETE(id))
    case Invalid => Some(STEP_INVALID(id))
    case Outdated => Some(STEP_OUTDATED(id))
    case _ => None
  }

  /** A transition into `s`, which runs the entry action of `s`. */
  function Enter(s: StepState, id: string): Outcome {
    Outcome(s, EntryNote(s, id))
  }

  /** An event the current state has no transition for: nothing happens. */
  function Ignore(s: StepState): Outcome {
    Outcome(s, None)
  }

  /** xstate takes the first candidate whose guard holds; when none does the event is ignored. */
  function FirstEnabled(candidates: seq<Candidate>, otherwise: Outcome): (r: Outcome)
    ensures forall i | 0 <= i < |candidates| && candidates[i].guard &&
      (forall j | 0 <= j < i :: !candidates[j].guard) :: r == candidates[i].outcome
    ensures (forall i :: 0 <= i < |candidates| ==> !candidates[i].guard) ==> r == otherwise
    ensures r == otherwise || exists i :: 0 <= i < |candidates| && candidates[i].guard && r == candidates[i].outcome
  {
    if candidates == [] then otherwise
    else if candidates[0].guard then candidates[0].outcome
    else FirstEnabled(candidates[1..], otherwise)
  }

  /** PROCESS in `ready`, `outdatable`, `invalid` and `outdated`. */
  function ProcessCandidates(ctx: StepContext, id: string, s: StepState): seq<Candidate> {
    [ Candidate(!Disabled(ctx, s), Enter(Processing, id)),
      Candidate(Disabled(ctx, s), Outcome(s, Some(STEP_INVALID(id)))) ]
  }

  /** PROCESS in `complete`: reprocess, refuse, or skip. */
  function CompleteProcessCandidates(ctx: StepContext, id: string): seq<Candidate> {
    [ Candidate(ctx.alwaysProcess && !Disabled(ctx, Complete), Enter(Processing, id)),
      Candidate(ctx.alwaysProcess && Disabled(ctx, Complete), Outcome(Complete, Some(STEP_INVALID(id)))),
      Candidate(!ctx.alwaysProcess, Outcome(Complete, Some(STEP_SKIP))) ]
  }

  /** Exactly one guard of the list holds. */
  predicate ExactlyOneEnabled(candidates: seq<Candidate>) {
    exists i :: 0 <= i < |candidates| && candidates[i].guard &&
      forall j :: 0 <= j < |candidates| && j != i ==> !candidates[j].guard
  }

  /**
   * The transition table of the actor for step `id`. A state change always
   * sends the entry notification of the new state and nothing else; an event
   * that leaves the state alone sends nothing, except PROCESS refused by a
   * guard (STEP_INVALID) or skipped in `complete` (STEP_SKIP).
   */
  function Transition(ctx: StepContext, id: string, s: StepState, e: StepEvent): (r: Outcome)
    ensures r.next != s ==> r.note == EntryNote(r.next, id)
    ensures r.next == s && r.note.Some? ==>
      e == PROCESS && (r.note.value == STEP_INVALID(id) || (s == Complete && r.note.value == STEP_SKIP))
  {
    match s
    case Initial =>
      (match e
       case START => Enter(Ready, id)
       case OUTDATABLE => Enter(Outdatable, id)
       case _ => Ignore(s))
    case Ready =>
      (match e
       case PROCESS => FirstEnabled(ProcessCandidates(ctx, id, Ready), Ignore(s))
       case TOUCH => Enter(Touched, id)
       case OUTDATABLE => Enter(Outdatable, id)
       case _ => Ignore(s))
    case Outdatable =>
      (match e
       case PROCESS => FirstEnabled(ProcessCandidates(ctx, id, Outdatable), Ignore(s))
       case TOUCH => Enter(Touched, id)
       case OUTDATE => Enter(Outdated, id)
       case _ => Ignore(s))
    case Touched =>
      (match e
       case PROCESS => Enter(Processing, id)
       case RESET => Enter(Ready, id)
       case _ => Ignore(s))
    case Processing =>
      (match e
       case VALID => Enter(Complete, id)
       case INVALID => Enter(Invalid, id)
       case _ => Ignore(s))
    case Complete =>
      (match e
       case OUTDATE => Enter(Outdated, id)
       case PROCESS => FirstEnabled(CompleteProcessCandidates(ctx, id), Ignore(s))
       case TOUCH => Enter(Touched, id)
       case LOCK => Enter(Locked, id)
       case _ => Ignore(s))
    case Invalid =>
      (match e
       case OUTDATE => Enter(Outdated, id)
       case PROCESS => FirstEnabled(ProcessCandidates(ctx, id, Invalid), Ignore(s))
       case TOUCH => Enter(Touched, id)
       case _ => Ignore(s))
    case Outdated =>
      (match e
       case PROCESS => FirstEnabled(ProcessCandidates(ctx, id, Outdated), Ignore(s))
       case TOUCH => Enter(Touched, id)
       case _ => Ignore(s))
    case Locked => Ignore(s)
  }

  // ---------------------------------------------------------------------
  // Facts about single transitions
  // ---------------------------------------------------------------------

  /** From `initial` only START and OUTDATABLE move the actor, and neither sends anything. */
  lemma InitialOnlyUnlocks(ctx: StepContext, id: string, e: StepEvent)
    ensures Transition(ctx, id, Initial, e) ==
      if e == START then Outcome(Ready, None)
      else if e == OUTDATABLE then Outcome(Outdatable, None)
      else Outcome(Initial, None)
  {
  }

  /** START moves `initial` to `ready` and is ignored everywhere else. */
  lemma StartOnlyUnlocksInitial(ctx: StepContext, id: string, s: StepState)
    ensures Transition(ctx, id, s, START) == if s == Initial then Outcome(Ready, None) else Outcome(s, None)
  {
  }

  /** No transition leads back into `initial`. */
  lemma NothingEntersInitial(ctx: StepContext, id: string, s: StepState, e: StepEvent)
    ensures Transition(ctx, id, s, e).next == Initial ==> s == Initial
  {
  }

  /**
   * PROCESS in `ready`, `outdatable`, `invalid` and `outdated`: the two guards
   * are complementary, and the step starts processing unless its state is
   * disabled, in which case it stays and reports STEP_INVALID.
   */
  lemma GuardedProcess(ctx: StepContext, id: string, s: StepState)
    requires s in {Ready, Outdatable, Invalid, Outdated}
    ensures ExactlyOneEnabled(ProcessCandidates(ctx, id, s))
    ensures Transition(ctx, id, s, PROCESS) ==
      if s in ctx.disableProcessFromStates then Outcome(s, Some(STEP_INVALID(id)))
      else Outcome(Processing, Some(STEP_PROCESSING(id)))
  {
    var cs := ProcessCandidates(ctx, id, s);
    var i := if Disabled(ctx, s) then 1 else 0;
    assert cs[i].guard && forall j :: 0 <= j < |cs| && j != i ==> !cs[j].guard;
  }

  /** PROCESS in `complete`: three exclusive and exhaustive outcomes. */
  lemma CompleteProcess(ctx: StepContext, id: string)
    ensures ExactlyOneEnabled(CompleteProcessCandidates(ctx, id))
    ensures Transition(ctx, id, Complete, PROCESS) ==
      if ctx.alwaysProcess && Complete !in ctx.disableProcessFromStates then Outcome(Processing, Some(STEP_PROCESSING(id)))
      else if ctx.alwaysProcess then Outcome(Complete, Some(STEP_INVALID(id)))
      else Outcome(Complete, Some(STEP_SKIP))
  {
    var cs := CompleteProcessCandidates(ctx, id);
    var i := if !ctx.alwaysProcess then 2 else if Disabled(ctx, Complete) then 1 else 0;
    assert cs[i].guard && forall j :: 0 <= j < |cs| && j != i ==> !cs[j].guard;
  }

  /** Under the default context PROCESS always starts work, except in `complete`, where it skips. */
  lemma DefaultContextProcess(id: string, s: StepState)
    ensures s in {Ready, Outdatable, Touched, Invalid, Outdated} ==>
      Transition(DefaultContext, id, s, PROCESS) == Outcome(Processing, Some(STEP_PROCESSING(id)))
    ensures Transition(DefaultContext, id, Complete, PROCESS) == Outcome(Complete, Some(STEP_SKIP))
  {
    CompleteProcess(DefaultContext, id);
  }

  /** `processing` is left only by VALID (to `complete`) or INVALID (to `invalid`). */
  lemma ProcessingExits(ctx: StepContext, id: string, e: StepEvent)
    ensures Transition(ctx, id, Processing, e).next ==
      if e == VALID then Complete else if e == INVALID then Invalid else Processing
  {
  }

  /** `touched` accepts only PROCESS (unguarded) and RESET. */
  lemma TouchedExits(ctx: StepContext, id: string, e: StepEvent)
    ensures Transition(ctx, id, Touched, e).next ==
      if e == PROCESS then Processing else if e == RESET then Ready else Touched
  {
  }

  /** OUTDATE moves `outdatable`, `complete` and `invalid` to `outdated` and is ignored elsewhere. */
  lemma OutdateTargets(ctx: StepContext, id: string, s: StepState)
    ensures Transition(ctx, id, s, OUTDATE).next ==
      if s in {Outdatable, Complete, Invalid} then Outdated else s
  {
  }

  /** `locked` is final; the only way in is LOCK from `complete`. */
  lemma LockedIsFinal(ctx: StepContext, id: string, s: StepState, e: StepEvent)
    ensures Transition(ctx, id, Locked, e) == Outcome(Locked, None)
    ensures s != Locked && Transition(ctx, id, s, e).next == Locked ==> s == Complete && e == LOCK
  {
  }

  // ---------------------------------------------------------------------
  // Event sequences
  // ---------------------------------------------------------------------

  /** The states an actor passes through, starting in `s`, as it receives `es` in order. */
  function Trace(ctx: StepContext, id: string, s: StepState, es: seq<StepEvent>): (t: seq<StepState>)
    ensures |t| == |es| + 1 && t[0] == s
    decreases |es|
  {
    if es == [] then [s] else [s] + Trace(ctx, id, Transition(ctx, id, s, es[0]).next, es[1..])
  }

  /** Each state of a trace is the transition of the previous one on the event between them. */
  lemma {:induction false} TraceStep(ctx: StepContext, id: string, s: StepState, es: seq<StepEvent>, i: nat)
    requires i < |es|
    ensures Trace(ctx, id, s, es)[i + 1] == Transition(ctx, id, Trace(ctx, id, s, es)[i], es[i]).next
    decreases i
  {
    if i > 0 {
      TraceStep(ctx, id, Transition(ctx, id, s, es[0]).next, es[1..], i - 1);
    }
  }

  /** Once locked, an actor stays locked whatever it receives. */
  lemma {:induction false} LockedForever(ctx: StepContext, id: string, es: seq<StepEvent>)
    ensures forall i :: 0 <= i < |Trace(ctx, id, Locked, es)| ==> Trace(ctx, id, Locked, es)[i] == Locked
    decreases |es|
  {
    if es != [] {
      LockedForever(ctx, id, es[1..]);
    }
  }

  /** Once out of `initial`, a trace never returns to it. */
  lemma {:induction false} NeverBackToInitial(ctx: StepContext, id: string, s: StepState, es: seq<StepEvent>, i: nat, j: nat)
    requires i <= j <= |es|
    requires Trace(ctx, id, s, es)[i] != Initial
    ensures Trace(ctx, id, s, es)[j] != Initial
    decreases j - i
  {
    if i < j {
      NeverBackToInitial(ctx, id, s, es, i, j - 1);
      TraceStep(ctx, id, s, es, j - 1);
      NothingEntersInitial(ctx, id, Trace(ctx, id, s, es)[j - 1], es[j - 1]);
    }
  }

  /** Position `j` of trace `t` is the first one out of `initial`, and it is `ready` or `outdatable`. */
  ghost predicate FirstUnlock(t: seq<StepState>, j: int) {
    0 < j < |t| && t[j] in {Ready, Outdatable} &&
    forall k :: 0 <= k < j ==> t[k] == Initial
  }

  /** An actor leaves `initial` only into `ready` or `outdatable`. */
  lemma {:induction false} LeavingInitial(ctx: StepContext, id: string, es: seq<StepEvent>, i: nat)
    requires i <= |es|
    requires Trace(ctx, id, Initial, es)[i] != Initial
    ensures exists j :: j <= i && FirstUnlock(Trace(ctx, id, Initial, es), j)
    decreases i
  {
    var t := Trace(ctx, id, Initial, es);
    assert i > 0;
    if t[i - 1] != Initial {
      LeavingInitial(ctx, id, es, i - 1);
    } else {
      TraceStep(ctx, id, Initial, es, i - 1);
      InitialOnlyUnlocks(ctx, id, es[i - 1]);
      forall k | 0 <= k < i
        ensures t[k] == Initial
      {
        if t[k] != Initial {
          NeverBackToInitial(ctx, id, Initial, es, k, i - 1);
        }
      }
      assert FirstUnlock(t, i);
    }
  }

  /** No event sequence takes an actor from `initial` to `processing` without passing `ready` or `outdatable`. */
  lemma ProcessingNeedsUnlock(ctx: StepContext, id: string, es: seq<StepEvent>, i: nat)
    requires i <= |es|
    requires Trace(ctx, id, Initial, es)[i] == Processing
    ensures exists j :: 0 < j < i && Trace(ctx, id, Initial, es)[j] in {Ready, Outdatable}
  {
    LeavingInitial(ctx, id, es, i);
    var j :| j <= i && FirstUnlock(Trace(ctx, id, Initial, es), j);
    assert Trace(ctx, id, Initial, es)[j] in {Ready, Outdatable};
  }

  /** An actor not yet locked becomes locked only by LOCK received in `complete`. */
  lemma {:induction false} LockedOnlyAfterLock(ctx: StepContext, id: string, s: StepState, es: seq<StepEvent>, i: nat)
    requires s != Locked && i <= |es|
    requires Trace(ctx, id, s, es)[i] == Locked
    ensures exists j :: 0 <= j < i && Trace(ctx, id, s, es)[j] == Complete && es[j] == LOCK
    decreases i
  {
    var t := Trace(ctx, id, s, es);
    assert i > 0;
    if t[i - 1] == Locked {
      LockedOnlyAfterLock(ctx, id, s, es, i - 1);
    } else {
      TraceStep(ctx, id, s, es, i - 1);
      LockedIsFinal(ctx, id, t[i - 1], es[i - 1]);
      assert t[i - 1] == Complete && es[i - 1] == LOCK;
    }
  }
}
