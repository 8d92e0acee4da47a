/** `consultation_state`, the module-level record of the one backend
    operation (knowledge-base query or appointment) in progress, and the
    feedback ticker that speaks while it runs. The asyncio tasks become
    objects whose steps the caller runs one at a time; event-loop times
    become whole seconds. */
module Operation {
  import opened Wrappers
  import opened Kinds
  import Replies

  // ---- the feedback ticker, as a function ----

  /** Where the ticker is: sleeping before its first message, before its
      second, inside its patience loop, or ended (finished or cancelled). */
  datatype Phase = AwaitInitial | AwaitProcessing | PatienceLoop | Finished

  /** One wake-up of the ticker, seeing whether the operation is still active
      and whether a session is there to speak in: its next phase and the stage
      it records, if it speaks. After the second message, and after every
      patience message, it goes on only while the operation is active. */
  function TickerStep(p: Phase, active: bool, session: bool): (r: (Phase, Option<Stage>))
    ensures r.1.Some? <==> active && session && p != Finished
    ensures r.0 == Finished <==> p == Finished || (!active && p != AwaitInitial)
  {
    var speaks := active && session;
    match p
    case AwaitInitial => (AwaitProcessing, if speaks then Some(Initial) else None)
    case AwaitProcessing => (if active then PatienceLoop else Finished, if speaks then Some(Processing) else None)
    case PatienceLoop => (if active then PatienceLoop else Finished, if speaks then Some(Patience) else None)
    case Finished => (Finished, None)
  }

  function Recorded(s: Option<Stage>): seq<Stage>
  {
    if s.Some? then [s.value] else []
  }

  /** The stages recorded by a ticker in phase `p` woken once per
      observation. */
  function Stages(p: Phase, observations: seq<(bool, bool)>): seq<Stage>
    decreases |observations|
  {
    if observations == [] then []
    else
      var step := TickerStep(p, observations[0].0, observations[0].1);
      Recorded(step.1) + Stages(step.0, observations[1..])
  }

  function Rank(s: Stage): int
  {
    match s
    case Initial => 0
    case Processing => 1
    case Patience => 2
  }

  /** Initial at most once, then Processing at most once, then any number of
      Patience: ranks never go down, and only Patience repeats. */
  predicate StagesOrdered(s: seq<Stage>)
  {
    forall i, j :: 0 <= i < j < |s| ==> Rank(s[i]) <= Rank(s[j]) && (s[i] == s[j] ==> s[i] == Patience)
  }

  /** A stage may already be recorded when the ticker is in phase `p`. */
  predicate RecordedBefore(s: Stage, p: Phase)
  {
    match p
    case AwaitInitial => false
    case AwaitProcessing => s == Initial
    case PatienceLoop => true
    case Finished => true
  }

  /** A stage a ticker in phase `p` may record from now on. */
  predicate RecordableFrom(s: Stage, p: Phase)
  {
    match p
    case AwaitInitial => true
    case AwaitProcessing => s != Initial
    case PatienceLoop => s == Patience
    case Finished => false
  }

  /** Whatever a ticker records from phase `p` on is in order and could not
      have been recorded before `p`. */
  lemma {:induction false} StagesFromPhase(p: Phase, observations: seq<(bool, bool)>)
    ensures StagesOrdered(Stages(p, observations))
    ensures forall i :: 0 <= i < |Stages(p, observations)| ==> RecordableFrom(Stages(p, observations)[i], p)
    decreases |observations|
  {
    if observations != [] {
      var step := TickerStep(p, observations[0].0, observations[0].1);
      StagesFromPhase(step.0, observations[1..]);
      var rest := Stages(step.0, observations[1..]);
      assert Stages(p, observations) == Recorded(step.1) + rest;
    }
  }

  /** A fresh ticker records Initial, Processing, Patience... in that order,
      each of the first two at most once, whatever it observes. */
  lemma TickerOrder(observations: seq<(bool, bool)>)
    ensures StagesOrdered(Stages(AwaitInitial, observations))
  {
    StagesFromPhase(AwaitInitial, observations);
  }

  /** A ticker that sees the operation inactive records nothing more: it
      stops at the end of the step, or (before its second message) one step
      later. */
  lemma {:induction false} InactiveTickerIsSilent(p: Phase, observations: seq<(bool, bool)>)
    requires forall i :: 0 <= i < |observations| ==> !observations[i].0
    ensures Stages(p, observations) == []
    decreases |observations|
  {
    if observations != [] {
      var step := TickerStep(p, observations[0].0, observations[0].1);
      InactiveTickerIsSilent(step.0, observations[1..]);
    }
  }

  /** A query that runs through three wake-ups hears the three kinds of
      message once each, in order. */
  lemma ThreeWakeUps()
    ensures Stages(AwaitInitial, [(true, true), (true, true), (true, true)]) == [Initial, Processing, Patience]
  {
    var obs := [(true, true), (true, true), (true, true)];
    assert obs[1..][1..][1..] == [];
  }

  // ---- the ticker and the state, as objects ----

  /** `controlled_feedback`: the asyncio task that speaks while an operation
      runs. */
  class FeedbackTicker {
    var phase: Phase

    constructor()
      ensures phase == AwaitInitial
    {
      phase := AwaitInitial;
    }

    /** `feedback_task.cancel()`: the task ends at its next await. */
    method Cancel()
      modifies this
      ensures phase == Finished
    {
      phase := Finished;
    }

    /** The ticker wakes from its sleep: it speaks and records its stage when
        the operation is still active and a session is there, then moves on
        as `TickerStep` says. A ticker still running belongs to the current
        operation, unless no operation is active. */
    method Wake(state: ConsultationState, session: bool) returns (spoke: bool)
      requires state.Valid()
      requires phase != Finished ==> state.feedbackTask == this || !state.isActive
      modifies this, state
      ensures state.Valid()
      ensures (phase, if spoke then Some(StageOf(old(phase))) else None)
              == TickerStep(old(phase), old(state.isActive), session)
      ensures state.feedbackSent == old(state.feedbackSent) + Recorded(TickerStep(old(phase), old(state.isActive), session).1)
      ensures state.isActive == old(state.isActive) && state.currentQuery == old(state.currentQuery)
      ensures state.operationType == old(state.operationType) && state.startTime == old(state.startTime)
      ensures state.task == old(state.task) && state.feedbackTask == old(state.feedbackTask)
      ensures state.lastCompleted == old(state.lastCompleted)
    {
      var step := TickerStep(phase, state.isActive, session);
      spoke := step.1.Some?;
      if spoke {
        state.feedbackSent := state.feedbackSent + [step.1.value];
      }
      phase := step.0;
      assert state.feedbackTask == this ==> forall i :: 0 <= i < |state.feedbackSent| ==> RecordedBefore(state.feedbackSent[i], phase);
    }
  }

  /** The stage a ticker in phase `p` records when it speaks. */
  function StageOf(p: Phase): Stage
  {
    match p
    case AwaitInitial => Initial
    case AwaitProcessing => Processing
    case _ => Patience
  }

  class ConsultationState {
    var isActive: bool
    var currentQuery: Option<string>
    var operationType: Option<OperationType>
    var startTime: Option<int>
    /** The backend call's task, by number. */
    var task: Option<nat>
    var feedbackTask: FeedbackTicker?
    var feedbackSent: seq<Stage>
    var lastCompleted: Option<int>

    /** An active operation has all its fields set; an inactive one none of
        them; the recorded stages are in order and agree with the phase of
        the operation's ticker. */
    predicate Valid()
      reads this, feedbackTask
    {
      && (isActive ==> currentQuery.Some? && operationType.Some? && startTime.Some?
                       && task.Some? && feedbackTask != null)
      && (!isActive ==> currentQuery.None? && operationType.None? && startTime.None?
                        && task.None? && feedbackTask == null && feedbackSent == [])
      && StagesOrdered(feedbackSent)
      && (feedbackTask != null ==>
            forall i :: 0 <= i < |feedbackSent| ==> RecordedBefore(feedbackSent[i], feedbackTask.phase))
    }

    /** The module-level dictionary as the program starts. */
    constructor()
      ensures Valid() && !isActive && lastCompleted.None?
    {
      isActive := false;
      currentQuery := None;
      operationType := None;
      startTime := None;
      task := None;
      feedbackTask := null;
      feedbackSent := [];
      lastCompleted := None;
    }

    /** A tool starts an operation: the state is overwritten, a new ticker
        is started and the backend call is launched. The time of the last
        completion is kept. */
    method Start(query: string, op: OperationType, now: int, taskId: nat) returns (ticker: FeedbackTicker)
      requires Valid()
      modifies this
      ensures Valid() && fresh(ticker) && ticker.phase == AwaitInitial
      ensures isActive && currentQuery == Some(query) && operationType == Some(op)
      ensures startTime == Some(now) && task == Some(taskId) && feedbackTask == ticker
      ensures feedbackSent == [] && lastCompleted == old(lastCompleted)
    {
      isActive, currentQuery, operationType, startTime := true, Some(query), Some(op), Some(now);
      task, feedbackTask, feedbackSent := None, null, [];
      ticker := new FeedbackTicker();
      feedbackTask := ticker;
      task := Some(taskId);
    }

    /** A new request while an operation is active: the ticker is
        cancelled (and not restarted) and only the query and its type are
        replaced; the running backend call is then awaited. */
    method Supersede(query: string, op: OperationType)
      requires Valid() && isActive
      modifies this, feedbackTask
      ensures Valid()
      ensures currentQuery == Some(query) && operationType == Some(op)
      ensures feedbackTask == old(feedbackTask) && feedbackTask.phase == Finished
      ensures isActive && startTime == old(startTime) && task == old(task)
      ensures feedbackSent == old(feedbackSent) && lastCompleted == old(lastCompleted)
    {
      feedbackTask.Cancel();
      currentQuery := Some(query);
      operationType := Some(op);
    }

    /** The `finally` of a tool: the ticker is cancelled and every field
        cleared; the completion time is recorded. */
    method Teardown(now: int)
      requires Valid()
      modifies this, feedbackTask
      ensures Valid() && !isActive
      ensures currentQuery.None? && operationType.None? && startTime.None? && task.None?
      ensures feedbackTask == null && feedbackSent == [] && lastCompleted == Some(now)
      ensures old(feedbackTask) != null ==> old(feedbackTask).phase == Finished
    {
      if feedbackTask != null {
        feedbackTask.Cancel();
      }
      isActive, currentQuery, operationType, startTime := false, None, None, None;
      task, feedbackTask, lastCompleted, feedbackSent := None, null, Some(now), [];
    }

    /** The end of a call: every field cleared except the completion time;
        the ticker is not cancelled. */
    method SessionEnd()
      requires Valid()
      modifies this
      ensures Valid() && !isActive
      ensures currentQuery.None? && operationType.None? && startTime.None? && task.None?
      ensures feedbackTask == null && feedbackSent == [] && lastCompleted == old(lastCompleted)
    {
      isActive, currentQuery, operationType, task, feedbackTask, startTime, feedbackSent :=
        false, None, None, None, null, None, [];
    }

    /** What `handle_user_impatience` answers at time `now`. */
    function ImpatienceAnswer(now: int): (r: string)
      requires Valid()
      reads this, feedbackTask
      ensures !isActive ==> r == Replies.IdleHelpReply
    {
      if isActive then
        Replies.ImpatienceReply(true, operationType, (now - startTime.value) as real)
      else
        Replies.ImpatienceReply(false, None, 0.0)
    }
  }

  /** A query from start to teardown: three wake-ups of its ticker record
      the three stages in order; afterwards nothing of the query is left but
      its completion time. */
  method QueryLifecycle() returns (during: seq<Stage>, after: seq<Stage>, active: bool, completed: Option<int>)
    ensures during == [Initial, Processing, Patience]
    ensures after == [] && !active && completed == Some(20)
  {
    var state := new ConsultationState();
    var ticker := state.Start("¿Qué servicios ofrecen?", Rag, 0, 1);
    var spoke := ticker.Wake(state, true);
    spoke := ticker.Wake(state, true);
    spoke := ticker.Wake(state, true);
    during := state.feedbackSent;
    state.Teardown(20);
    after, active, completed := state.feedbackSent, state.isActive, state.lastCompleted;
  }

  /** A superseded operation's ticker stays silent: the new request is not
      given feedback of its own. */
  method SupersededTickerIsSilent() returns (spoke: bool, stages: seq<Stage>)
    ensures !spoke && stages == [Initial]
  {
    var state := new ConsultationState();
    var ticker := state.Start("horarios", Rag, 0, 1);
    spoke := ticker.Wake(state, true);
    state.Supersede("Agendar cita para Ana el 05/08/2025 a las 10:00", Appointment);
    spoke := ticker.Wake(state, true);
    stages := state.feedbackSent;
  }
}
