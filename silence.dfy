/** The two silence monitors: `FixedConversationManager` of the current
    agent, which checks in once after a minute of silence and never while an
    operation runs, and `ConversationManager` of the earlier agent, which
    escalates through three check-ins and a closing line. Each poll of the
    monitor loop is one `Tick`; event-loop times are whole seconds. */
module Silence {
  import opened Wrappers

  /** What can happen to a monitor between two polls, in the order it
      happens: a poll of the loop (with what the shared operation state says
      at that moment), the user speaking, or the monitor being stopped. */
  datatype Event =
    | Poll(now: int, operationActive: bool, lastCompleted: Option<int>)
    | Heard(now: int)
    | Stop

  predicate NoUserActivity(events: seq<Event>)
  {
    forall i :: 0 <= i < |events| ==> !events[i].Heard?
  }

  // ---- FixedConversationManager ----

  const CheckInMessage := "¿Hay algo más en lo que pueda ayudarte?"
  const FixedMaxWarnings := 1
  const FixedCheckInSilence := 60
  const PassiveSilence := 300
  const CompletionGrace := 45

  datatype FixedState = FixedState(lastUserActivity: int, lastAgentResponse: Option<int>,
                                   warnings: nat, active: bool)

  /** What one poll does. */
  datatype FixedAction = Stopped | Deferred | CheckIn | PassiveReset | NoAction

  /** An operation finished less than 45 seconds ago; a completion time of
      zero counts as none, as a falsy value does. */
  predicate RecentlyCompleted(now: int, lastCompleted: Option<int>)
  {
    lastCompleted.Some? && lastCompleted.value != 0 && now - lastCompleted.value < CompletionGrace
  }

  function FixedDecision(s: FixedState, now: int, operationActive: bool, lastCompleted: Option<int>)
    : FixedAction
  {
    var silence := now - s.lastUserActivity;
    if !s.active then Stopped
    else if operationActive || RecentlyCompleted(now, lastCompleted) then Deferred
    else if silence >= FixedCheckInSilence && s.warnings < FixedMaxWarnings then CheckIn
    else if silence >= PassiveSilence then PassiveReset
    else NoAction
  }

  /** The monitor after one poll. */
  function FixedTick(s: FixedState, now: int, operationActive: bool, lastCompleted: Option<int>)
    : FixedState
  {
    match FixedDecision(s, now, operationActive, lastCompleted)
    case CheckIn => s.(warnings := s.warnings + 1, lastUserActivity := now, lastAgentResponse := Some(now))
    case PassiveReset => s.(warnings := 0, lastUserActivity := now)
    case _ => s
  }

  function FixedSpoken(s: FixedState, now: int, operationActive: bool, lastCompleted: Option<int>)
    : seq<string>
  {
    if FixedDecision(s, now, operationActive, lastCompleted) == CheckIn then [CheckInMessage] else []
  }

  /** `update_user_activity`. */
  function FixedHeard(s: FixedState, now: int): FixedState
  {
    s.(lastUserActivity := now, warnings := 0)
  }

  /** The monitor after a sequence of events, and everything it said. */
  function FixedRun(s: FixedState, events: seq<Event>): (FixedState, seq<string>)
    decreases |events|
  {
    if events == [] then (s, [])
    else
      var e := events[0];
      var (next, said) := match e
        case Poll(now, op, lc) => (FixedTick(s, now, op, lc), FixedSpoken(s, now, op, lc))
        case Heard(now) => (FixedHeard(s, now), [])
        case Stop => (s.(active := false), []);
      var rest := FixedRun(next, events[1..]);
      (rest.0, said + rest.1)
  }

  /** A stopped monitor leaves the loop at its next wake-up: nothing
      changes and nothing is said. */
  lemma FixedStoppedIsSilent(s: FixedState, now: int, operationActive: bool, lastCompleted: Option<int>)
    requires !s.active
    ensures FixedTick(s, now, operationActive, lastCompleted) == s
    ensures FixedSpoken(s, now, operationActive, lastCompleted) == []
  {
  }

  /** While an operation runs, or within 45 seconds of one finishing, a
      poll changes nothing and says nothing. */
  lemma FixedDefers(s: FixedState, now: int, operationActive: bool, lastCompleted: Option<int>)
    requires operationActive || RecentlyCompleted(now, lastCompleted)
    ensures FixedTick(s, now, operationActive, lastCompleted) == s
    ensures FixedSpoken(s, now, operationActive, lastCompleted) == []
  {
  }

  /** The check-in is spoken exactly when a running monitor, with no
      operation active or just finished, has heard nothing for a minute and
      has not checked in yet; it then counts the warning and restarts the
      silence. */
  lemma FixedCheckInExactly(s: FixedState, now: int, operationActive: bool, lastCompleted: Option<int>)
    ensures FixedSpoken(s, now, operationActive, lastCompleted) != []
            <==> s.active && !operationActive && !RecentlyCompleted(now, lastCompleted)
                 && now - s.lastUserActivity >= 60 && s.warnings < 1
    ensures FixedSpoken(s, now, operationActive, lastCompleted) != [] ==>
              var t := FixedTick(s, now, operationActive, lastCompleted);
              t == s.(warnings := s.warnings + 1, lastUserActivity := now, lastAgentResponse := Some(now))
  {
  }

  /** Without a check-in, five minutes of silence clear the warning without
      a word; shorter silences leave the monitor as it was. */
  lemma FixedPassiveReset(s: FixedState, now: int, operationActive: bool, lastCompleted: Option<int>)
    requires s.active && !operationActive && !RecentlyCompleted(now, lastCompleted)
    requires !(now - s.lastUserActivity >= 60 && s.warnings < 1)
    ensures FixedSpoken(s, now, operationActive, lastCompleted) == []
    ensures now - s.lastUserActivity >= 300 ==>
              FixedTick(s, now, operationActive, lastCompleted) == s.(warnings := 0, lastUserActivity := now)
    ensures now - s.lastUserActivity < 300 ==> FixedTick(s, now, operationActive, lastCompleted) == s
  {
  }

  /** The warning count never exceeds its maximum of one, whatever
      happens. */
  lemma {:induction false} FixedWarningsBounded(s: FixedState, events: seq<Event>)
    requires s.warnings <= FixedMaxWarnings
    ensures FixedRun(s, events).0.warnings <= FixedMaxWarnings
    decreases |events|
  {
    if events != [] {
      match events[0]
      case Poll(now, op, lc) => FixedWarningsBounded(FixedTick(s, now, op, lc), events[1..]);
      case Heard(now) => FixedWarningsBounded(FixedHeard(s, now), events[1..]);
      case Stop => FixedWarningsBounded(s.(active := false), events[1..]);
    }
  }

  /** Times a run passes five minutes of silence, clearing the warning. */
  function PassiveResets(s: FixedState, events: seq<Event>): nat
    decreases |events|
  {
    if events == [] then 0
    else match events[0]
      case Poll(now, op, lc) =>
        (if FixedDecision(s, now, op, lc) == PassiveReset then 1 else 0)
        + PassiveResets(FixedTick(s, now, op, lc), events[1..])
      case Heard(now) => PassiveResets(FixedHeard(s, now), events[1..])
      case Stop => PassiveResets(s.(active := false), events[1..])
  }

  /** While the user stays silent the agent checks in once, and again only
      after each five-minute passive reset: the check-ins never outnumber
      the resets by more than the warnings still allowed. */
  lemma {:induction false} OneCheckInPerSilence(s: FixedState, events: seq<Event>)
    requires s.warnings <= FixedMaxWarnings && NoUserActivity(events)
    ensures |FixedRun(s, events).1| + s.warnings
            <= PassiveResets(s, events) + FixedRun(s, events).0.warnings
    decreases |events|
  {
    if events != [] {
      assert NoUserActivity(events[1..]) by {
        forall i | 0 <= i < |events[1..]| ensures !events[1..][i].Heard? {
          assert events[1..][i] == events[i + 1];
        }
      }
      match events[0]
      case Poll(now, op, lc) => OneCheckInPerSilence(FixedTick(s, now, op, lc), events[1..]);
      case Stop => OneCheckInPerSilence(s.(active := false), events[1..]);
    }
  }

  /** The check-ins of a silent stretch, with no passive reset, are at most
      one, and none once the single warning has been used. */
  lemma AtMostOneCheckIn(s: FixedState, events: seq<Event>)
    requires s.warnings <= FixedMaxWarnings && NoUserActivity(events) && PassiveResets(s, events) == 0
    ensures |FixedRun(s, events).1| <= FixedMaxWarnings - s.warnings
  {
    OneCheckInPerSilence(s, events);
    FixedWarningsBounded(s, events);
  }

  /** `FixedConversationManager`: the session and the monitor task are not
      modelled; `Tick` is one pass of the monitor loop. */
  class FixedConversationManager {
    var lastUserActivity: int
    var lastAgentResponse: Option<int>
    var silenceWarnings: nat
    const maxSilenceWarnings: nat
    var isActive: bool

    function State(): FixedState
      reads this
    {
      FixedState(lastUserActivity, lastAgentResponse, silenceWarnings, isActive)
    }

    predicate Valid()
      reads this
    {
      maxSilenceWarnings == FixedMaxWarnings && silenceWarnings <= maxSilenceWarnings
    }

    constructor(now: int)
      ensures Valid() && State() == FixedState(now, None, 0, true)
    {
      lastUserActivity := now;
      lastAgentResponse := None;
      silenceWarnings := 0;
      maxSilenceWarnings := FixedMaxWarnings;
      isActive := true;
    }

    method StopMonitoring()
      requires Valid()
      modifies this
      ensures Valid() && State() == old(State()).(active := false)
    {
      isActive := false;
    }

    method UpdateUserActivity(now: int)
      requires Valid()
      modifies this
      ensures Valid() && State() == FixedHeard(old(State()), now)
    {
      lastUserActivity := now;
      silenceWarnings := 0;
    }

    method MarkAgentResponse(now: int)
      modifies this
      ensures lastAgentResponse == Some(now)
      ensures lastUserActivity == old(lastUserActivity) && silenceWarnings == old(silenceWarnings)
      ensures isActive == old(isActive)
    {
      lastAgentResponse := Some(now);
    }

    /** One pass of the monitor loop after its 30-second sleep. */
    method Tick(now: int, operationActive: bool, lastCompleted: Option<int>) returns (spoken: seq<string>)
      requires Valid()
      modifies this
      ensures Valid()
      ensures State() == FixedTick(old(State()), now, operationActive, lastCompleted)
      ensures spoken == FixedSpoken(old(State()), now, operationActive, lastCompleted)
    {
      spoken := [];
      if !isActive {
        return;
      }
      var silence := now - lastUserActivity;
      if operationActive {
        return;
      }
      if lastCompleted.Some? && lastCompleted.value != 0 {
        if now - lastCompleted.value < CompletionGrace {
          return;
        }
      }
      if silence >= FixedCheckInSilence && silenceWarnings < maxSilenceWarnings {
        silenceWarnings := silenceWarnings + 1;
        spoken := [CheckInMessage];
        MarkAgentResponse(now);
        lastUserActivity := now;
      } else if silence >= PassiveSilence {
        silenceWarnings := 0;
        lastUserActivity := now;
      }
    }

    /** The monitor living through a sequence of events. */
    method Monitor(events: seq<Event>) returns (spoken: seq<string>)
      requires Valid()
      modifies this
      ensures Valid()
      ensures (State(), spoken) == FixedRun(old(State()), events)
    {
      spoken := [];
      var i := 0;
      ghost var start := State();
      assert events[i..] == events;
      assert spoken + FixedRun(start, events).1 == FixedRun(start, events).1;
      while i < |events|
        invariant 0 <= i <= |events| && Valid()
        invariant FixedRun(start, events) == (FixedRun(State(), events[i..]).0, spoken + FixedRun(State(), events[i..]).1)
        decreases |events| - i
      {
        ghost var before, said0 := State(), spoken;
        assert events[i..][1..] == events[i + 1..];
        var said: seq<string> := [];
        match events[i] {
          case Poll(now, op, lc) =>
            said := Tick(now, op, lc);
            spoken := spoken + said;
          case Heard(now) =>
            UpdateUserActivity(now);
          case Stop =>
            StopMonitoring();
        }
        ghost var rest := FixedRun(State(), events[i + 1..]);
        assert FixedRun(before, events[i..]) == (rest.0, said + rest.1);
        assert said0 + (said + rest.1) == spoken + rest.1;
        i := i + 1;
      }
      assert events[i..] == [] && spoken + [] == spoken;
    }
  }

  // ---- ConversationManager (earlier agent) ----

  const LegacyMaxWarnings := 3
  const LegacyWarnSilence := 15
  const LegacyFinalSilence := 60

  const LegacyMessages: seq<string> := [
    "¿Sigues ahí? ¿Necesitas ayuda con algo más?",
    "¿Todo está bien? Estoy aquí para ayudarte.",
    "¿Hay algo en lo que pueda asistirte?",
    "Si necesitas un momento para revisar la información, no hay problema. Estoy aquí cuando estés listo.",
    "¿Te gustaría que repita alguna información?"
  ]

  const LegacyFinalMessage := "Estaré aquí cuando necesites ayuda. Puedes hablar cuando gustes."

  datatype LegacyState = LegacyState(lastUserActivity: int, warnings: nat, active: bool)

  function Min(a: int, b: int): int
  {
    if a <= b then a else b
  }

  /** The check-in to speak as warning number `count` (counted from one). */
  function MessageIndex(count: int): (k: int)
    ensures 1 <= count ==> 0 <= k < |LegacyMessages| && k <= count - 1
  {
    Min(count - 1, |LegacyMessages| - 1)
  }

  datatype LegacyAction = Quit | Warn | Final | Wait

  function LegacyDecision(s: LegacyState, now: int): LegacyAction
  {
    var silence := now - s.lastUserActivity;
    if !s.active then Quit
    else if silence >= LegacyWarnSilence && s.warnings < LegacyMaxWarnings then Warn
    else if silence >= LegacyFinalSilence && s.warnings >= LegacyMaxWarnings then Final
    else Wait
  }

  function LegacyTick(s: LegacyState, now: int): (r: LegacyState)
    ensures r.active == s.active
    ensures s.warnings <= LegacyMaxWarnings ==> r.warnings <= LegacyMaxWarnings
  {
    match LegacyDecision(s, now)
    case Warn => s.(warnings := s.warnings + 1, lastUserActivity := now)
    case Final => s.(warnings := 0, lastUserActivity := now)
    case _ => s
  }

  function LegacySpoken(s: LegacyState, now: int): (r: seq<string>)
    ensures |r| <= 1
    ensures r != [] ==> s.active && now - s.lastUserActivity >= LegacyWarnSilence
  {
    match LegacyDecision(s, now)
    case Warn =>
      var k := MessageIndex(s.warnings + 1);
      if 0 <= k < |LegacyMessages| then [LegacyMessages[k]] else []
    case Final => [LegacyFinalMessage]
    case _ => []
  }

  function LegacyHeard(s: LegacyState, now: int): LegacyState
  {
    s.(lastUserActivity := now, warnings := 0)
  }

  function LegacyRun(s: LegacyState, events: seq<Event>): (LegacyState, seq<string>)
    decreases |events|
  {
    if events == [] then (s, [])
    else
      var (next, said) := match events[0]
        case Poll(now, _, _) => (LegacyTick(s, now), LegacySpoken(s, now))
        case Heard(now) => (LegacyHeard(s, now), [])
        case Stop => (s.(active := false), []);
      var rest := LegacyRun(next, events[1..]);
      (rest.0, said + rest.1)
  }

  /** The message index is always within the five messages, and with at
      most three warnings only the first three are ever spoken: warning
      number `w + 1` speaks message `w`. */
  lemma MessageIndexInBounds(warnings: nat)
    requires warnings < LegacyMaxWarnings
    ensures MessageIndex(warnings + 1) == warnings
    ensures 0 <= MessageIndex(warnings + 1) < 3 < |LegacyMessages|
  {
  }

  /** A warning is spoken exactly when a running monitor has heard nothing
      for 15 seconds and has warned fewer than three times; it is the next
      message of the first three, and it counts one more warning and
      restarts the silence. */
  lemma LegacyWarningStep(s: LegacyState, now: int)
    requires s.warnings <= LegacyMaxWarnings
    ensures (s.active && now - s.lastUserActivity >= 15 && s.warnings < 3)
            <==> LegacySpoken(s, now) != [] && LegacySpoken(s, now)[0] in LegacyMessages[..3]
    ensures s.active && now - s.lastUserActivity >= 15 && s.warnings < 3 ==>
              && LegacySpoken(s, now) == [LegacyMessages[s.warnings]]
              && LegacyTick(s, now) == s.(warnings := s.warnings + 1, lastUserActivity := now)
  {
    if s.active && now - s.lastUserActivity >= 15 && s.warnings < 3 {
      MessageIndexInBounds(s.warnings);
    } else if LegacySpoken(s, now) != [] {
      assert LegacySpoken(s, now) == [LegacyFinalMessage];
      FinalIsNoWarning();
    }
  }

  lemma FinalIsNoWarning()
    ensures LegacyFinalMessage !in LegacyMessages[..3]
  {
    assert |LegacyFinalMessage| == 64;
    assert |LegacyMessages[0]| == 43 && |LegacyMessages[1]| == 42 && |LegacyMessages[2]| == 36;
  }

  /** After three warnings and a minute of silence, the closing line is
      spoken and the monitor starts over. */
  lemma LegacyFinalStep(s: LegacyState, now: int)
    requires s.active && s.warnings >= 3 && now - s.lastUserActivity >= 60
    ensures LegacySpoken(s, now) == [LegacyFinalMessage]
    ensures LegacyTick(s, now) == s.(warnings := 0, lastUserActivity := now)
  {
  }

  /** A stopped monitor does nothing when it wakes. */
  lemma LegacyStoppedIsSilent(s: LegacyState, now: int)
    requires !s.active
    ensures LegacyTick(s, now) == s && LegacySpoken(s, now) == []
  {
  }

  /** The warning count never exceeds its maximum of three, whatever
      happens. */
  lemma {:induction false} LegacyWarningsBounded(s: LegacyState, events: seq<Event>)
    requires s.warnings <= LegacyMaxWarnings
    ensures LegacyRun(s, events).0.warnings <= LegacyMaxWarnings
    decreases |events|
  {
    if events != [] {
      match events[0]
      case Poll(now, _, _) => LegacyWarningsBounded(LegacyTick(s, now), events[1..]);
      case Heard(now) => LegacyWarningsBounded(LegacyHeard(s, now), events[1..]);
      case Stop => LegacyWarningsBounded(s.(active := false), events[1..]);
    }
  }

  /** A caller who says nothing from time `t0` on hears the three check-ins
      15, 30 and 45 seconds later, then the closing line once a minute has
      passed since the last of them (the polls come every 15 seconds). */
  lemma LegacyEscalation(t0: int)
    ensures LegacyRun(LegacyState(t0, 0, true),
                      [Poll(t0 + 15, false, None), Poll(t0 + 30, false, None), Poll(t0 + 45, false, None),
                       Poll(t0 + 60, false, None), Poll(t0 + 75, false, None), Poll(t0 + 90, false, None),
                       Poll(t0 + 105, false, None)]).1
            == LegacyMessages[..3] + [LegacyFinalMessage]
  {
    var e := [Poll(t0 + 15, false, None), Poll(t0 + 30, false, None), Poll(t0 + 45, false, None),
              Poll(t0 + 60, false, None), Poll(t0 + 75, false, None), Poll(t0 + 90, false, None),
              Poll(t0 + 105, false, None)];
    ThreeCheckIns(t0, e);
    ClosingLineAfterAMinute(t0 + 45, e[3..]);
    assert LegacyMessages[..3] == [LegacyMessages[0], LegacyMessages[1], LegacyMessages[2]];
    assert [LegacyMessages[0]] + ([LegacyMessages[1]] + ([LegacyMessages[2]] + [LegacyFinalMessage]))
           == LegacyMessages[..3] + [LegacyFinalMessage];
  }

  /** Polls 15, 30 and 45 seconds into a silence speak the first three
      check-ins in order. */
  lemma ThreeCheckIns(t0: int, e: seq<Event>)
    requires |e| >= 3 && e[0] == Poll(t0 + 15, false, None) && e[1] == Poll(t0 + 30, false, None)
    requires e[2] == Poll(t0 + 45, false, None)
    ensures LegacyRun(LegacyState(t0, 0, true), e).1
            == [LegacyMessages[0]] + ([LegacyMessages[1]] + ([LegacyMessages[2]]
               + LegacyRun(LegacyState(t0 + 45, 3, true), e[3..]).1))
  {
    var e1, e2 := e[1..], e[2..];
    WarningRunStep(LegacyState(t0 + 30, 2, true), e2);
    assert e2[1..] == e[3..];
    WarningRunStep(LegacyState(t0 + 15, 1, true), e1);
    assert e1[1..] == e2;
    WarningRunStep(LegacyState(t0, 0, true), e);
  }

  /** A poll that warns, at the head of a run. */
  lemma WarningRunStep(s: LegacyState, events: seq<Event>)
    requires events != [] && events[0].Poll?
    requires s.active && events[0].now - s.lastUserActivity >= 15 && s.warnings < 3
    ensures LegacyRun(s, events).1
            == [LegacyMessages[s.warnings]]
               + LegacyRun(s.(warnings := s.warnings + 1, lastUserActivity := events[0].now), events[1..]).1
  {
    LegacyRunStep(s, events);
    LegacyWarningStep(s, events[0].now);
  }

  /** After the third check-in at `t`, the polls 15, 30 and 45 seconds later
      stay quiet and the one 60 seconds later speaks the closing line. */
  lemma ClosingLineAfterAMinute(t: int, tail: seq<Event>)
    requires tail == [Poll(t + 15, false, None), Poll(t + 30, false, None), Poll(t + 45, false, None), Poll(t + 60, false, None)]
    ensures LegacyRun(LegacyState(t, 3, true), tail).1 == [LegacyFinalMessage]
  {
    var s := LegacyState(t, 3, true);
    LegacyRunStep(s, tail[3..]);
    LegacyRunStep(s, tail[2..]);
    assert tail[2..][1..] == tail[3..];
    LegacyRunStep(s, tail[1..]);
    assert tail[1..][1..] == tail[2..];
    LegacyRunStep(s, tail);
  }

  /** One poll at the head of a run. */
  lemma LegacyRunStep(s: LegacyState, events: seq<Event>)
    requires events != [] && events[0].Poll?
    ensures LegacyRun(s, events).1
            == LegacySpoken(s, events[0].now) + LegacyRun(LegacyTick(s, events[0].now), events[1..]).1
  {
  }

  /** `ConversationManager`: `Tick` is one pass of its monitor loop. */
  class ConversationManager {
    var lastUserActivity: int
    var silenceWarnings: nat
    const maxSilenceWarnings: nat
    var isActive: bool

    function State(): LegacyState
      reads this
    {
      LegacyState(lastUserActivity, silenceWarnings, isActive)
    }

    predicate Valid()
      reads this
    {
      maxSilenceWarnings == LegacyMaxWarnings && silenceWarnings <= maxSilenceWarnings
    }

    constructor(now: int)
      ensures Valid() && State() == LegacyState(now, 0, true)
    {
      lastUserActivity := now;
      silenceWarnings := 0;
      maxSilenceWarnings := LegacyMaxWarnings;
      isActive := true;
    }

    method StopMonitoring()
      requires Valid()
      modifies this
      ensures Valid() && State() == old(State()).(active := false)
    {
      isActive := false;
    }

    method UpdateUserActivity(now: int)
      requires Valid()
      modifies this
      ensures Valid() && State() == LegacyHeard(old(State()), now)
    {
      lastUserActivity := now;
      silenceWarnings := 0;
    }

    /** One pass of the monitor loop after its 15-second sleep. */
    method Tick(now: int) returns (spoken: seq<string>)
      requires Valid()
      modifies this
      ensures Valid()
      ensures State() == LegacyTick(old(State()), now)
      ensures spoken == LegacySpoken(old(State()), now)
    {
      spoken := [];
      if !isActive {
        return;
      }
      var silence := now - lastUserActivity;
      if silence >= LegacyWarnSilence && silenceWarnings < maxSilenceWarnings {
        silenceWarnings := silenceWarnings + 1;
        var index := MessageIndex(silenceWarnings);
        MessageIndexInBounds(silenceWarnings - 1);
        spoken := [LegacyMessages[index]];
        lastUserActivity := now;
      } else if silence >= LegacyFinalSilence && silenceWarnings >= maxSilenceWarnings {
        spoken := [LegacyFinalMessage];
        silenceWarnings := 0;
        lastUserActivity := now;
      }
    }
  }
}
