# Multiservicioscall voice assistant — a verified model of its core

The assistant answers phone calls in Spanish for Multiservicioscall. It runs
as a LiveKit agent (`agent.py`; `agent_20250716.py` is an earlier version of
the same agent). Its core is the part that does not depend on the speech
stack:

- the checks `schedule_appointment` makes before it books anything:
  - `normalize_phone` for a Peruvian mobile number;
  - `parse_relative_date` for "mañana" or a `DD/MM/YYYY` date, checked
    against today and against a named weekday;
  - the list of missing data;
- `extract_phone_from_identity`, which reads the caller's number from a SIP
  participant identity;
- the fixed sentences the tools answer with:
  - greeting and farewell by hour;
  - `handle_user_greeting_or_check` and `handle_user_impatience`;
  - the clean-up of the knowledge-base answer;
  - the apology for each kind of backend failure;
- `consultation_state`, the record of the single backend operation in
  flight, and the feedback ticker that speaks while it runs;
- the silence monitors: `FixedConversationManager` in `agent.py` and
  `ConversationManager` in `agent_20250716.py`.

The modules follow that structure:

| file | module | models |
|---|---|---|
| wrappers.dfy | `Wrappers` | `Option`, and `Checked`, a `(value, error)` pair as the Python functions return it |
| kinds.dfy | `Kinds` | the operation type, the ticker stages, the kinds of backend failure |
| text.dfy | `Text` | the Python string operations the core uses: `strip`, `lower`, `in`, `startswith`, `replace`, `split` |
| phone.dfy | `Phone` | `normalize_phone`, `extract_phone_from_identity` |
| calendar.dfy | `Calendar` | the proleptic Gregorian calendar of `datetime`: `+ timedelta(days=1)`, `weekday()`, `strftime("%d/%m/%Y")`, `strptime(…, "%d/%m/%Y")` |
| relative_date.dfy | `RelativeDate` | `parse_relative_date` |
| appointment.dfy | `Appointment` | the validation prefix of `schedule_appointment`, and the texts built from the checked data |
| replies.dfy | `Replies` | greeting and farewell, greeting-or-check, impatience, answer clean-up, failure replies |
| operation.dfy | `Operation` | `consultation_state` (class `ConsultationState`) and the feedback ticker (class `FeedbackTicker`) |
| silence.dfy | `Silence` | `FixedConversationManager`, `ConversationManager` |

Values that come from outside are parameters:

- the current date in Lima, as `today`;
- the hour, as `hour`;
- the event-loop time, in whole seconds, as `now`;
- the backend's answer and status, and the kind of failure it raised.

Pure code is modelled as functions with lemmas. Code that updates state is
modelled as classes whose methods change their fields:

- `ConsultationState` and `FeedbackTicker`;
- the two silence managers.

Three methods are proved against pure step functions, and the properties are
proved about those functions:

- `FeedbackTicker.Wake` against `TickerStep`;
- the silence managers' `Tick` against `FixedTick` and `LegacyTick`.

`FixedConversationManager.Monitor` is the monitor's loop. It runs over a
sequence of events (polls, user speech, stop), and its invariant ties it to
`FixedRun`.

The other methods state their new fields directly in terms of the old ones:
`ConsultationState.Start`, `Supersede`, `Teardown` and `SessionEnd`,
`FeedbackTicker.Cancel`, and the managers' `UpdateUserActivity`,
`MarkAgentResponse` and `StopMonitoring`.

Behaviour of the code that the model keeps, and that a reader may not
expect:

- `normalize_phone` is `re.match`, so a number followed by one final newline
  would pass `$`. No newline survives the whitespace removal, so the
  accepted numbers are exactly `+51` and nine digits (`Phone.NoNewlineAfterCleanUp`).
- In `parse_relative_date`:
  - an input that contains "mañana" anywhere is read as tomorrow;
  - a weekday reference that is not one of the nine known names is
    ignored;
  - an explicit date is re-formatted before it is returned, so `5/8/2025`
    comes back as `05/08/2025`.
- In `handle_user_greeting_or_check`, "hola" is a greeting. Any message that
  contains one of the checks "¿hola?" or "hola?" therefore gets the greeting
  reply. The reply that confirms the agent is present comes only from the
  other five checks (`Replies.HolaIsAlwaysAGreeting`).
- Supersession changes the query and its type, cancels the feedback ticker
  and does not start a new one. The earlier operation then runs to its end
  without feedback (`Operation.SupersededTickerIsSilent`).
- The session-end reset (agent.py:805-813) clears every field except
  `last_completed` and does not cancel the feedback ticker.
- `FixedConversationManager` allows one warning. After its check-in it stays
  silent until the user speaks or until five minutes of silence clear the
  warning (`Silence.OneCheckInPerSilence`).

## Model

| member | source | states |
|---|---|---|
| Phone.NormalizePhone | agent.py:85-101 | exactly one of number and error; the "proporciona" error exactly when the phone is missing or empty; every error is one of the two fixed messages; an accepted number is `+51` followed by nine ASCII digits |
| Phone.RemoveSeparators | agent.py:91 | removing whitespace, `-`, `(` and `)` leaves none of them and never lengthens the text |
| Phone.NormalizeAcceptsExactly | agent.py:90-99 | a given number is accepted iff, after strip and separator removal, it is nine digits (then `+51` is prefixed) or already `+51` and nine digits (then it is kept) |
| Phone.IsPeruvianMobile | agent.py:97-98 | a text the pattern accepts starts with `+` and has only ASCII digits after it |
| Phone.WithCountryCode | agent.py:93-95 | the result starts with `+` and ends with the cleaned text unchanged |
| Phone.CountryCodeRule | agent.py:93-98 | with "+51" put in front of a text without '+', the result is `+51` and nine digits iff the text was nine digits (then it is "+51" + the text) or already `+51` and nine digits (then it is kept) |
| Phone.MobileIsClean | agent.py:90-99 | an accepted number has no blank at either end and no separator, so the clean-up leaves it as it is |
| Phone.NoNewlineAfterCleanUp | agent.py:97-98 | for a cleaned text, the `re.match` pattern (whose `$` admits a final newline) accepts exactly `+51` and nine digits |
| Phone.NormalizeIdempotent | agent.py:85-101 | normalising an accepted number again accepts it unchanged |
| Phone.ShortNumberRefused | agent.py:94-101 | one to eight digits give the "no es válido" error |
| Phone.NineDigitsNormalize | agent.py:85-99 | any bare nine-digit number is accepted with "+51" in front, as the error message's example "987654321" → "+51987654321" shows |
| Phone.NormalizeExampleRefused | agent.py:85-101 | "12345" is refused with the "no es válido" error |
| Phone.ExtractPhoneFromIdentity | agent.py:69-83 | `None` iff the identity is missing or empty; with a `sip_` prefix every `sip_` is removed and `+51` added unless the rest starts with `+`; without `sip_` or `sip:` the stripped identity is returned |
| Phone.ExtractFromSipUnderscore | agent.py:74-76 | `sip_` followed by a number gives that number with the country-code rule |
| Phone.ExtractFromSipUri | agent.py:77-79 | `sip:user@host` gives the user part with the country-code rule |
| Phone.ExtractFromSipUriParts | agent.py:77-79 | for any stripped identity containing `sip:` and not starting with `sip_`, the result is the text after the first `sip:`, cut at the next `sip:` and then at the next `@`, with the country-code rule |
| Phone.ExtractCutsAtSecondSip | agent.py:77-79 | a second `sip:` cuts the number: `sip:` + user + `sip:` + anything gives the user part alone with the country-code rule (so `sip:51987654321sip:x@h` gives `+5151987654321`) |
| Phone.SipCallerIdNormalizes | agent.py:69-101 | the number read from `sip_` and nine digits is accepted by `normalize_phone` unchanged |
| Calendar.DaysInMonth | agent.py:142 | 28 to 31 days; 29 exactly for February of a leap year, 28 exactly for February of other years |
| Calendar.Tomorrow | agent.py:125 | the day after a valid date is valid and later |
| Calendar.TomorrowIsNextOrdinal | agent.py:125 | the day after has the next day number (days since 1 January of year 1) |
| Calendar.TomorrowIsNextWeekday | agent.py:126 | the day after falls on the next weekday, modulo 7 |
| Calendar.Weekday | agent.py:150 | the weekday is 0 (Monday) to 6 (Sunday) |
| Calendar.BeforeIsChronological | agent.py:143 | one date is earlier than another iff its day number is smaller; equal dates have equal day numbers and no others do |
| Calendar.OrdinalWithinYear | agent.py:143 | a date's day number lies within its year |
| Calendar.DaysBeforeYearGrows | agent.py:143 | every day of a year comes before every day of any later year |
| Calendar.DaysBeforeMonthGrows | agent.py:143 | every day of a month comes before every day of any later month of the same year |
| Calendar.Format | agent.py:138 | the `DD/MM/YYYY` text has at least seven characters, all digits or `/` |
| Calendar.Decimal | agent.py:156 | the unpadded decimal text of a number is non-empty and all ASCII digits |
| Calendar.DayToken | agent.py:142 | a day field that `%d` accepts is 1 to 31 |
| Calendar.MonthToken | agent.py:142 | a month field that `%m` accepts is 1 to 12 |
| Calendar.YearToken | agent.py:142 | a year field that `%Y` accepts is at most 9999 |
| Calendar.ParseDate | agent.py:142 | a text that `strptime` accepts denotes a valid date of a year from 1 to 9999 |
| Calendar.DigitsValueOfDecimal | agent.py:142-156 | reading back the decimal text of a number gives the number |
| Calendar.ParseFormatRoundTrip | agent.py:142-156 | formatting a date of a four-digit year and parsing it gives the same date back |
| RelativeDate.DayIndex | agent.py:119-122 | every known weekday name maps to 0..6 |
| RelativeDate.Reference | agent.py:128-129 | a normalised reference exists iff one was given and it is not empty |
| RelativeDate.Contradicts | agent.py:130-131 | only a reference that was given can contradict a weekday |
| RelativeDate.FixedMessage | agent.py:110-159 | a refused date has a fixed message exactly when it is not a weekday mismatch (or the overflow); the missing-date, past-date and format messages each belong to exactly their own error |
| RelativeDate.TomorrowDate | agent.py:124-138 | exactly one of date and error, never the missing-date error; an accepted date has at least seven characters |
| RelativeDate.ExplicitDate | agent.py:140-159 | exactly one of date and error, never the missing-date error; an accepted date has at least seven characters |
| RelativeDate.ParseRelativeDate | agent.py:103-159 | exactly one of date and error; the missing-date error exactly when no date is given; an accepted date has at least seven characters |
| RelativeDate.TomorrowBranch | agent.py:124-138 | for input saying "mañana"/"manana", accepted iff the known weekday reference (if any) matches tomorrow's weekday; then the result is tomorrow formatted and tomorrow is the next day; otherwise a tomorrow-mismatch error carrying tomorrow's weekday |
| RelativeDate.ExplicitBranch | agent.py:140-159 | format error iff `strptime` fails; past-date error iff the date is earlier than today; weekday error iff it is not past and a known reference names another weekday, and that error carries the input, the date's weekday and the name given; a date that parses, is not past and is not contradicted is accepted, re-formatted |
| RelativeDate.AcceptedDateIsUsable | agent.py:124-156 | every accepted date parses, is its own formatting, is not before today and is on the weekday named by a known reference |
| RelativeDate.AcceptedDateIsStable | agent.py:140-156 | feeding an accepted date back in, without a reference, accepts the same text |
| RelativeDate.FormattedDateIsAccepted | agent.py:140-156 | the formatted text of any date from today on is accepted unchanged |
| RelativeDate.TomorrowContradicted | agent.py:130-136 | "mañana" with a known reference naming another weekday is refused with tomorrow's weekday and the normalised reference |
| RelativeDate.MondayTomorrowIsNotMonday | agent.py:124-136 | on Monday 4 August 2025, "mañana" with reference "Lunes" is refused: tomorrow is a Tuesday |
| Appointment.ValidationOrder | agent.py:381-407 | a phone error wins, then a date error, then missing data; each is returned exactly when the earlier checks pass and it fails |
| Appointment.ValidateAppointment | agent.py:381-407 | a phone refusal carries one of the two phone messages; missing data names at least one field; an appointment that goes ahead has a Peruvian mobile number and non-empty name, date and time |
| Appointment.RefusalMessage | agent.py:383-407 | no fixed text exactly for a date refused by a weekday mismatch or the overflow; a phone refusal says the phone message, missing data says the missing-data message for those fields |
| Appointment.RefusalIsWhatScheduleSays | agent.py:381-407 | a phone error is returned as `normalize_phone` worded it; with the phone accepted and no date given, the missing-date request is returned; a refusal has no fixed text exactly when the phone is accepted and the date refused by a weekday mismatch or the overflow |
| Appointment.MissingIsNameOrTime | agent.py:394-407 | only the name and the time can be reported missing, in that order, each exactly when it was not given |
| Appointment.ReadyMeansChecked | agent.py:381-407 | the appointment goes ahead iff phone and date are accepted and name and time given; then the number is a Peruvian mobile and the date usable |
| Appointment.Labels | agent.py:395-402 | one label per missing field, in order |
| Appointment.NameAndTimeMissingMessage | agent.py:404-405 | the message asking for both the name and the time |
| Appointment.PayloadKeepsCheckedData | agent.py:503-510 | the payload carries the checked phone number unchanged and a date that parses |
| Replies.GreetingBuckets | agent.py:55-60 | hours 5–11 greet "Buenos días", 12–18 "Buenas tardes", all other hours "Buenas noches" |
| Replies.PartOfDay | agent.py:58-60 | the night bucket holds exactly the hours before 5 and from 19 on |
| Replies.Greeting | agent.py:55-60 | "Buenos días" exactly in the morning bucket, "Buenas noches" exactly in the night bucket |
| Replies.Farewell | agent.py:62-67 | "Que tenga un buen día" exactly in the morning bucket, "Que tenga una buena noche" exactly in the night bucket |
| Replies.FarewellMatchesGreeting | agent_20250716.py:43-65 | greeting and farewell use the same three hour buckets |
| Replies.GreetingOrCheck | agent.py:588-599 | the reply is one of the three fixed replies |
| Replies.HolaIsAlwaysAGreeting | agent.py:590-597 | a message containing "hola" gets the greeting; the presence reply comes only from the checks other than "¿hola?" and "hola?" |
| Replies.ImpatienceReplyIsFaithful | agent.py:609-627 | two situations get the same reply iff both are idle, or both active with the same kind (appointment or not) and the same wait bucket (<5, <10, ≥10 seconds) |
| Replies.ImpatienceReply | agent.py:609-627 | the generic help line iff no operation is active; with one active, an appointment reply iff the operation is an appointment |
| Replies.PatienceReplyIsFaithful | agent.py:612-627 | the six patience replies (appointment or query, three wait buckets) are pairwise different and none is the idle reply |
| Replies.WaitIsMonotonic | agent.py:613-625 | a longer wait never falls in an earlier bucket |
| Replies.CleanAnswer | agent.py:312-337 | exactly one of text and failure; the failure (unexpected error) exactly when the answer field is not text |
| Replies.CleanText | agent.py:313 | the result is the answer without `*` and 📞, stripped (removing `**` first changes nothing) |
| Replies.CleanTextRemovesMarkup | agent.py:313 | the cleaned answer is the stripped answer without `*` and 📞, and contains neither |
| Replies.CleanTextIdempotent | agent.py:313 | cleaning a cleaned answer changes nothing |
| Replies.FailureRepliesDiffer | agent.py:323-337 | for each operation, different failures (cancelled, timeout, HTTP status, unexpected) get different replies; the same holds for appointments (agent.py:533-547) |
| Replies.QueryFailureReply | agent.py:323-325 | the "nueva pregunta" reply iff the query was cancelled |
| Replies.AppointmentFailureReply | agent.py:533-535 | the "nueva solicitud" reply iff the scheduling was cancelled |
| Replies.FailureReply | agent.py:323-337 | one of the two cancellation replies iff the operation was cancelled, for either kind of operation (agent.py:533-547) |
| Operation.StagesFromPhase | agent.py:252-283 | whatever the ticker records from a phase on is in order and could not have been recorded before that phase |
| Operation.TickerStep | agent.py:252-283 | a stage is recorded iff the operation is active, a session exists and the ticker has not ended; the ticker ends iff it had ended or it finds the operation inactive after its first wait |
| Operation.TickerOrder | agent.py:252-283 | a fresh ticker records Initial at most once, then Processing at most once, then Patience, whatever it observes |
| Operation.InactiveTickerIsSilent | agent.py:252-283 | a ticker that sees the operation inactive records nothing |
| Operation.ThreeWakeUps | agent.py:252-283 | three wake-ups of an active operation record initial, processing, patience |
| Operation.FeedbackTicker.Cancel | agent.py:212-213 | a cancelled ticker has ended |
| Operation.FeedbackTicker.Wake | agent.py:252-283 | a wake-up appends the stage exactly when the operation is active and a session exists, and changes nothing else of the state; the state stays valid |
| Operation.ConsultationState.constructor | agent.py:44-53 | the initial state is inactive with every field empty |
| Operation.ConsultationState.Start | agent.py:225-233 | start sets the operation active with its query, type and start time, a fresh ticker and an empty `feedback_sent`; the last completion time is kept |
| Operation.ConsultationState.Supersede | agent.py:210-218 | supersession changes only the query and its type, and cancels the ticker |
| Operation.ConsultationState.Teardown | agent.py:339-359 | teardown cancels the ticker and leaves the state inactive, `task`, `feedback_task` and `start_time` empty, `feedback_sent` empty and `last_completed` now |
| Operation.ConsultationState.SessionEnd | agent.py:805-813 | the session-end reset clears every field but `last_completed` |
| Operation.ConsultationState.ImpatienceAnswer | agent.py:609-627 | with no operation active the answer is the generic help line |
| Operation.QueryLifecycle | agent.py:225-359 | a query's three wake-ups record the three stages in order; after teardown only its completion time remains |
| Operation.SupersededTickerIsSilent | agent.py:210-223 | after supersession the ticker records nothing more |
| Silence.FixedStoppedIsSilent | agent.py:681-686 | a stopped monitor changes nothing and says nothing when it wakes |
| Silence.FixedDefers | agent.py:688-699 | while an operation is active, or less than 45 s after one completed, a poll changes nothing and says nothing |
| Silence.FixedCheckInExactly | agent.py:701-718 | the check-in is spoken iff the monitor runs, no operation is active or just completed, silence ≥ 60 s and no warning yet; then warnings + 1, the silence restarts and the agent's answer is recorded now, nothing else changes |
| Silence.FixedPassiveReset | agent.py:703-723 | without a check-in, silence ≥ 300 s clears the warning and restarts the silence without speaking; a shorter silence changes nothing |
| Silence.FixedWarningsBounded | agent.py:663-723 | the warning count never exceeds its maximum of one over any sequence of polls, user speech and stops |
| Silence.OneCheckInPerSilence | agent.py:703-723 | with the user silent, check-ins never outnumber the passive resets by more than the warnings still allowed |
| Silence.AtMostOneCheckIn | agent.py:703-723 | a silent stretch without a passive reset has at most one check-in, none if the warning is used |
| Silence.FixedConversationManager.constructor | agent.py:638-645 | a new monitor runs, with no warning and the silence starting now |
| Silence.FixedConversationManager.StopMonitoring | agent.py:652-661 | stopping clears only the running flag |
| Silence.FixedConversationManager.UpdateUserActivity | agent.py:663-667 | user speech restarts the silence and clears the warnings, nothing else |
| Silence.FixedConversationManager.MarkAgentResponse | agent.py:669-672 | records the time of the agent's answer, nothing else |
| Silence.FixedConversationManager.Tick | agent.py:681-723 | one pass of the loop changes the state and speaks as `FixedTick`/`FixedSpoken` say |
| Silence.FixedConversationManager.Monitor | agent.py:674-723 | the loop over a sequence of events ends in the state and with the speech of `FixedRun` |
| Silence.MessageIndexInBounds | agent_20250716.py:242-250 | the message index is within the five messages; with at most three warnings only the first three are used |
| Silence.MessageIndex | agent_20250716.py:249-250 | for a warning count of at least one, the index is within the five messages and never past the count minus one |
| Silence.LegacyTick | agent_20250716.py:225-269 | a pass never changes the running flag and never takes the warning count above three |
| Silence.LegacySpoken | agent_20250716.py:225-269 | a pass speaks at most one line, and only while running after at least 15 s of silence |
| Silence.LegacyWarningStep | agent_20250716.py:238-257 | a warning is spoken iff the monitor runs, silence ≥ 15 s and fewer than three warnings; it is the next of the first three messages, warnings + 1, silence restarts |
| Silence.LegacyFinalStep | agent_20250716.py:260-269 | with three warnings and silence ≥ 60 s the closing line is spoken and the counter and silence restart |
| Silence.LegacyStoppedIsSilent | agent_20250716.py:225-230 | a stopped monitor does nothing when it wakes |
| Silence.LegacyWarningsBounded | agent_20250716.py:217-269 | the warning count never exceeds three over any sequence of polls, user speech and stops |
| Silence.LegacyEscalation | agent_20250716.py:225-269 | from any start time, a silent caller hears the three check-ins 15, 30 and 45 s after the silence starts and the closing line 105 s after it |
| Silence.ConversationManager.constructor | agent_20250716.py:193-199 | a new monitor runs, with no warning and the silence starting now |
| Silence.ConversationManager.StopMonitoring | agent_20250716.py:206-215 | stopping clears only the running flag |
| Silence.ConversationManager.UpdateUserActivity | agent_20250716.py:217-221 | user speech restarts the silence and clears the warnings, nothing else |
| Silence.ConversationManager.Tick | agent_20250716.py:225-269 | one pass of the loop changes the state and speaks as `LegacyTick`/`LegacySpoken` say |

## Left out

- LiveKit wiring is not modelled: the agent, the session, the entry point, prewarm, the speech pipeline and the event handlers that call `update_user_activity` and `mark_agent_response`. These are framework calls whose code is not part of this model.
- HTTP calls to the n8n webhooks are not modelled. The backend appears only as its outcome: the answer field, the status field, or the kind of failure. `lookup_weather` and `lookup_debt_info` of the earlier agent are HTTP calls too and are not modelled.
- asyncio concurrency is not modelled. Tasks become objects whose steps run one at a time. Races between a tool call, the ticker and the session-end reset are not modelled, and neither is awaiting the running task on supersession.
- FeedbackTicker.Wake: models a ticker still running after the session-end reset only while no new operation is active. A later `Start` while that ticker runs is not modelled.
- The wording of the feedback messages and the random choice among them are not modelled; the ticker records only the stage. `check_if_user_still_there` is a random choice and is not modelled either.
- Failures of `session.say` are not modelled. A check-in counts as spoken even when the call raises. `last_agent_response` is set to the poll time, not to the time the speech ends.
- Event-loop times are whole seconds, not floats. The impatience reply takes the elapsed time as a real number.
- The wording of the two weekday-mismatch messages comes from `strftime('%A')` in the process locale and is not modelled. The errors carry the weekday numbers and the normalised reference instead.
- `\d` and `str.isdigit` also accept non-ASCII decimal digits; the model accepts ASCII digits only. `str.lower` is modelled for ASCII and Latin-1 letters only.
- Calendar.ParseFormatRoundTrip: holds only for years 1000 to 9999, because `%Y` does not pad years below 1000.
- RelativeDate.AcceptedDateIsUsable, TomorrowIsUsable, ExplicitIsUsable, AcceptedDateIsStable, TomorrowIsStable, ExplicitDateIsStable, Appointment.ReadyMeansChecked and PayloadKeepsCheckedData: require today's year to be from 1000 on, for the same reason. Before year 1000 an accepted date is written with a short year that `strptime` does not read back.
- RelativeDate.ParseRelativeDate: requires today's year to be at most 9999, as `datetime` does. "mañana" on 31 December 9999 raises `OverflowError`, which the code does not catch; the model returns the `Overflow` error for it.
- The missing-data check also lists the phone number and the date. Neither can be missing at that point, because both were refused earlier.
- Appointment.MakePayload, MissingDataMessage (its text is pinned by NameAndTimeMissingMessage), ConfirmationMessage, AppointmentQuery, ScheduleReply, Replies.FarewellMessage and ConfigurationMissingReply build fixed texts from their inputs and carry no contract of their own.
- Logging is not modelled.
