/** The assistant's fixed replies: greetings and farewells by the hour in
    Lima, the answer to "hola" or "¿me escuchas?", the answer to impatience,
    the clean-up of the knowledge-base answer and the apology for each way a
    backend call can fail. */
module Replies {
  import opened Wrappers
  import opened Text
  import opened Kinds

  // ---- get_greeting / get_farewell ----

  /** The three parts of the day the hour falls in. */
  datatype DayPart = Morning | Afternoon | Night

  /** 5 to 11 is morning, 12 to 18 afternoon, the rest night. */
  function PartOfDay(hour: int): (p: DayPart)
    ensures p == Night <==> hour < 5 || 19 <= hour
  {
    if 5 <= hour < 12 then Morning
    else if 12 <= hour < 19 then Afternoon
    else Night
  }

  function Greeting(hour: int): (g: string)
    ensures g == "Buenos días" <==> PartOfDay(hour) == Morning
    ensures g == "Buenas noches" <==> PartOfDay(hour) == Night
  {
    match PartOfDay(hour)
    case Morning => "Buenos días"
    case Afternoon => "Buenas tardes"
    case Night => "Buenas noches"
  }

  function Farewell(hour: int): (f: string)
    ensures f == "Que tenga un buen día" <==> PartOfDay(hour) == Morning
    ensures f == "Que tenga una buena noche" <==> PartOfDay(hour) == Night
  {
    match PartOfDay(hour)
    case Morning => "Que tenga un buen día"
    case Afternoon => "Que tenga una buena tarde"
    case Night => "Que tenga una buena noche"
  }

  /** The farewell tool's whole reply. */
  function FarewellMessage(hour: int): string
  {
    Farewell(hour) + ". Gracias por contactar a Multiservicioscall."
  }

  /** Every hour of the clock gets exactly one of the three greetings: the
      "día" one exactly for 5..11, the "tarde" one exactly for 12..18, the
      "noche" one for the other hours. The farewell follows the same hours. */
  lemma GreetingBuckets(hour: int)
    requires 0 <= hour < 24
    ensures Greeting(hour) == "Buenos días" <==> 5 <= hour <= 11
    ensures Greeting(hour) == "Buenas tardes" <==> 12 <= hour <= 18
    ensures Greeting(hour) == "Buenas noches" <==> hour <= 4 || 19 <= hour
    ensures Greeting(hour) in {"Buenos días", "Buenas tardes", "Buenas noches"}
  {
  }

  lemma FarewellMatchesGreeting(h1: int, h2: int)
    ensures Greeting(h1) == Greeting(h2) <==> Farewell(h1) == Farewell(h2)
    ensures Farewell(h1) == Farewell(h2) <==> PartOfDay(h1) == PartOfDay(h2)
  {
  }

  // ---- handle_user_greeting_or_check ----

  const Greetings: seq<string> := ["hola", "hello", "buenas", "buenos dias", "buenas tardes", "buenas noches"]
  const Checks: seq<string> := ["¿hola?", "hola?", "estás ahí", "estas ahi", "me escuchas", "sí, es ahí", "si, es ahi"]

  const HelloReply := "¡Hola! Soy Mia de Multiservicioscall. ¿En qué puedo ayudarte?"
  const PresentReply := "Sí, estoy aquí y te escucho perfectamente. ¿Cómo puedo asistirte?"
  const RepeatReply := "Te escucho. ¿Podrías repetir tu consulta para ayudarte mejor?"

  /** Lower-cased and stripped, a message with a greeting in it is greeted, one
      with a connection check in it is reassured, any other is asked to
      repeat. */
  function GreetingOrCheck(userMessage: string): (r: string)
    ensures r in {HelloReply, PresentReply, RepeatReply}
  {
    var m := Strip(Lower(userMessage));
    if ContainsAny(m, Greetings) then HelloReply
    else if ContainsAny(m, Checks) then PresentReply
    else RepeatReply
  }

  /** Any message with "hola" in it is answered as a greeting: hence the
      checks "¿hola?" and "hola?" never decide the reply, and a reassurance
      always comes from one of the other five checks. */
  lemma HolaIsAlwaysAGreeting(userMessage: string)
    ensures Contains(Strip(Lower(userMessage)), "hola") ==> GreetingOrCheck(userMessage) == HelloReply
    ensures GreetingOrCheck(userMessage) == PresentReply ==> ContainsAny(Strip(Lower(userMessage)), Checks[2..])
  {
    var m := Strip(Lower(userMessage));
    HolaIsGreeting(m);
    if GreetingOrCheck(userMessage) == PresentReply {
      HolaChecksAreGreetings(m);
    }
  }

  lemma HolaIsGreeting(m: string)
    ensures Contains(m, "hola") ==> ContainsAny(m, Greetings)
  {
    if Contains(m, "hola") {
      assert Contains(m, Greetings[0]);
    }
  }

  /** A check that fires while no greeting does is one of the last five. */
  lemma HolaChecksAreGreetings(m: string)
    requires !ContainsAny(m, Greetings) && ContainsAny(m, Checks)
    ensures ContainsAny(m, Checks[2..])
  {
    var i :| 0 <= i < |Checks| && Contains(m, Checks[i]);
    HolaIsGreeting(m);
    if i == 0 {
      assert Checks[0] == "¿" + ("hola" + "?");
      ContainsSuffixOf(m, "¿", "hola" + "?");
      ContainsPrefixOf(m, "hola", "?");
    } else if i == 1 {
      assert Checks[1] == "hola" + "?";
      ContainsPrefixOf(m, "hola", "?");
    } else {
      assert Checks[2..][i - 2] == Checks[i];
    }
  }

  // ---- handle_user_impatience ----

  /** How long the operation has been running: under 5 seconds, under 10,
      or longer. */
  datatype Wait = Short | Medium | Long

  function WaitOf(elapsed: real): Wait
  {
    if elapsed < 5.0 then Short else if elapsed < 10.0 then Medium else Long
  }

  const IdleHelpReply := "¿En qué puedo ayudarte? Estoy aquí para resolver tus dudas sobre Multiservicioscall."

  const AppointmentShortWait := "Disculpa, estoy procesando tu cita. Te respondo en unos segundos."
  const AppointmentMediumWait := "Te pido paciencia, estoy confirmando la disponibilidad del gerente."
  const AppointmentLongWait := "Entiendo tu impaciencia, la cita está casi lista. Te confirmo en breve."
  const QueryShortWait := "Disculpa, estoy procesando tu consulta. Te respondo en unos segundos más."
  const QueryMediumWait := "Te pido paciencia, estoy buscando la información más precisa para ti."
  const QueryLongWait := "Entiendo tu impaciencia, la consulta está tomando más tiempo del esperado. Te aseguro que tendrás la respuesta muy pronto."

  function AppointmentPatience(w: Wait): string
  {
    match w
    case Short => AppointmentShortWait
    case Medium => AppointmentMediumWait
    case Long => AppointmentLongWait
  }

  function QueryPatience(w: Wait): string
  {
    match w
    case Short => QueryShortWait
    case Medium => QueryMediumWait
    case Long => QueryLongWait
  }

  /** The reply to impatience, from whether an operation is running, its type
      (anything but an appointment is treated as a query) and the seconds
      since it started. */
  function ImpatienceReply(active: bool, operationType: Option<OperationType>, elapsed: real): (r: string)
    ensures r == IdleHelpReply <==> !active
    ensures active ==>
      (r in {AppointmentShortWait, AppointmentMediumWait, AppointmentLongWait} <==> operationType == Some(Appointment))
  {
    ImpatienceRepliesDistinct();
    if !active then IdleHelpReply
    else PatienceReply(operationType == Some(Appointment), WaitOf(elapsed))
  }

  function PatienceReply(appointment: bool, w: Wait): string
  {
    if appointment then AppointmentPatience(w) else QueryPatience(w)
  }

  /** The reply tells the caller everything it was chosen by: whether an
      operation runs, whether it is an appointment, and how long it has run.
      Two calls get the same reply exactly when they agree on these. */
  lemma ImpatienceReplyIsFaithful(a1: bool, t1: Option<OperationType>, e1: real,
                                  a2: bool, t2: Option<OperationType>, e2: real)
    ensures ImpatienceReply(a1, t1, e1) == ImpatienceReply(a2, t2, e2) <==>
      (a1 == a2 && (a1 ==> (t1 == Some(Appointment)) == (t2 == Some(Appointment)) && WaitOf(e1) == WaitOf(e2)))
  {
    PatienceReplyIsFaithful(t1 == Some(Appointment), WaitOf(e1), t2 == Some(Appointment), WaitOf(e2));
  }

  /** The patience replies differ from each other and from the idle reply. */
  lemma PatienceReplyIsFaithful(b1: bool, w1: Wait, b2: bool, w2: Wait)
    ensures PatienceReply(b1, w1) == PatienceReply(b2, w2) <==> b1 == b2 && w1 == w2
    ensures IdleHelpReply != PatienceReply(b1, w1) && IdleHelpReply != PatienceReply(b2, w2)
  {
    ImpatienceRepliesDistinct();
  }

  lemma ImpatienceRepliesDistinct()
    ensures IdleHelpReply !in {AppointmentShortWait, AppointmentMediumWait, AppointmentLongWait,
                               QueryShortWait, QueryMediumWait, QueryLongWait}
    ensures AppointmentShortWait !in {AppointmentMediumWait, AppointmentLongWait,
                                      QueryShortWait, QueryMediumWait, QueryLongWait}
    ensures AppointmentMediumWait !in {AppointmentLongWait, QueryShortWait, QueryMediumWait, QueryLongWait}
    ensures AppointmentLongWait !in {QueryShortWait, QueryMediumWait, QueryLongWait}
    ensures QueryShortWait !in {QueryMediumWait, QueryLongWait}
    ensures QueryMediumWait != QueryLongWait
  {
  }

  /** Waiting longer never moves the reply back to an earlier one. */
  lemma WaitIsMonotonic(e1: real, e2: real)
    requires e1 <= e2
    ensures WaitOf(e1) == Long ==> WaitOf(e2) == Long
    ensures WaitOf(e2) == Short ==> WaitOf(e1) == Short
  {
  }

  // ---- the knowledge-base answer ----

  /** The `answer` field of the backend's JSON reply: missing, a string, or
      a value of another type (on which `.replace` raises). */
  datatype AnswerField = Absent | Text(text: string) | NotText

  const NoClearAnswer := "No encontré una respuesta clara a tu consulta."

  const PhoneEmoji: char := '\U{1F4DE}'

  /** The markup taken out of the answer before it is spoken: "**", then
      "*", then the telephone emoji, then the surrounding whitespace. */
  function CleanText(answer: string): (r: string)
    ensures r == Strip(Without(Without(answer, '*'), PhoneEmoji))
  {
    StarsRemoved(answer);
    ReplaceCharIsWithout(Without(answer, '*'), PhoneEmoji);
    Strip(Replace(Replace(Replace(answer, "**", ""), "*", ""), [PhoneEmoji], ""))
  }

  /** The spoken answer, or the failure a non-string answer raises. */
  function CleanAnswer(answer: AnswerField): (r: Checked<string, Failure>)
    ensures r.ExactlyOne()
    ensures r.error.Some? <==> answer.NotText?
  {
    match answer
    case Absent => Accept(CleanText(NoClearAnswer))
    case Text(s) => Accept(CleanText(s))
    case NotText => Reject(Unexpected)
  }

  /** Cleaning takes out every star and every telephone and trims the
      whitespace, and nothing else: the result is the stripped text with
      those characters removed. */
  lemma CleanTextRemovesMarkup(answer: string)
    ensures CleanText(answer) == Strip(Without(Without(answer, '*'), PhoneEmoji))
    ensures forall i :: 0 <= i < |CleanText(answer)| ==> CleanText(answer)[i] != '*' && CleanText(answer)[i] != PhoneEmoji
  {
    var noStars := Without(answer, '*');
    var clean := Without(noStars, PhoneEmoji);
    NoStarsLeft(noStars, clean);
    StripKeepsOut(clean, '*');
    StripKeepsOut(clean, PhoneEmoji);
  }

  lemma StarsRemoved(answer: string)
    ensures Replace(Replace(answer, "**", ""), "*", "") == Without(answer, '*')
  {
    assert "**" == ['*', '*'] && "*" == ['*'];
    WithoutAfterPairRemoval(answer, '*');
    ReplaceCharIsWithout(Replace(answer, ['*', '*'], ""), '*');
  }

  lemma {:induction false} NoStarsLeft(noStars: string, clean: string)
    requires forall i :: 0 <= i < |noStars| ==> noStars[i] != '*'
    requires clean == Without(noStars, PhoneEmoji)
    ensures forall i :: 0 <= i < |clean| ==> clean[i] != '*'
    decreases |noStars|
  {
    if noStars != [] {
      NoStarsLeft(noStars[1..], Without(noStars[1..], PhoneEmoji));
    }
  }

  /** Stripping adds no character. */
  lemma StripKeepsOut(s: string, c: char)
    requires forall i :: 0 <= i < |s| ==> s[i] != c
    ensures forall i :: 0 <= i < |Strip(s)| ==> Strip(s)[i] != c
  {
    var l := StripLeft(s);
    var r := StripRight(l);
    forall i | 0 <= i < |r| ensures r[i] != c {
      assert r[i] == l[i];
      assert l[i] == s[|s| - |l| + i];
    }
  }

  /** Cleaning twice is cleaning once. */
  lemma CleanTextIdempotent(answer: string)
    ensures CleanText(CleanText(answer)) == CleanText(answer)
  {
    var c := CleanText(answer);
    CleanTextRemovesMarkup(answer);
    CleanTextRemovesMarkup(c);
    WithoutAbsent(c, '*');
    WithoutAbsent(c, PhoneEmoji);
    assert Without(Without(c, '*'), PhoneEmoji) == c;
    StripIdempotent(Without(Without(answer, '*'), PhoneEmoji));
  }

  lemma {:induction false} WithoutAbsent(s: string, c: char)
    requires forall i :: 0 <= i < |s| ==> s[i] != c
    ensures Without(s, c) == s
  {
    if s != [] {
      WithoutAbsent(s[1..], c);
    }
  }

  lemma StripIdempotent(s: string)
    ensures Strip(Strip(s)) == Strip(s)
  {
    var t := Strip(s);
    if t != [] {
      StripLeftEdge(s);
    }
    StripUnchanged(t);
  }

  /** The stripped text starts with a non-space. */
  lemma StripLeftEdge(s: string)
    requires Strip(s) != []
    ensures !IsSpace(Strip(s)[0])
  {
    var l := StripLeft(s);
    assert StripRight(l)[0] == l[0];
  }

  // ---- failure apologies ----

  const QueryCancelled := "He recibido tu nueva pregunta, déjame procesarla."
  const QueryTimeout := "La consulta está tardando más de lo esperado. ¿Podrías repetir tu pregunta o ser más específico?"
  const QueryUnreachable := "No pude conectarme con el sistema de información en este momento. ¿Puedo ayudarte con algo más?"
  const QueryError := "Ocurrió un error al procesar tu solicitud. ¿Podrías intentar reformular tu pregunta?"

  /** The apology the query tool answers with when the knowledge-base call
      fails. */
  function QueryFailureReply(f: Failure): (r: string)
    ensures r == QueryCancelled <==> f == Cancelled
  {
    FailureRepliesDistinct();
    match f
    case Cancelled => QueryCancelled
    case Timeout => QueryTimeout
    case HttpStatus => QueryUnreachable
    case Unexpected => QueryError
  }

  const AppointmentCancelled := "He recibido una nueva solicitud, déjame procesarla."
  const AppointmentTimeout := "El proceso de agendamiento está tomando más tiempo del esperado. ¿Podrías intentar de nuevo?"
  const AppointmentUnreachable := "No pude conectar con el sistema de agendamiento. ¿Puedo ayudarte con algo más?"
  const AppointmentError := "Ocurrió un error al agendar tu cita. ¿Podrías intentar de nuevo o especificar otra fecha?"

  /** The apology the scheduling tool answers with when its backend call
      fails. */
  function AppointmentFailureReply(f: Failure): (r: string)
    ensures r == AppointmentCancelled <==> f == Cancelled
  {
    FailureRepliesDistinct();
    match f
    case Cancelled => AppointmentCancelled
    case Timeout => AppointmentTimeout
    case HttpStatus => AppointmentUnreachable
    case Unexpected => AppointmentError
  }

  /** The apology for a failed backend call; only a cancellation (a newer
      request arrived) is answered with "he recibido …". */
  function FailureReply(op: OperationType, f: Failure): (r: string)
    ensures r in {QueryCancelled, AppointmentCancelled} <==> f == Cancelled
  {
    FailureRepliesDistinct();
    match op
    case Rag => QueryFailureReply(f)
    case Appointment => AppointmentFailureReply(f)
  }

  /** The reply when the backend's webhook address is not configured. */
  function ConfigurationMissingReply(op: OperationType): string
  {
    match op
    case Rag => "Lo siento, hay un problema de configuración que me impide buscar la información."
    case Appointment => "Lo siento, hay un problema de configuración que me impide agendar la cita."
  }

  /** Different failures of the same tool are told apart by the caller. */
  lemma FailureRepliesDiffer(op: OperationType, f1: Failure, f2: Failure)
    ensures FailureReply(op, f1) == FailureReply(op, f2) <==> f1 == f2
  {
    FailureRepliesDistinct();
  }

  lemma FailureRepliesDistinct()
    ensures QueryCancelled !in {QueryTimeout, QueryUnreachable, QueryError}
    ensures QueryTimeout !in {QueryUnreachable, QueryError}
    ensures QueryUnreachable != QueryError
    ensures AppointmentCancelled !in {AppointmentTimeout, AppointmentUnreachable, AppointmentError}
    ensures AppointmentTimeout !in {AppointmentUnreachable, AppointmentError}
    ensures AppointmentUnreachable != AppointmentError
    ensures QueryCancelled !in {AppointmentTimeout, AppointmentUnreachable, AppointmentError}
    ensures AppointmentCancelled !in {QueryTimeout, QueryUnreachable, QueryError}
  {
  }
}
