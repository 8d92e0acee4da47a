/** `parse_relative_date`: an appointment date given as "mañana" or as
    `DD/MM/YYYY`, optionally checked against a Spanish weekday name, turned
    into `DD/MM/YYYY` or into an error. The current date in Lima is a
    parameter. */
module RelativeDate {
  import opened Wrappers
  import opened Text
  import opened Calendar

  /** Why a date was refused. The two weekday mismatches carry what their
      messages are built from (the weekday of the date, Monday = 0, and the
      weekday name the caller gave). */
  datatype DateError =
    | MissingDate
    | TomorrowMismatch(actual: int, named: string)
    | PastDate
    | WeekdayMismatch(input: string, actual: int, named: string)
    | BadFormat
    /** `today + timedelta(days=1)` past 31/12/9999 raises `OverflowError`,
        which nothing catches. */
    | Overflow

  const MissingDateMessage := "Por favor, proporciona la fecha de la cita."
  const PastDateMessage := "La fecha no puede ser anterior a hoy. Por favor, especifica una fecha válida."
  const BadFormatMessage := "No entendí la fecha. Por favor, usa el formato día/mes/año, como 05/08/2025, o di 'mañana'."

  /** The spoken text of the errors whose wording does not depend on the
      weekday names of the locale. */
  function FixedMessage(e: DateError): (r: Option<string>)
    ensures r.None? <==> e.TomorrowMismatch? || e.WeekdayMismatch? || e.Overflow?
    ensures r == Some(MissingDateMessage) <==> e == MissingDate
    ensures r == Some(PastDateMessage) <==> e == PastDate
    ensures r == Some(BadFormatMessage) <==> e == BadFormat
  {
    DateMessagesDistinct();
    match e
    case MissingDate => Some(MissingDateMessage)
    case PastDate => Some(PastDateMessage)
    case BadFormat => Some(BadFormatMessage)
    case _ => None
  }

  lemma DateMessagesDistinct()
    ensures MissingDateMessage !in {PastDateMessage, BadFormatMessage}
    ensures PastDateMessage != BadFormatMessage
  {
  }

  /** `days_map`: Spanish weekday names (with and without accents) to
      `weekday()` numbers. */
  function DayIndex(name: string): (r: Option<int>)
    ensures r.Some? ==> 0 <= r.value < 7
  {
    if name == "lunes" then Some(0)
    else if name == "martes" then Some(1)
    else if name == "miércoles" || name == "miercoles" then Some(2)
    else if name == "jueves" then Some(3)
    else if name == "viernes" then Some(4)
    else if name == "sábado" || name == "sabado" then Some(5)
    else if name == "domingo" then Some(6)
    else None
  }

  /** The normalised `day_reference`, when one was given. */
  function Reference(dayReference: Option<string>): (r: Option<string>)
    ensures r.Some? <==> Present(dayReference)
  {
    if Present(dayReference) then Some(Strip(Lower(dayReference.value))) else None
  }

  /** The weekday `day_reference` names contradicts `weekday`: it was given,
      it is one of the known names, and its number differs. An unknown name
      never contradicts. */
  predicate Contradicts(dayReference: Option<string>, weekday: int)
    ensures Contradicts(dayReference, weekday) ==> Present(dayReference)
  {
    var r := Reference(dayReference);
    r.Some? && DayIndex(r.value).Some? && DayIndex(r.value).value != weekday
  }

  /** The input asks for tomorrow. */
  predicate SaysTomorrow(s: string)
  {
    Contains(s, "mañana") || Contains(s, "manana")
  }

  const LastDate := Date(31, 12, 9999)

  function ParseRelativeDate(dateInput: Option<string>, dayReference: Option<string>, today: Date)
    : (r: Checked<string, DateError>)
    requires IsValid(today) && today.year <= 9999
    ensures r.ExactlyOne()
    ensures !Present(dateInput) <==> r.error == Some(MissingDate)
    ensures r.value.Some? ==> |r.value.value| >= 7
  {
    if !Present(dateInput) then Reject(MissingDate)
    else ParseNormalised(Strip(Lower(dateInput.value)), dayReference, today)
  }

  /** The lower-cased, stripped input: "mañana" anywhere in it wins over
      any date it may also hold. */
  function ParseNormalised(s: string, dayReference: Option<string>, today: Date)
    : (r: Checked<string, DateError>)
    requires IsValid(today) && today.year <= 9999
    ensures r.ExactlyOne() && r.error != Some(MissingDate)
    ensures r.value.Some? ==> |r.value.value| >= 7
  {
    if SaysTomorrow(s) then TomorrowDate(dayReference, today)
    else ExplicitDate(s, dayReference, today)
  }

  function TomorrowDate(dayReference: Option<string>, today: Date): (r: Checked<string, DateError>)
    requires IsValid(today) && today.year <= 9999
    ensures r.ExactlyOne() && r.error != Some(MissingDate)
    ensures r.value.Some? ==> |r.value.value| >= 7
  {
    if today == LastDate then Reject(Overflow)
    else
      var t := Tomorrow(today);
      if Contradicts(dayReference, Weekday(t)) then
        Reject(TomorrowMismatch(Weekday(t), Reference(dayReference).value))
      else
        Accept(Format(t))
  }

  function ExplicitDate(s: string, dayReference: Option<string>, today: Date): (r: Checked<string, DateError>)
    requires IsValid(today)
    ensures r.ExactlyOne() && r.error != Some(MissingDate)
    ensures r.value.Some? ==> |r.value.value| >= 7
  {
    match ParseDate(s)
    case None => Reject(BadFormat)
    case Some(d) =>
      if Before(d, today) then Reject(PastDate)
      else if Contradicts(dayReference, Weekday(d)) then
        Reject(WeekdayMismatch(s, Weekday(d), Reference(dayReference).value))
      else
        Accept(Format(d))
  }

  /** "mañana" gives the day after today, unless a known weekday name says
      otherwise; an absent or unknown name is ignored. */
  lemma TomorrowBranch(x: string, dayReference: Option<string>, today: Date)
    requires IsValid(today) && today.year <= 9999 && today != LastDate
    requires SaysTomorrow(Strip(Lower(x)))
    ensures var r := ParseRelativeDate(Some(x), dayReference, today);
      && (r.value.Some? <==> !Contradicts(dayReference, Weekday(Tomorrow(today))))
      && (r.value.Some? ==> r.value.value == Format(Tomorrow(today))
                            && Ordinal(Tomorrow(today)) == Ordinal(today) + 1)
      && (r.error.Some? ==> r.error.value.TomorrowMismatch? && r.error.value.actual == Weekday(Tomorrow(today)))
  {
    TomorrowIsNextOrdinal(today);
  }

  /** Without "mañana" the input must read as `DD/MM/YYYY`; a date before
      today is refused before the weekday name is looked at. */
  lemma ExplicitBranch(x: string, dayReference: Option<string>, today: Date)
    requires IsValid(today) && today.year <= 9999
    requires x != [] && !SaysTomorrow(Strip(Lower(x)))
    ensures var r := ParseRelativeDate(Some(x), dayReference, today);
      var p := ParseDate(Strip(Lower(x)));
      && (r.error == Some(BadFormat) <==> p.None?)
      && (r.error == Some(PastDate) <==> p.Some? && Before(p.value, today))
      && (r.error.Some? && r.error.value.WeekdayMismatch? <==>
            p.Some? && !Before(p.value, today) && Contradicts(dayReference, Weekday(p.value)))
      && (r.value.Some? ==> p.Some? && r.value.value == Format(p.value))
      && (p.Some? && !Before(p.value, today) && !Contradicts(dayReference, Weekday(p.value)) ==>
            r == Accept(Format(p.value)))
      && (r.error.Some? && r.error.value.WeekdayMismatch? ==>
            r.error.value == WeekdayMismatch(Strip(Lower(x)), Weekday(p.value), Reference(dayReference).value))
  {
  }

  /** What an accepted date means: it reads back as a date that is not
      before today and that falls on the weekday named, if a known name was
      given. */
  lemma AcceptedDateIsUsable(dateInput: Option<string>, dayReference: Option<string>, today: Date)
    requires IsValid(today) && 1000 <= today.year <= 9999
    ensures var r := ParseRelativeDate(dateInput, dayReference, today);
      r.value.Some? ==> Usable(r.value.value, dayReference, today)
  {
    if Present(dateInput) {
      var s := Strip(Lower(dateInput.value));
      if SaysTomorrow(s) {
        TomorrowIsUsable(dayReference, today);
      } else {
        ExplicitIsUsable(s, dayReference, today);
      }
    }
  }

  /** `out` reads back as a date it is the `DD/MM/YYYY` form of, not before
      today, on the weekday named. */
  predicate Usable(out: string, dayReference: Option<string>, today: Date)
    requires IsValid(today)
  {
    && ParseDate(out).Some?
    && out == Format(ParseDate(out).value)
    && !Before(ParseDate(out).value, today)
    && !Contradicts(dayReference, Weekday(ParseDate(out).value))
  }

  lemma TomorrowIsUsable(dayReference: Option<string>, today: Date)
    requires IsValid(today) && 1000 <= today.year <= 9999
    ensures var r := TomorrowDate(dayReference, today);
      r.value.Some? ==> Usable(r.value.value, dayReference, today)
  {
    if today != LastDate {
      var t := Tomorrow(today);
      assert t.year <= 9999;
      ParseFormatRoundTrip(t);
      BeforeIsChronological(t, today);
    }
  }

  lemma ExplicitIsUsable(s: string, dayReference: Option<string>, today: Date)
    requires IsValid(today) && 1000 <= today.year <= 9999
    ensures var r := ExplicitDate(s, dayReference, today);
      r.value.Some? ==> Usable(r.value.value, dayReference, today)
  {
    if ParseDate(s).Some? {
      var d := ParseDate(s).value;
      if !Before(d, today) {
        ParseFormatRoundTrip(d);
      }
    }
  }

  /** A nonempty text of digits and '/' is already lower case, stripped and
      free of "mañana". */
  lemma DateTextIsNormal(f: string)
    requires f != [] && forall i :: 0 <= i < |f| ==> IsDateChar(f[i])
    ensures Strip(Lower(f)) == f
  {
    LowerUnchanged(f);
    StripUnchanged(f);
  }

  lemma DateTextIsNotTomorrow(f: string)
    requires forall i :: 0 <= i < |f| ==> IsDateChar(f[i])
    ensures !SaysTomorrow(f)
  {
    AbsentFirstChar(f, "mañana");
    AbsentFirstChar(f, "manana");
  }

  /** A formatted date is already lower case and stripped ... */
  lemma FormatIsNormal(d: Date)
    requires IsValid(d)
    ensures Strip(Lower(Format(d))) == Format(d)
  {
    var f := Format(d);
    DateTextIsNormal(f);
  }

  /** ... and does not say "mañana". */
  lemma FormatIsNotTomorrow(d: Date)
    requires IsValid(d)
    ensures !SaysTomorrow(Format(d))
  {
    var f := Format(d);
    DateTextIsNotTomorrow(f);
  }

  /** A formatted date on or after today is accepted as it stands. */
  lemma FormattedDateIsAccepted(d: Date, today: Date)
    requires IsValid(today) && today.year <= 9999
    requires IsValid(d) && 1000 <= d.year <= 9999 && !Before(d, today)
    ensures ParseRelativeDate(Some(Format(d)), None, today) == Accept(Format(d))
  {
    ParseFormatRoundTrip(d);
    DateTextIsExplicit(Format(d), today);
    ReadBackDateIsAccepted(Format(d), d, today);
  }

  /** A text of digits and '/' goes straight to the explicit-date branch. */
  lemma DateTextIsExplicit(f: string, today: Date)
    requires IsValid(today) && today.year <= 9999
    requires 7 <= |f| && forall i :: 0 <= i < |f| ==> IsDateChar(f[i])
    ensures ParseRelativeDate(Some(f), None, today) == ExplicitDate(f, None, today)
  {
    DateTextIsParsedAsIs(f, today);
    DateTextIsNotTomorrowBranch(f, today);
  }

  lemma DateTextIsParsedAsIs(f: string, today: Date)
    requires IsValid(today) && today.year <= 9999
    requires 7 <= |f| && forall i :: 0 <= i < |f| ==> IsDateChar(f[i])
    ensures ParseRelativeDate(Some(f), None, today) == ParseNormalised(f, None, today)
  {
    DateTextIsNormal(f);
    NormalInputIsParsedAsIs(f, None, today);
  }

  lemma DateTextIsNotTomorrowBranch(f: string, today: Date)
    requires IsValid(today) && today.year <= 9999
    requires forall i :: 0 <= i < |f| ==> IsDateChar(f[i])
    ensures ParseNormalised(f, None, today) == ExplicitDate(f, None, today)
  {
    DateTextIsNotTomorrow(f);
    NotTomorrowIsExplicit(f, None, today);
  }

  lemma NormalInputIsParsedAsIs(f: string, dayReference: Option<string>, today: Date)
    requires IsValid(today) && today.year <= 9999
    requires f != [] && Strip(Lower(f)) == f
    ensures ParseRelativeDate(Some(f), dayReference, today) == ParseNormalised(f, dayReference, today)
  {
  }

  lemma NotTomorrowIsExplicit(s: string, dayReference: Option<string>, today: Date)
    requires IsValid(today) && today.year <= 9999
    requires !SaysTomorrow(s)
    ensures ParseNormalised(s, dayReference, today) == ExplicitDate(s, dayReference, today)
  {
  }

  lemma ReadBackDateIsAccepted(f: string, d: Date, today: Date)
    requires IsValid(today) && IsValid(d) && !Before(d, today)
    requires ParseDate(f) == Some(d) && Format(d) == f
    ensures ExplicitDate(f, None, today) == Accept(f)
  {
  }

  /** Feeding an accepted date back in, on the same day and with no weekday
      name, gives the same date again. */
  lemma AcceptedDateIsStable(dateInput: Option<string>, dayReference: Option<string>, today: Date)
    requires IsValid(today) && 1000 <= today.year <= 9999
    ensures var r := ParseRelativeDate(dateInput, dayReference, today);
      r.value.Some? ==> ParseRelativeDate(r.value, None, today) == r
  {
    var r := ParseRelativeDate(dateInput, dayReference, today);
    if r.value.Some? {
      var s := Strip(Lower(dateInput.value));
      if SaysTomorrow(s) {
        TomorrowIsStable(dayReference, today);
      } else {
        ExplicitDateIsStable(s, dayReference, today);
      }
    }
  }

  lemma TomorrowIsStable(dayReference: Option<string>, today: Date)
    requires IsValid(today) && 1000 <= today.year <= 9999
    requires TomorrowDate(dayReference, today).value.Some?
    ensures var r := TomorrowDate(dayReference, today);
      ParseRelativeDate(r.value, None, today) == r
  {
    var t := Tomorrow(today);
    BeforeIsChronological(t, today);
    FormattedDateIsAccepted(t, today);
  }

  lemma ExplicitDateIsStable(s: string, dayReference: Option<string>, today: Date)
    requires IsValid(today) && 1000 <= today.year <= 9999
    requires ExplicitDate(s, dayReference, today).value.Some?
    ensures var r := ExplicitDate(s, dayReference, today);
      ParseRelativeDate(r.value, None, today) == r
  {
    var d := ParseDate(s).value;
    FormattedDateIsAccepted(d, today);
  }

  lemma TomorrowOfFourAugust2025()
    ensures Tomorrow(Date(4, 8, 2025)) == Date(5, 8, 2025)
    ensures Weekday(Date(5, 8, 2025)) == 1
  {
  }

  lemma LunesNormalised()
    ensures Strip(Lower("Lunes")) == "lunes"
  {
    assert Lower("Lunes") == "lunes" by {
      assert LowerChar('L') == 'l';
    }
    StripUnchanged("lunes");
  }

  lemma LunesReference()
    ensures Reference(Some("Lunes")) == Some("lunes")
  {
    LunesNormalised();
  }

  lemma MananaSaysTomorrow()
    ensures Strip(Lower("mañana")) == "mañana"
    ensures SaysTomorrow("mañana")
  {
    assert Lower("mañana") == "mañana";
    StripUnchanged("mañana");
    assert OccursAt("mañana", "mañana", 0);
  }

  /** A "mañana" request whose weekday name contradicts tomorrow is refused
      with tomorrow's weekday. */
  lemma TomorrowContradicted(x: string, dayReference: Option<string>, today: Date)
    requires IsValid(today) && today.year <= 9999 && today != LastDate
    requires x != [] && SaysTomorrow(Strip(Lower(x)))
    requires Contradicts(dayReference, Weekday(Tomorrow(today)))
    ensures ParseRelativeDate(Some(x), dayReference, today)
            == Reject(TomorrowMismatch(Weekday(Tomorrow(today)), Reference(dayReference).value))
  {
  }

  /** On Monday 4 August 2025, "mañana" is a Tuesday: calling it "lunes" is
      refused. */
  lemma MondayTomorrowIsNotMonday()
    ensures ParseRelativeDate(Some("mañana"), Some("Lunes"), Date(4, 8, 2025))
            == Reject(TomorrowMismatch(1, "lunes"))
  {
    TomorrowOfFourAugust2025();
    LunesReference();
    MananaSaysTomorrow();
    TomorrowContradicted("mañana", Some("Lunes"), Date(4, 8, 2025));
  }
}
