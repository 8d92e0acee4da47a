/** The checks `schedule_appointment` makes before it says anything or
    contacts the scheduling backend, and the texts it builds from the
    checked data. */
module Appointment {
  import opened Wrappers
  import opened Text
  import opened Calendar
  import opened Phone
  import opened RelativeDate

  /** A datum the appointment needs, in the order the missing ones are
      listed. */
  datatype Field = FullName | Mobile | Day | Hour

  function Label(f: Field): string
  {
    match f
    case FullName => "nombre completo"
    case Mobile => "número de celular"
    case Day => "fecha"
    case Hour => "hora"
  }

  /** The outcome of the checks: the first refusal met, or the data the
      appointment goes ahead with. */
  datatype Validation =
    | PhoneRejected(message: string)
    | DateRejected(error: DateError)
    | MissingData(fields: seq<Field>)
    | Ready(name: string, phone: string, date: string, time: string)

  /** The phone number first, then the date, then whatever is still
      missing. */
  function ValidateAppointment(name: Option<string>, phone: Option<string>, date: Option<string>,
                               dayReference: Option<string>, time: Option<string>, today: Date)
    : (v: Validation)
    requires IsValid(today) && today.year <= 9999
    ensures v.PhoneRejected? ==> v.message == MissingPhoneMessage || v.message == InvalidPhoneMessage
    ensures v.MissingData? ==> v.fields != []
    ensures v.Ready? ==> IsPeruvianMobile(v.phone) && v.name != [] && v.date != [] && v.time != []
  {
    var p := NormalizePhone(phone);
    if p.error.Some? then PhoneRejected(p.error.value)
    else
      var d := ParseRelativeDate(date, dayReference, today);
      if d.error.Some? then DateRejected(d.error.value)
      else
        var missing := Missing(name, p.value, d.value, time);
        if missing != [] then MissingData(missing)
        else Ready(name.value, p.value.value, d.value.value, time.value)
  }

  /** `missing_data`: the data not given (`None` or empty), in order. */
  function Missing(name: Option<string>, phone: Option<string>, date: Option<string>, time: Option<string>)
    : seq<Field>
  {
    (if Present(name) then [] else [FullName])
    + (if Present(phone) then [] else [Mobile])
    + (if Present(date) then [] else [Day])
    + (if Present(time) then [] else [Hour])
  }

  /** `", ".join(parts)`. */
  function Join(parts: seq<string>, sep: string): string
  {
    if parts == [] then ""
    else if |parts| == 1 then parts[0]
    else parts[0] + sep + Join(parts[1..], sep)
  }

  function Labels(fields: seq<Field>): (r: seq<string>)
    ensures |r| == |fields| && forall i :: 0 <= i < |fields| ==> r[i] == Label(fields[i])
  {
    if fields == [] then [] else [Label(fields[0])] + Labels(fields[1..])
  }

  const MissingDataPrefix := "Por favor, proporciona los siguientes datos para agendar la cita: "

  function MissingDataMessage(fields: seq<Field>): string
  {
    MissingDataPrefix + Join(Labels(fields), ", ") + "."
  }

  /** What the caller hears when a check fails; `None` for the two weekday
      mismatches, whose wording depends on the locale's weekday names. */
  function RefusalMessage(v: Validation): (r: Option<string>)
    requires !v.Ready?
    ensures r.None? <==> v.DateRejected? && (v.error.TomorrowMismatch? || v.error.WeekdayMismatch? || v.error.Overflow?)
    ensures v.PhoneRejected? ==> r == Some(v.message)
    ensures v.MissingData? ==> r == Some(MissingDataMessage(v.fields))
  {
    match v
    case PhoneRejected(m) => Some(m)
    case DateRejected(e) => FixedMessage(e)
    case MissingData(fs) => Some(MissingDataMessage(fs))
  }

  /** A phone number that is refused wins over everything else; a date that is
      refused wins over missing data; the rest is what is missing. */
  lemma ValidationOrder(name: Option<string>, phone: Option<string>, date: Option<string>,
                        dayReference: Option<string>, time: Option<string>, today: Date)
    requires IsValid(today) && today.year <= 9999
    ensures var v := ValidateAppointment(name, phone, date, dayReference, time, today);
      var p := NormalizePhone(phone);
      var d := ParseRelativeDate(date, dayReference, today);
      && (v.PhoneRejected? <==> p.error.Some?)
      && (v.PhoneRejected? ==> v.message == p.error.value)
      && (v.DateRejected? <==> p.error.None? && d.error.Some?)
      && (v.DateRejected? ==> v.error == d.error.value)
      && (v.MissingData? <==> p.error.None? && d.error.None? && !(Present(name) && Present(time)))
  {
    NormalizedPhoneIsPresent(phone);
  }

  /** What `schedule_appointment` says when it refuses: the phone error as
      `normalize_phone` worded it, the missing-date request when the phone
      number is accepted and no date is given, and no fixed text exactly for
      a date refused by a weekday mismatch (or by the overflow the code does
      not catch). */
  lemma RefusalIsWhatScheduleSays(name: Option<string>, phone: Option<string>, date: Option<string>,
                                  dayReference: Option<string>, time: Option<string>, today: Date)
    requires IsValid(today) && today.year <= 9999
    ensures var v := ValidateAppointment(name, phone, date, dayReference, time, today);
      var p := NormalizePhone(phone);
      var d := ParseRelativeDate(date, dayReference, today);
      && (p.error.Some? ==> !v.Ready? && RefusalMessage(v) == p.error)
      && (p.error.None? && !Present(date) ==> !v.Ready? && RefusalMessage(v) == Some(MissingDateMessage))
      && (!v.Ready? ==> (RefusalMessage(v).None? <==> p.error.None? && d.error.Some? && FixedMessage(d.error.value).None?))
  {
    ValidationOrder(name, phone, date, dayReference, time, today);
  }

  lemma NormalizedPhoneIsPresent(phone: Option<string>)
    ensures NormalizePhone(phone).value.Some? ==> Present(NormalizePhone(phone).value)
  {
  }

  /** Only the name and the time can be reported missing (a missing phone
      number or date is refused earlier), in that order, each exactly when it
      was not given. */
  lemma MissingIsNameOrTime(name: Option<string>, phone: Option<string>, date: Option<string>,
                            dayReference: Option<string>, time: Option<string>, today: Date)
    requires IsValid(today) && today.year <= 9999
    ensures var v := ValidateAppointment(name, phone, date, dayReference, time, today);
      v.MissingData? ==>
        v.fields == (if Present(name) then [] else [FullName]) + (if Present(time) then [] else [Hour])
  {
    var v := ValidateAppointment(name, phone, date, dayReference, time, today);
    if v.MissingData? {
      NormalizedPhoneIsPresent(phone);
      var p, d := NormalizePhone(phone).value, ParseRelativeDate(date, dayReference, today).value;
      assert v.fields == Missing(name, p, d, time);
      MissingWhenPhoneAndDateGiven(name, p, d, time);
    }
  }

  lemma MissingWhenPhoneAndDateGiven(name: Option<string>, phone: Option<string>, date: Option<string>,
                                     time: Option<string>)
    requires Present(phone) && Present(date)
    ensures Missing(name, phone, date, time)
            == (if Present(name) then [] else [FullName]) + (if Present(time) then [] else [Hour])
  {
  }

  /** The appointment goes ahead exactly when every check passes, with a
      valid Peruvian mobile number and a date that is not in the past. */
  lemma ReadyMeansChecked(name: Option<string>, phone: Option<string>, date: Option<string>,
                          dayReference: Option<string>, time: Option<string>, today: Date)
    requires IsValid(today) && 1000 <= today.year <= 9999
    ensures var v := ValidateAppointment(name, phone, date, dayReference, time, today);
      && (v.Ready? <==> NormalizePhone(phone).value.Some?
                        && ParseRelativeDate(date, dayReference, today).value.Some?
                        && Present(name) && Present(time))
      && (v.Ready? ==> && IsPeruvianMobile(v.phone)
                       && Usable(v.date, dayReference, today)
                       && v.name != [] && v.time != [])
  {
    NormalizedPhoneIsPresent(phone);
    AcceptedDateIsUsable(date, dayReference, today);
  }

  /** With both the name and the time left out, the message asks for both. */
  lemma NameAndTimeMissingMessage()
    ensures MissingDataMessage([FullName, Hour])
            == MissingDataPrefix + "nombre completo, hora."
  {
    var labels := Labels([FullName, Hour]);
    assert labels == [Label(FullName), Label(Hour)];
    assert Join(labels, ", ") == Label(FullName) + ", " + Label(Hour);
  }

  /** The spoken confirmation (`confirmation_msg`). */
  function ConfirmationMessage(name: string, date: string, time: string): string
  {
    "Entiendo, quieres una cita para " + name + " el " + date + " a las " + time + ". ¿Es correcto?"
  }

  /** The query text recorded for an appointment in the operation state. */
  function AppointmentQuery(name: string, date: string, time: string): string
  {
    "Agendar cita para " + name + " el " + date + " a las " + time
  }

  /** The body posted to the scheduling backend. */
  datatype Payload = Payload(name: string, phone: string, date: string, time: string, reason: string)

  const DefaultReason := "Cita con gerente comercial"

  /** Every field stripped; an absent or empty reason becomes the default. */
  function MakePayload(name: string, phone: string, date: string, time: string, reason: Option<string>)
    : Payload
  {
    Payload(Strip(name), Strip(phone), Strip(date), Strip(time),
            if Present(reason) then Strip(reason.value) else DefaultReason)
  }

  /** The backend's verdict, read from its `status` field. */
  function ScheduleReply(status: Option<string>, name: string, date: string, time: string): string
  {
    if status == Some("success") then
      "¡Cita agendada exitosamente para " + name + " el " + date + " a las " + time
      + "! Recibirás una confirmación pronto. ¿En qué más puedo ayudarte?"
    else
      "Lo siento, no se pudo agendar la cita para " + name + ". ¿Podrías intentar con otra fecha u hora?"
  }

  /** A Ready appointment's payload carries the checked phone number and date
      unchanged: both are already stripped. */
  lemma PayloadKeepsCheckedData(name: Option<string>, phone: Option<string>, date: Option<string>,
                                dayReference: Option<string>, time: Option<string>, today: Date,
                                reason: Option<string>)
    requires IsValid(today) && 1000 <= today.year <= 9999
    ensures var v := ValidateAppointment(name, phone, date, dayReference, time, today);
      v.Ready? ==>
        var p := MakePayload(v.name, v.phone, v.date, v.time, reason);
        p.phone == v.phone && ParseDate(p.date).Some?
  {
    var v := ValidateAppointment(name, phone, date, dayReference, time, today);
    if v.Ready? {
      ReadyMeansChecked(name, phone, date, dayReference, time, today);
      MobileIsClean(v.phone);
      UsableIsStripped(v.date, dayReference, today);
    }
  }

  lemma UsableIsStripped(out: string, dayReference: Option<string>, today: Date)
    requires IsValid(today) && Usable(out, dayReference, today)
    ensures Strip(out) == out
  {
    var f := Format(ParseDate(out).value);
    assert IsDateChar(f[0]) && IsDateChar(f[|f| - 1]);
    StripUnchanged(out);
  }
}
