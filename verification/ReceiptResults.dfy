/** How a command's result is stored beside its receipt: as a JSON object whose
    times are ISO texts. */
module ReceiptResults {
  import opened Options
  import opened IsoTime

  datatype Event = Signin | Signout | Denied

  datatype CommandResult =
    | VerificationToken(identifier: string, expires: Time, consumed: bool)
    | AuthEvent(event: Event, occurredAt: Time)

  datatype Field = KindField | IdentifierField | ExpiresField | ConsumedField | EventField | OccurredAtField

  /** A JSON value as far as results use it. */
  datatype Stored = Text(text: string) | Flag(flag: bool) | Fields(fields: map<Field, Stored>) | Other

  function EventName(e: Event): string {
    match e
    case Signin => "signin"
    case Signout => "signout"
    case Denied => "denied"
  }

  function EventNamed(s: string): Option<Event> {
    if s == "signin" then Some(Signin) else if s == "signout" then Some(Signout) else if s == "denied" then Some(Denied)
    else None
  }

  function SerializeResult(r: CommandResult): Stored {
    match r
    case VerificationToken(identifier, expires, consumed) =>
      Fields(map[KindField := Text("verification_token"), IdentifierField := Text(identifier),
                 ExpiresField := Text(ToIso(expires)), ConsumedField := Flag(consumed)])
    case AuthEvent(event, occurredAt) =>
      Fields(map[KindField := Text("auth_event"), EventField := Text(EventName(event)),
                 OccurredAtField := Text(ToIso(occurredAt))])
  }

  predicate TextAt(m: map<Field, Stored>, f: Field) { f in m && m[f].Text? }

  /** A date made from a text that is no date has no time; here it reads as 0. */
  function DateOf(s: string): Time {
    var t := FromIso(s);
    if t.Some? && 0 <= t.value <= LAST_TIME then t.value else 0
  }

  function ParseResult(v: Option<Stored>): Option<CommandResult> {
    if v.None? || !v.value.Fields? then None
    else
      var m := v.value.fields;
      if TextAt(m, KindField) && m[KindField].text == "verification_token" && TextAt(m, IdentifierField)
          && TextAt(m, ExpiresField)
         && ConsumedField in m && m[ConsumedField].Flag?
      then Some(VerificationToken(m[IdentifierField].text, DateOf(m[ExpiresField].text), m[ConsumedField].flag))
      else if TextAt(m, KindField) && m[KindField].text == "auth_event" && TextAt(m, EventField)
              && EventNamed(m[EventField].text).Some? && TextAt(m, OccurredAtField)
      then Some(AuthEvent(EventNamed(m[EventField].text).value, DateOf(m[OccurredAtField].text)))
      else None
  }

  /** Every result survives its storage. */
  lemma ResultRoundTrip(r: CommandResult)
    ensures ParseResult(Some(SerializeResult(r))) == Some(r)
  {
    hide ToIso, FromIso;
    match r
    case VerificationToken(_, expires, _) => IsoRoundTrip(expires);
    case AuthEvent(event, occurredAt) =>
      IsoRoundTrip(occurredAt);
      assert EventNamed(EventName(event)) == Some(event);
      assert "auth_event" != "verification_token" by { assert |"auth_event"| != |"verification_token"|; }
  }
}
