/** What the two waitlist servers share: the JSON response envelope
    `{ ok, message?, data: { count, emails } }`, the failure envelope with
    zeroed data, the 80-entry window, and the shapes a POST body can take
    once the JSON reader has run. */
module Envelope {
  import opened Seqs

  /** `MAX_RESPONSE_EMAILS` in both servers. */
  const MaxResponseEmails: nat := 80

  datatype Payload = Payload(count: int, emails: seq<string>)

  /** `{ count: 0, emails: [] }`, the data of every failure. */
  const EmptyPayload := Payload(0, [])

  datatype Response = Response(status: int, ok: bool, message: Option<string>, data: Payload)

  function Failure(status: int, message: string): Response {
    Response(status, false, Some(message), EmptyPayload)
  }

  function Success(data: Payload): Response {
    Response(200, true, None, data)
  }

  /** The shape every rejection has: not ok, a message, zeroed data. */
  predicate IsFailureEnvelope(r: Response) {
    !r.ok && r.message.Some? && r.data == EmptyPayload
  }

  const InvalidEmail := Failure(400, "Invalid email")

  const InternalError := Failure(500, "Internal server error")

  /** The data both servers return on success: the number of stored
      addresses and the newest 80 of them, oldest first. */
  function WaitlistPayload(emails: seq<string>): (r: Payload)
    ensures r.count == |emails|
    ensures |r.emails| <= MaxResponseEmails
    ensures forall k | 0 <= k < |r.emails| :: r.emails[k] in emails
    ensures |emails| <= MaxResponseEmails ==> r.emails == emails
  {
    Payload(|emails|, Newest(emails, MaxResponseEmails))
  }

  /** A successful answer states the total and a suffix of the stored list
      of length min(80, total). */
  lemma WaitlistPayloadWindow(emails: seq<string>)
    ensures WaitlistPayload(emails).count == |emails|
    ensures |WaitlistPayload(emails).emails| == Min(80, |emails|)
    ensures WaitlistPayload(emails).emails == emails[|emails| - Min(80, |emails|)..]
  {
  }

  /** Inserting 81 distinct addresses: the count is 81 and the window is the
      last 80 of them, so the first one drops out. */
  lemma WindowAfter81(emails: seq<string>)
    requires |emails| == 81
    ensures WaitlistPayload(emails) == Payload(81, emails[1..])
  {
  }

  /** A request body as the JSON reader leaves it. `NoBody` and
      `Unparseable` are both read as `{}`; `NullLiteral` is the body `null`;
      `NonObject` is any other JSON value that is not an object (a number,
      a string, an array), on which `.email` is `undefined`. A field that is
      absent or `null` is `None`. */
  datatype JsonBody =
    | NoBody
    | Unparseable
    | NullLiteral
    | NonObject
    | Object(email: Option<string>, turnstileToken: Option<string>)

  /** The fallback `{}` for a missing or unparseable body. */
  function WithFallback(b: JsonBody): (r: JsonBody)
    ensures r != NoBody && r != Unparseable
    ensures b.Object? || b.NullLiteral? || b.NonObject? ==> r == b
    ensures b.NoBody? || b.Unparseable? ==> r == Object(None, None)
  {
    match b
    case NoBody => Object(None, None)
    case Unparseable => Object(None, None)
    case _ => b
  }

  datatype Fields = Fields(email: string, turnstileToken: string)

  /** `String(body.email ?? '')` and `String(body.turnstileToken ?? '')`
      on the body after the fallback; `None` when reading a property throws,
      which happens only for the body `null`. */
  function BodyFields(b: JsonBody): (r: Option<Fields>)
    ensures r.None? <==> b.NullLiteral?
    ensures b.Object? ==> r == Some(Fields(b.email.GetOr(""), b.turnstileToken.GetOr("")))
    ensures !b.Object? && !b.NullLiteral? ==> r == Some(Fields("", ""))
  {
    match WithFallback(b)
    case NullLiteral => None
    case Object(e, t) => Some(Fields(e.GetOr(""), t.GetOr("")))
    case _ => Some(Fields("", ""))
  }
}
