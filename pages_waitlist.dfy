/** The Cloudflare Pages function behind `/api/waitlist`: a GET that reports
    the list and a POST that runs a fixed sequence of checks, inserts the
    normalised address if it is new, mails a welcome message for a new
    address, and reports the list again.

    The D1 table is an insertion-ordered sequence of distinct addresses
    (`created_at, id` order), the Turnstile endpoint an oracle from the
    submitted form to its reply, and the Resend endpoint an outbox of the
    messages handed to it. */
module PagesWaitlist {
  import opened Seqs
  import opened Strings
  import opened EmailAddress
  import opened Envelope

  /** The bindings read from the environment; `hasDb` says whether
      `WAITLIST_DB` is bound. */
  datatype Env = Env(
    hasDb: bool,
    turnstileSecret: Option<string>,
    resendApiKey: Option<string>,
    resendFrom: Option<string>,
    resendReplyTo: Option<string>)

  /** Whether the D1 calls of one request throw: the insert, or the reads
      of `readPayload`. */
  datatype StoreHealth = StoreHealth(insertThrows: bool, readThrows: bool)

  const NotConfigured := Failure(500, "WAITLIST_DB is not configured")
  const SecretMissing := Failure(500, "Turnstile secret is not configured")
  const SecurityCheckMissing := Failure(400, "Security check missing")
  const SecurityCheckFailed := Failure(400, "Security check failed")

  /** Every address in the table is distinct (the `UNIQUE(email)` conflict
      target), normalised and accepted by the email test. */
  predicate StoreInvariant(rows: seq<string>) {
    && Distinct(rows)
    && forall k | 0 <= k < |rows| :: IsNormalized(rows[k]) && MatchesEmailRegex(rows[k])
  }

  /* ---------------------------- verifyTurnstile ---------------------------- */

  /** The form fields posted to siteverify. */
  datatype SiteverifyForm = SiteverifyForm(secret: string, response: string, remoteIp: Option<string>)

  /** What the siteverify call can come back with: a non-2xx status, a JSON
      body whose `success` field is given or absent, or a thrown error
      (transport failure, a body that is not JSON, or the JSON body `null`,
      whose `success` field cannot be read). */
  datatype SiteverifyReply = HttpError | Answered(success: Option<bool>) | Unreachable

  /** The `remoteip` field is set only for a non-empty header value. */
  function SiteverifyRequest(secret: string, token: string, remoteIp: Option<string>): (f: SiteverifyForm)
    ensures f.secret == secret && f.response == token
    ensures f.remoteIp.Some? <==> remoteIp.Some? && remoteIp.value != ""
    ensures f.remoteIp.Some? ==> f.remoteIp == remoteIp
  {
    SiteverifyForm(secret, token, if remoteIp.Some? && remoteIp.value != "" then remoteIp else None)
  }

  /** `verifyTurnstile`: `None` when it throws, otherwise its boolean. It
      fails closed: only an explicit `success: true` passes. */
  function Verdict(reply: SiteverifyReply): (v: Option<bool>)
    ensures v.None? <==> reply.Unreachable?
    ensures v == Some(true) <==> reply == Answered(Some(true))
  {
    match reply
    case HttpError => Some(false)
    case Answered(success) => Some(success == Some(true))
    case Unreachable => None
  }

  /* ---------------------------- sendWelcomeEmail --------------------------- */

  const DefaultFrom := "Roman from Yokva <ceo@yokva.com>"
  const DefaultReplyTo := "ceo@yokva.com"
  const WelcomeSubject := "You are on the Yokva waitlist"

  /** A message handed to the mail service (its fixed text is left out). */
  datatype Mail = Mail(from: string, to: seq<string>, subject: string, replyTo: string)

  /** `String(v ?? '').trim() || fallback` */
  function TrimmedOr(v: Option<string>, fallback: string): (r: string)
    ensures Trim(v.GetOr("")) != "" ==> r == Trim(v.GetOr(""))
    ensures Trim(v.GetOr("")) == "" ==> r == fallback
  {
    var t := Trim(v.GetOr(""));
    if t == "" then fallback else t
  }

  /** The message `sendWelcomeEmail` sends, or `None` when the API key is
      blank and it logs and returns. Whether the send succeeds is not
      observable to the caller: every failure is caught and logged. */
  function WelcomeEmail(env: Env, email: string): (m: Option<Mail>)
    ensures m.None? <==> Trim(env.resendApiKey.GetOr("")) == ""
    ensures m.Some? ==> m.value.to == [email] && m.value.subject == WelcomeSubject
    ensures m.Some? ==> m.value.from == TrimmedOr(env.resendFrom, DefaultFrom)
    ensures m.Some? ==> m.value.replyTo == TrimmedOr(env.resendReplyTo, DefaultReplyTo)
    ensures m.Some? ==> m.value.from != "" && m.value.replyTo != ""
  {
    if Trim(env.resendApiKey.GetOr("")) == "" then None
    else Some(Mail(TrimmedOr(env.resendFrom, DefaultFrom), [email], WelcomeSubject,
                   TrimmedOr(env.resendReplyTo, DefaultReplyTo)))
  }

  function Mailed(m: Option<Mail>): seq<Mail> {
    if m.Some? then [m.value] else []
  }

  /* ------------------------------ the table ------------------------------- */

  /** `INSERT … ON CONFLICT(email) DO NOTHING`: the table gains the address
      at the end exactly when it did not hold it, and loses nothing. */
  function WithSignup(rows: seq<string>, email: string): (r: seq<string>)
    ensures email in r
    ensures |r| == |rows| + (if email in rows then 0 else 1)
    ensures r[..|rows|] == rows
    ensures forall x :: x in r <==> x in rows || x == email
    ensures Distinct(rows) ==> Distinct(r)
  {
    if email in rows then rows else rows + [email]
  }

  /* ------------------------------ onRequestGet ----------------------------- */

  /** The answer to a GET for a table holding `rows`. */
  function Get(rows: seq<string>, env: Env, store: StoreHealth): (r: Response)
    ensures r.ok <==> env.hasDb && !store.readThrows
    ensures r.ok ==> r.status == 200 && r.data == WaitlistPayload(rows)
    ensures !r.ok ==> IsFailureEnvelope(r) && r.status == 500
    ensures !env.hasDb ==> r == NotConfigured
  {
    if !env.hasDb then NotConfigured
    else if store.readThrows then InternalError
    else Success(WaitlistPayload(rows))
  }

  /* ----------------------------- onRequestPost ----------------------------- */

  /** What one POST produces: the response, the table afterwards, and the
      message handed to the mail service, if any. */
  datatype PostResult = PostResult(response: Response, rows: seq<string>, mail: Option<Mail>)

  /** The address a body stands for, `String(body.email ?? '').trim().toLowerCase()`. */
  function CandidateEmail(body: JsonBody): (c: Option<string>)
    ensures c.None? <==> body.NullLiteral?
    ensures body.Object? && body.email.Some? ==> c == Some(Normalize(body.email.value))
    ensures body.Object? && body.email.None? ==> c == Some("")
    ensures c.Some? && !body.Object? ==> c == Some("")
  {
    match BodyFields(body)
    case None => None
    case Some(f) => Some(Normalize(f.email))
  }

  /** What the checks of a POST decide before anything is written: the
      normalised address to store, or the rejection to answer with. */
  datatype Admission = Admitted(email: string) | Rejected(response: Response)

  /** The checks on the read request, in their order: email shape, secret
      configured, token present, verifier verdict. `email` and `token` are
      the normalised and trimmed fields. */
  function Checks(secret: string, email: string, token: string, remoteIp: Option<string>,
                  siteverify: SiteverifyForm -> SiteverifyReply): (a: Admission)
    ensures a.Admitted? ==> a.email == email && MatchesEmailRegex(email)
    ensures a.Rejected? ==> IsFailureEnvelope(a.response) && (a.response.status == 400 || a.response.status == 500)
  {
    if !MatchesEmailRegex(email) then Rejected(InvalidEmail)
    else if secret == "" then Rejected(SecretMissing)
    else if token == "" then Rejected(SecurityCheckMissing)
    else match Verdict(siteverify(SiteverifyRequest(secret, token, remoteIp)))
      case None => Rejected(InternalError)
      case Some(human) => if human then Admitted(email) else Rejected(SecurityCheckFailed)
  }

  /** The checks of a POST, in their order; the first that fails decides
      the answer: database bound, body readable, then the checks on its
      fields. */
  function Admit(hasDb: bool, secretSetting: Option<string>, body: JsonBody, remoteIp: Option<string>,
                 siteverify: SiteverifyForm -> SiteverifyReply): (a: Admission)
    ensures a.Admitted? ==> hasDb && CandidateEmail(body) == Some(a.email) && MatchesEmailRegex(a.email)
    ensures a.Rejected? ==> IsFailureEnvelope(a.response) && (a.response.status == 400 || a.response.status == 500)
  {
    if !hasDb then Rejected(NotConfigured)
    else match BodyFields(body)
      case None => Rejected(InternalError)
      case Some(f) =>
        Checks(Trim(secretSetting.GetOr("")), Normalize(f.email), Trim(f.turnstileToken), remoteIp, siteverify)
  }

  /** The insert, the welcome message for a new address, and the re-read
      that answers. */
  function Store(rows: seq<string>, env: Env, email: string, store: StoreHealth): (r: PostResult)
    ensures store.insertThrows ==> r.rows == rows && r.mail.None?
    ensures !store.insertThrows ==> r.rows == WithSignup(rows, email)
    ensures r.mail.Some? ==> email !in rows && r.mail == WelcomeEmail(env, email)
    ensures r.response.ok <==> !store.insertThrows && !store.readThrows
  {
    if store.insertThrows then PostResult(InternalError, rows, None)
    else
      var after := WithSignup(rows, email);
      var mail := if email in rows then None else WelcomeEmail(env, email);
      if store.readThrows then PostResult(InternalError, after, mail)
      else PostResult(Success(WaitlistPayload(after)), after, mail)
  }

  /** The POST pipeline: the checks, then the write. */
  function Post(rows: seq<string>, env: Env, body: JsonBody, remoteIp: Option<string>,
                siteverify: SiteverifyForm -> SiteverifyReply, store: StoreHealth): (r: PostResult)
    ensures r.rows == rows || (CandidateEmail(body).Some? && r.rows == rows + [CandidateEmail(body).value])
    ensures r.mail.Some? ==> r.rows == rows + r.mail.value.to
    ensures r.response.ok ==> env.hasDb && CandidateEmail(body).Some?
  {
    match Admit(env.hasDb, env.turnstileSecret, body, remoteIp, siteverify)
    case Rejected(response) => PostResult(response, rows, None)
    case Admitted(email) => Store(rows, env, email, store)
  }

  /** What the write does with an admitted address: the insert adds it
      unless it is already stored, only a new address is mailed, and only a
      failing insert or re-read turns the answer into a 500. */
  lemma StoreEffects(rows: seq<string>, env: Env, email: string, store: StoreHealth)
    ensures var r := Store(rows, env, email, store);
            var added := !store.insertThrows && email !in rows;
            && r.rows == (if added then rows + [email] else rows)
            && r.mail == (if added then WelcomeEmail(env, email) else None)
            && (r.response.ok <==> !store.insertThrows && !store.readThrows)
            && (r.response.ok ==> r.response == Success(WaitlistPayload(WithSignup(rows, email))))
            && (!r.response.ok ==> r.response == InternalError)
  {
  }

  /** The checks at the head of `onRequestPost`, returning at the first
      that fails. It decides exactly as Admit, and exists as a method only
      so that OnRequestPost falls into two steps, the checks and Commit,
      each small enough to verify on its own. */
  method CheckRequest(env: Env, body: JsonBody, remoteIp: Option<string>,
                      siteverify: SiteverifyForm -> SiteverifyReply)
    returns (admission: Admission)
    ensures admission == Admit(env.hasDb, env.turnstileSecret, body, remoteIp, siteverify)
  {
    if !env.hasDb {
      return Rejected(NotConfigured);
    }
    var fields := BodyFields(body);
    if fields.None? {
      return Rejected(InternalError);
    }
    var email := Normalize(fields.value.email);
    var turnstileToken := Trim(fields.value.turnstileToken);
    var turnstileSecret := Trim(env.turnstileSecret.GetOr(""));
    if !MatchesEmailRegex(email) {
      return Rejected(InvalidEmail);
    }
    if turnstileSecret == "" {
      return Rejected(SecretMissing);
    }
    if turnstileToken == "" {
      return Rejected(SecurityCheckMissing);
    }
    var isHuman := Verdict(siteverify(SiteverifyRequest(turnstileSecret, turnstileToken, remoteIp)));
    if isHuman.None? {
      return Rejected(InternalError);
    }
    if !isHuman.value {
      return Rejected(SecurityCheckFailed);
    }
    admission := Admitted(email);
  }

  /** The write keeps the table invariant for an address that is
      normalised and passes the email test. */
  lemma StoreKeepsInvariant(rows: seq<string>, env: Env, email: string, store: StoreHealth)
    requires StoreInvariant(rows) && IsNormalized(email) && MatchesEmailRegex(email)
    ensures StoreInvariant(Store(rows, env, email, store).rows)
  {
    var after := Store(rows, env, email, store).rows;
    if after != rows {
      assert after == rows + [email];
      forall k | 0 <= k < |after|
        ensures IsNormalized(after[k]) && MatchesEmailRegex(after[k])
      {
        if k < |rows| {
          assert after[k] == rows[k];
        }
      }
    }
  }

  /** The checks in order, each stated for inputs that passed the earlier
      ones. */
  lemma PostCheckOrder(rows: seq<string>, env: Env, body: JsonBody, remoteIp: Option<string>,
                       siteverify: SiteverifyForm -> SiteverifyReply, store: StoreHealth)
    ensures !env.hasDb ==> Post(rows, env, body, remoteIp, siteverify, store).response == NotConfigured
    ensures env.hasDb && body.NullLiteral? ==>
      Post(rows, env, body, remoteIp, siteverify, store).response == InternalError
    ensures env.hasDb && CandidateEmail(body).Some? && !MatchesEmailRegex(CandidateEmail(body).value) ==>
      Post(rows, env, body, remoteIp, siteverify, store).response == InvalidEmail
    ensures (env.hasDb && CandidateEmail(body).Some? && MatchesEmailRegex(CandidateEmail(body).value)
             && Trim(env.turnstileSecret.GetOr("")) == "") ==>
      Post(rows, env, body, remoteIp, siteverify, store).response == SecretMissing
    ensures (env.hasDb && CandidateEmail(body).Some? && MatchesEmailRegex(CandidateEmail(body).value)
             && Trim(env.turnstileSecret.GetOr("")) != "" && Trim(BodyFields(body).value.turnstileToken) == "") ==>
      Post(rows, env, body, remoteIp, siteverify, store).response == SecurityCheckMissing
  {
    if env.hasDb && BodyFields(body).Some? {
      var f := BodyFields(body).value;
      var email := Normalize(f.email);
      assert CandidateEmail(body) == Some(email);
      assert Admit(env.hasDb, env.turnstileSecret, body, remoteIp, siteverify)
          == Checks(Trim(env.turnstileSecret.GetOr("")), email, Trim(f.turnstileToken), remoteIp, siteverify);
    }
  }

  /** The verifier is consulted only once every earlier check has passed,
      with the trimmed secret and token, and it fails closed: a non-2xx
      status or a reply without `success: true` is a 400, a thrown error a
      500, and neither writes anything. */
  lemma PostVerifierFailsClosed(rows: seq<string>, env: Env, body: JsonBody, remoteIp: Option<string>,
                                siteverify: SiteverifyForm -> SiteverifyReply, store: StoreHealth)
    requires env.hasDb && CandidateEmail(body).Some? && MatchesEmailRegex(CandidateEmail(body).value)
    requires Trim(env.turnstileSecret.GetOr("")) != "" && Trim(BodyFields(body).value.turnstileToken) != ""
    ensures var reply := siteverify(SiteverifyRequest(Trim(env.turnstileSecret.GetOr("")),
                                                      Trim(BodyFields(body).value.turnstileToken), remoteIp));
            var r := Post(rows, env, body, remoteIp, siteverify, store);
            && (reply.Unreachable? ==> r.response == InternalError && r.rows == rows)
            && (reply.HttpError? || (reply.Answered? && reply.success != Some(true)) ==>
                  r.response == SecurityCheckFailed && r.rows == rows && r.mail == None)
  {
  }

  /** Every answer that is not a success has the failure envelope; only a
      success has status 200. */
  lemma PostFailureEnvelope(rows: seq<string>, env: Env, body: JsonBody, remoteIp: Option<string>,
                            siteverify: SiteverifyForm -> SiteverifyReply, store: StoreHealth)
    ensures var r := Post(rows, env, body, remoteIp, siteverify, store).response;
            && (!r.ok ==> IsFailureEnvelope(r) && (r.status == 400 || r.status == 500))
            && (r.ok <==> r.status == 200)
  {
    var a := Admit(env.hasDb, env.turnstileSecret, body, remoteIp, siteverify);
    if a.Admitted? {
      StoreEffects(rows, env, a.email, store);
    }
  }

  /** No rejection writes anything or sends mail. The one failure that can
      follow a write is a throwing re-read after the insert, which answers
      500 with the address already stored. */
  lemma PostRejectionWritesNothing(rows: seq<string>, env: Env, body: JsonBody, remoteIp: Option<string>,
                                   siteverify: SiteverifyForm -> SiteverifyReply, store: StoreHealth)
    ensures var r := Post(rows, env, body, remoteIp, siteverify, store);
            && (!r.response.ok && r.response != InternalError ==> r.rows == rows && r.mail == None)
            && (!r.response.ok && !store.readThrows ==> r.rows == rows && r.mail == None)
  {
    var a := Admit(env.hasDb, env.turnstileSecret, body, remoteIp, siteverify);
    if a.Admitted? {
      StoreEffects(rows, env, a.email, store);
    }
  }

  /** A successful POST leaves the normalised address in the table, adds it
      at the end exactly when it was absent (so the count grows by one or
      not at all), and reports the table it leaves. */
  lemma PostSuccessStoresAddress(rows: seq<string>, env: Env, body: JsonBody, remoteIp: Option<string>,
                                 siteverify: SiteverifyForm -> SiteverifyReply, store: StoreHealth)
    ensures var r := Post(rows, env, body, remoteIp, siteverify, store);
            r.response.ok ==>
              && CandidateEmail(body).Some?
              && var email := CandidateEmail(body).value;
              && email in r.rows
              && r.rows == (if email in rows then rows else rows + [email])
              && r.response.data == WaitlistPayload(r.rows)
              && r.response.data.count == |rows| + (if email in rows then 0 else 1)
  {
    var a := Admit(env.hasDb, env.turnstileSecret, body, remoteIp, siteverify);
    if a.Admitted? {
      StoreEffects(rows, env, a.email, store);
    }
  }

  /** The welcome message goes out exactly when the table changed and an API
      key is configured, and then to the stored address. */
  lemma PostMailsOnlyNewSignups(rows: seq<string>, env: Env, body: JsonBody, remoteIp: Option<string>,
                                siteverify: SiteverifyForm -> SiteverifyReply, store: StoreHealth)
    ensures var r := Post(rows, env, body, remoteIp, siteverify, store);
            && (r.mail.Some? <==> r.rows != rows && Trim(env.resendApiKey.GetOr("")) != "")
            && (r.rows != rows ==> CandidateEmail(body).Some? && r.rows == rows + [CandidateEmail(body).value])
            && (r.mail.Some? ==> r.mail.value.to == [CandidateEmail(body).value])
  {
    var a := Admit(env.hasDb, env.turnstileSecret, body, remoteIp, siteverify);
    if a.Admitted? {
      StoreEffects(rows, env, a.email, store);
    }
  }

  /** The mail settings never change the answer or the table: a missing key
      and a failed send look the same to the client. */
  lemma PostIgnoresMailSettings(rows: seq<string>, env: Env, env': Env, body: JsonBody, remoteIp: Option<string>,
                                siteverify: SiteverifyForm -> SiteverifyReply, store: StoreHealth)
    requires env'.hasDb == env.hasDb && env'.turnstileSecret == env.turnstileSecret
    ensures Post(rows, env, body, remoteIp, siteverify, store).response
         == Post(rows, env', body, remoteIp, siteverify, store).response
    ensures Post(rows, env, body, remoteIp, siteverify, store).rows
         == Post(rows, env', body, remoteIp, siteverify, store).rows
  {
  }

  /** Bodies whose addresses normalise alike are the same request:
      `" User@Example.COM "` and `"user@example.com"` are one signup. */
  lemma PostDependsOnNormalizedEmail(rows: seq<string>, env: Env, body: JsonBody, body': JsonBody,
                                     remoteIp: Option<string>, siteverify: SiteverifyForm -> SiteverifyReply,
                                     store: StoreHealth)
    requires BodyFields(body).Some? && BodyFields(body').Some?
    requires CandidateEmail(body) == CandidateEmail(body')
    requires Trim(BodyFields(body).value.turnstileToken) == Trim(BodyFields(body').value.turnstileToken)
    ensures Post(rows, env, body, remoteIp, siteverify, store) == Post(rows, env, body', remoteIp, siteverify, store)
  {
  }

  /** A POST for an address the table already holds writes nothing and
      sends nothing, whatever the checks decide, and a success reports the
      table as it was. */
  lemma PostKnownAddress(rows: seq<string>, env: Env, body: JsonBody, remoteIp: Option<string>,
                         siteverify: SiteverifyForm -> SiteverifyReply, store: StoreHealth)
    requires CandidateEmail(body).Some? && CandidateEmail(body).value in rows
    ensures var r := Post(rows, env, body, remoteIp, siteverify, store);
            && r.rows == rows
            && r.mail == None
            && (r.response.ok ==> r.response == Success(WaitlistPayload(rows)))
  {
    var a := Admit(env.hasDb, env.turnstileSecret, body, remoteIp, siteverify);
    if a.Admitted? {
      StoreEffects(rows, env, a.email, store);
    }
  }

  /** Joining again with the same address, after a successful join, changes
      nothing, sends nothing, and answers with the same data. */
  lemma PostRejoinIdempotent(rows: seq<string>, env: Env, body: JsonBody, body': JsonBody,
                             remoteIp: Option<string>, remoteIp': Option<string>,
                             siteverify: SiteverifyForm -> SiteverifyReply,
                             siteverify': SiteverifyForm -> SiteverifyReply,
                             store: StoreHealth, store': StoreHealth)
    requires Post(rows, env, body, remoteIp, siteverify, store).response.ok
    requires CandidateEmail(body') == CandidateEmail(body)
    ensures var first := Post(rows, env, body, remoteIp, siteverify, store);
            var again := Post(first.rows, env, body', remoteIp', siteverify', store');
            && again.rows == first.rows
            && again.mail == None
            && (again.response.ok ==> again.response == first.response)
  {
    var first := Post(rows, env, body, remoteIp, siteverify, store);
    PostSuccessStoresAddress(rows, env, body, remoteIp, siteverify, store);
    PostKnownAddress(first.rows, env, body', remoteIp', siteverify', store');
  }

  /** Repeating a successful POST word for word answers exactly as the
      first did, leaves the table as the first left it, and mails nothing. */
  lemma PostRepeat(rows: seq<string>, env: Env, body: JsonBody, remoteIp: Option<string>,
                   siteverify: SiteverifyForm -> SiteverifyReply, store: StoreHealth)
    requires Post(rows, env, body, remoteIp, siteverify, store).response.ok
    ensures var first := Post(rows, env, body, remoteIp, siteverify, store);
            Post(first.rows, env, body, remoteIp, siteverify, store) == PostResult(first.response, first.rows, None)
  {
    var a := Admit(env.hasDb, env.turnstileSecret, body, remoteIp, siteverify);
    var first := Post(rows, env, body, remoteIp, siteverify, store);
    StoreEffects(rows, env, a.email, store);
    StoreEffects(first.rows, env, a.email, store);
  }

  /** The table invariant holds after every POST. */
  lemma PostKeepsStoreInvariant(rows: seq<string>, env: Env, body: JsonBody, remoteIp: Option<string>,
                                siteverify: SiteverifyForm -> SiteverifyReply, store: StoreHealth)
    requires StoreInvariant(rows)
    ensures StoreInvariant(Post(rows, env, body, remoteIp, siteverify, store).rows)
  {
    var a := Admit(env.hasDb, env.turnstileSecret, body, remoteIp, siteverify);
    if a.Admitted? {
      NormalizeIdempotent(BodyFields(body).value.email);
      StoreKeepsInvariant(rows, env, a.email, store);
    }
  }

  /** Rejecting the address `not-an-email` with 400 and zeroed data. */
  lemma InvalidEmailScenario(rows: seq<string>, env: Env, remoteIp: Option<string>,
                             siteverify: SiteverifyForm -> SiteverifyReply, store: StoreHealth)
    requires env.hasDb
    ensures Post(rows, env, Object(Some("not-an-email"), Some("tok")), remoteIp, siteverify, store)
         == PostResult(Failure(400, "Invalid email"), rows, None)
  {
    var body := Object(Some("not-an-email"), Some("tok"));
    assert Normalize("not-an-email") == "not-an-email" by {
      TrimKeepsTrimmed("not-an-email");
    }
    RejectsExample();
    assert BodyFields(body) == Some(Fields("not-an-email", "tok"));
    assert Admit(env.hasDb, env.turnstileSecret, body, remoteIp, siteverify) == Rejected(InvalidEmail);
  }

  /** When every check passes and the database does not throw, the answer
      is a success carrying the table with the address added. */
  lemma PostAdmits(rows: seq<string>, env: Env, body: JsonBody, remoteIp: Option<string>,
                   siteverify: SiteverifyForm -> SiteverifyReply, store: StoreHealth)
    requires env.hasDb && CandidateEmail(body).Some? && MatchesEmailRegex(CandidateEmail(body).value)
    requires Trim(env.turnstileSecret.GetOr("")) != "" && Trim(BodyFields(body).value.turnstileToken) != ""
    requires siteverify(SiteverifyRequest(Trim(env.turnstileSecret.GetOr("")),
                                          Trim(BodyFields(body).value.turnstileToken), remoteIp))
             == Answered(Some(true))
    requires !store.insertThrows && !store.readThrows
    ensures var after := WithSignup(rows, CandidateEmail(body).value);
            Post(rows, env, body, remoteIp, siteverify, store).response == Success(WaitlistPayload(after))
  {
  }

  lemma LowerCaseExample()
    ensures ToLower("a@b.com") == "a@b.com"
  {
  }

  /** The scenario's inputs are already in normal form. */
  lemma ScenarioInputs()
    ensures Normalize("a@b.com") == "a@b.com"
    ensures Trim("tok") == "tok" && Trim("secret") == "secret"
  {
    TrimKeepsTrimmed("a@b.com");
    LowerCaseExample();
    TrimKeepsTrimmed("tok");
    TrimKeepsTrimmed("secret");
  }

  /** A verifier that accepts every token. */
  function AlwaysHuman(f: SiteverifyForm): SiteverifyReply {
    Answered(Some(true))
  }

  /** The first join on an empty table, and the same join again: both answer
      `{ok: true, data: {count: 1, emails: ["a@b.com"]}}`. */
  lemma FirstJoinScenario(env: Env, remoteIp: Option<string>, store: StoreHealth)
    requires env.hasDb && env.turnstileSecret == Some("secret") && !store.insertThrows && !store.readThrows
    ensures var body := Object(Some("a@b.com"), Some("tok"));
            var first := Post([], env, body, remoteIp, AlwaysHuman, store);
            && first.response == Success(Payload(1, ["a@b.com"]))
            && first.rows == ["a@b.com"]
            && Post(first.rows, env, body, remoteIp, AlwaysHuman, store).response == first.response
  {
    var body := Object(Some("a@b.com"), Some("tok"));
    ScenarioInputs();
    AcceptsExample();
    assert BodyFields(body) == Some(Fields("a@b.com", "tok"));
    assert Admit(env.hasDb, env.turnstileSecret, body, remoteIp, AlwaysHuman) == Admitted("a@b.com");
    StoreEffects([], env, "a@b.com", store);
    StoreEffects(["a@b.com"], env, "a@b.com", store);
  }

  /* ------------------------------- the handler ------------------------------ */

  /** The function's view of the world: the D1 table and the messages the
      mail service has been handed. */
  class WaitlistFunction {
    var rows: seq<string>
    var outbox: seq<Mail>

    ghost predicate Valid()
      reads this
    {
      StoreInvariant(rows)
    }

    constructor (initial: seq<string>)
      requires StoreInvariant(initial)
      ensures Valid() && rows == initial && outbox == []
    {
      rows := initial;
      outbox := [];
    }

    /** `readEmails`: the newest 80 rows, newest first as the query returns
        them, then reversed into insertion order. */
    method ReadEmails() returns (emails: seq<string>)
      ensures emails == rows[|rows| - Min(MaxResponseEmails, |rows|)..]
    {
      var newestFirst := Reverse(rows)[..Min(MaxResponseEmails, |rows|)];
      emails := Reverse(newestFirst);
      ReverseTakeReverse(rows, MaxResponseEmails);
    }

    /** `readPayload`; `None` when the database throws. */
    method ReadPayload(store: StoreHealth) returns (data: Option<Payload>)
      ensures data.Some? <==> !store.readThrows
      ensures data.Some? ==> data.value.count == |rows|
      ensures data.Some? ==> data.value.emails == Newest(rows, MaxResponseEmails)
    {
      if store.readThrows {
        return None;
      }
      var emails := ReadEmails();
      var count := |rows|;
      data := Some(Payload(count, emails));
    }

    method InsertIfAbsent(email: string) returns (changes: nat)
      modifies this`rows
      ensures changes == if email in old(rows) then 0 else 1
      ensures rows == WithSignup(old(rows), email)
      ensures outbox == old(outbox)
    {
      if email in rows {
        changes := 0;
      } else {
        rows := rows + [email];
        changes := 1;
      }
    }

    method SendWelcomeEmail(env: Env, email: string)
      modifies this`outbox
      ensures rows == old(rows)
      ensures outbox == old(outbox) + Mailed(WelcomeEmail(env, email))
    {
      var resendApiKey := Trim(env.resendApiKey.GetOr(""));
      if resendApiKey == "" {
        return;
      }
      var from := TrimmedOr(env.resendFrom, DefaultFrom);
      var replyTo := TrimmedOr(env.resendReplyTo, DefaultReplyTo);
      outbox := outbox + [Mail(from, [email], WelcomeSubject, replyTo)];
    }

    method OnRequestGet(env: Env, store: StoreHealth) returns (resp: Response)
      ensures resp == Get(rows, env, store)
    {
      if !env.hasDb {
        return NotConfigured;
      }
      var data := ReadPayload(store);
      if data.None? {
        return InternalError;
      }
      resp := Success(data.value);
    }

    method OnRequestPost(env: Env, body: JsonBody, remoteIp: Option<string>,
                         siteverify: SiteverifyForm -> SiteverifyReply, store: StoreHealth)
      returns (resp: Response)
      requires Valid()
      modifies this
      ensures Valid()
      ensures var r := Post(old(rows), env, body, remoteIp, siteverify, store);
              resp == r.response && rows == r.rows && outbox == old(outbox) + Mailed(r.mail)
    {
      PostKeepsStoreInvariant(rows, env, body, remoteIp, siteverify, store);
      var admission := CheckRequest(env, body, remoteIp, siteverify);
      if admission.Rejected? {
        return admission.response;
      }
      resp := Commit(env, admission.email, store);
    }

    /** The tail of `onRequestPost` once the checks have passed: the insert,
        the welcome message for a new address, and the re-read that
        answers. */
    method Commit(env: Env, email: string, store: StoreHealth) returns (resp: Response)
      modifies this
      ensures var r := Store(old(rows), env, email, store);
              resp == r.response && rows == r.rows && outbox == old(outbox) + Mailed(r.mail)
    {
      StoreEffects(rows, env, email, store);
      if store.insertThrows {
        return InternalError;
      }
      var changes := InsertIfAbsent(email);
      if changes > 0 {
        SendWelcomeEmail(env, email);
      }
      var data := ReadPayload(store);
      if data.None? {
        return InternalError;
      }
      resp := Success(data.value);
    }
  }

  /** Two identical joins through the handler: the second leaves the table
      and the outbox as the first left them and gives the same answer. */
  method RejoinThroughHandler(f: WaitlistFunction, env: Env, body: JsonBody, remoteIp: Option<string>,
                              siteverify: SiteverifyForm -> SiteverifyReply, store: StoreHealth)
    returns (first: Response, second: Response)
    requires f.Valid()
    modifies f
    ensures f.Valid()
    ensures first.ok ==> second == first
    ensures first.ok ==> |f.outbox| <= |old(f.outbox)| + 1
    ensures first.ok ==>
              var r := Post(old(f.rows), env, body, remoteIp, siteverify, store);
              f.rows == r.rows && f.outbox == old(f.outbox) + Mailed(r.mail)
  {
    ghost var rows0 := f.rows;
    first := f.OnRequestPost(env, body, remoteIp, siteverify, store);
    if first.ok {
      PostRepeat(rows0, env, body, remoteIp, siteverify, store);
    }
    second := f.OnRequestPost(env, body, remoteIp, siteverify, store);
  }
}
