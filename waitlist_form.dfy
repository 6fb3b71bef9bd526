/** The signup form: the avatar row built from the most recent addresses,
    whether the Turnstile widget is used, the retry loop that waits for the
    widget script, and the submit handler with its client-side checks. */
module WaitlistForm {
  import opened Seqs
  import opened Strings
  import opened EmailAddress

  /* ------------------------------ avatars ------------------------------ */

  /** `PLACEHOLDER_INITIALS` */
  const Placeholders: seq<string> := ["M", "A", "K", "L"]

  /** How many avatars the row aims for. */
  const AvatarSlots: nat := 5

  /** `getInitial`: the first character of the trimmed address, upper-cased,
      or `?` when nothing is left after trimming. */
  function GetInitial(email: string): (r: string)
    ensures |r| == 1
    ensures Trim(email) == "" ==> r == "?"
    ensures Trim(email) != "" ==> r == [UpperChar(Trim(email)[0])]
  {
    var t := Trim(email);
    if t == "" then "?" else [UpperChar(t[0])]
  }

  /** The initial does not depend on how the address is spelled: it is the
      same for the address and for its normal form. */
  lemma GetInitialNormalized(email: string)
    ensures GetInitial(Normalize(email)) == GetInitial(email)
  {
    var t := Trim(email);
    ToLowerKeepsTrimmed(t);
    TrimKeepsTrimmed(ToLower(t));
    if t != "" {
      LowerCharFacts(t[0]);
    }
  }

  /** `savedEmails.slice(-5).reverse()`: the five newest saved addresses,
      newest first. */
  function VisibleEmails(saved: seq<string>): (r: seq<string>)
    ensures |r| == Min(AvatarSlots, |saved|)
    ensures forall k | 0 <= k < |r| :: r[k] == saved[|saved| - 1 - k]
  {
    Reverse(SliceFrom(saved, -(AvatarSlots as int)))
  }

  function Initials(emails: seq<string>): (r: seq<string>)
    ensures |r| == |emails|
    ensures forall k | 0 <= k < |emails| :: r[k] == GetInitial(emails[k])
  {
    seq(|emails|, k requires 0 <= k < |emails| => GetInitial(emails[k]))
  }

  /** `visibleInitials`: the initials of the visible addresses, topped up
      from the placeholders towards five avatars. */
  function VisibleInitials(visible: seq<string>): (r: seq<string>)
    ensures |visible| <= |r|
    ensures forall k | 0 <= k < |visible| :: r[k] == GetInitial(visible[k])
    ensures 1 <= |visible| <= AvatarSlots ==> |r| == AvatarSlots
  {
    var dynamic := Initials(visible);
    var missing := Max(0, AvatarSlots - |dynamic|);
    dynamic + SliceTo(Placeholders, missing as nat)
  }

  /** The avatar row for the saved list: one initial per visible address,
      newest first, then placeholders in their order. There are only four
      placeholders, so the row has four avatars when nothing is saved and
      five otherwise. */
  lemma AvatarRow(saved: seq<string>)
    ensures var row := VisibleInitials(VisibleEmails(saved));
            && |row| == (if saved == [] then 4 else 5)
            && (forall k | 0 <= k < Min(AvatarSlots, |saved|) :: row[k] == GetInitial(saved[|saved| - 1 - k]))
            && (forall k | Min(AvatarSlots, |saved|) <= k < |row| :: row[k] == Placeholders[k - Min(AvatarSlots, |saved|)])
  {
  }

  /* ------------------------------ Turnstile ----------------------------- */

  /** `turnstileEnabled`: a site key that is not blank, and either a
      production build or `VITE_TURNSTILE_IN_DEV` set to `true`. */
  function TurnstileEnabled(siteKey: Option<string>, prod: bool, inDev: Option<string>): (r: bool)
    ensures r <==> siteKey.Some? && Trim(siteKey.value) != "" && (prod || inDev == Some("true"))
  {
    var key := Trim(siteKey.GetOr(""));
    key != "" && (prod || inDev == Some("true"))
  }

  /** Retries `tryRender` schedules while the script has not loaded. */
  const MaxRenderAttempts: nat := 80

  /** The widget's render attempts, `scriptLoaded(k)` saying whether the
      script is there at attempt `k`. The first attempt runs at once and
      every retry is scheduled only below the limit, so after at most 80
      retries the loop either renders (or finds the widget rendered) or gives
      up. `renders` counts the calls to `turnstile.render`. */
  method TryRender(scriptLoaded: nat -> bool, alreadyRendered: bool)
    returns (attempts: nat, ready: bool, renders: nat)
    ensures attempts <= MaxRenderAttempts
    ensures forall k | 0 <= k < attempts :: !scriptLoaded(k)
    ensures ready <==> scriptLoaded(attempts)
    ensures !ready ==> attempts == MaxRenderAttempts
    ensures renders == (if ready && !alreadyRendered then 1 else 0)
  {
    attempts := 0;
    while !scriptLoaded(attempts) && attempts < MaxRenderAttempts
      invariant attempts <= MaxRenderAttempts
      invariant forall k | 0 <= k < attempts :: !scriptLoaded(k)
      decreases MaxRenderAttempts - attempts
    {
      attempts := attempts + 1;
    }
    ready := scriptLoaded(attempts);
    renders := if ready && !alreadyRendered then 1 else 0;
  }

  /* ------------------------------ submitting ------------------------------ */

  /** The texts the form shows. */
  datatype Copy = Copy(
    errorInvalidEmail: string,
    errorConsentRequired: string,
    errorTurnstileRequired: string,
    errorNetwork: string,
    success: string)

  /** How `joinWaitlist` ends: with the server's list, or by throwing. */
  datatype JoinReply = Joined(emails: seq<string>) | JoinFailed

  /** The error the checks of `handleSubmit` report, in their order: the
      normalised address fails the email test, consent is not given, the
      widget is on and no token has arrived. `None` when all pass. */
  function SubmitError(copy: Copy, email: string, agreed: bool, turnstileEnabled: bool, token: string)
    : (r: Option<string>)
    ensures r.None? <==> MatchesEmailRegex(Normalize(email)) && agreed && !(turnstileEnabled && token == "")
    ensures !MatchesEmailRegex(Normalize(email)) ==> r == Some(copy.errorInvalidEmail)
    ensures MatchesEmailRegex(Normalize(email)) && !agreed ==> r == Some(copy.errorConsentRequired)
    ensures MatchesEmailRegex(Normalize(email)) && agreed && turnstileEnabled && token == "" ==>
              r == Some(copy.errorTurnstileRequired)
  {
    if !MatchesEmailRegex(Normalize(email)) then Some(copy.errorInvalidEmail)
    else if !agreed then Some(copy.errorConsentRequired)
    else if turnstileEnabled && token == "" then Some(copy.errorTurnstileRequired)
    else None
  }

  /** The form's state. `joinRequests` records the calls made to
      `joinWaitlist`: the address and the token sent. */
  class Form {
    const copy: Copy
    const turnstileEnabled: bool
    var email: string
    var savedEmails: seq<string>
    var agreed: bool
    var submitting: bool
    var message: Option<string>
    var error: Option<string>
    var turnstileToken: string
    var joinRequests: seq<(string, string)>

    constructor (copy: Copy, turnstileEnabled: bool)
      ensures this.copy == copy && this.turnstileEnabled == turnstileEnabled
      ensures email == "" && savedEmails == [] && !agreed && !submitting
      ensures message == None && error == None && turnstileToken == "" && joinRequests == []
    {
      this.copy := copy;
      this.turnstileEnabled := turnstileEnabled;
      email := "";
      savedEmails := [];
      agreed := false;
      submitting := false;
      message := None;
      error := None;
      turnstileToken := "";
      joinRequests := [];
    }

    /** `handleSubmit`, with `reply` standing for how the awaited
        `joinWaitlist` call ends. A rejected submit sets its one error,
        clears the message and sends nothing; an accepted one sends the
        normalised address once and then either takes over the server's
        list and clears the input and the token, or reports a network
        error. Either way the form is no longer submitting. */
    method HandleSubmit(reply: JoinReply)
      modifies this`email, this`savedEmails, this`submitting, this`message, this`error,
               this`turnstileToken, this`joinRequests
      ensures var rejected := SubmitError(copy, old(email), old(agreed), turnstileEnabled, old(turnstileToken));
              && (rejected.Some? ==>
                    && error == rejected && message == None
                    && joinRequests == old(joinRequests)
                    && email == old(email) && savedEmails == old(savedEmails)
                    && turnstileToken == old(turnstileToken) && submitting == old(submitting))
              && (rejected.None? ==>
                    && joinRequests == old(joinRequests) + [(Normalize(old(email)), old(turnstileToken))]
                    && !submitting)
              && (rejected.None? && reply.Joined? ==>
                    && savedEmails == reply.emails && email == "" && turnstileToken == ""
                    && message == Some(copy.success) && error == None)
              && (rejected.None? && reply.JoinFailed? ==>
                    && savedEmails == old(savedEmails) && email == old(email)
                    && turnstileToken == old(turnstileToken)
                    && message == None && error == Some(copy.errorNetwork))
      ensures agreed == old(agreed)
    {
      ghost var rejected := SubmitError(copy, email, agreed, turnstileEnabled, turnstileToken);
      var normalized := Normalize(email);
      if !MatchesEmailRegex(normalized) {
        error := Some(copy.errorInvalidEmail);
        message := None;
        return;
      }
      if !agreed {
        error := Some(copy.errorConsentRequired);
        message := None;
        return;
      }
      if turnstileEnabled && turnstileToken == "" {
        error := Some(copy.errorTurnstileRequired);
        message := None;
        return;
      }
      assert rejected.None?;
      submitting := true;
      error := None;
      message := None;
      joinRequests := joinRequests + [(normalized, turnstileToken)];
      match reply {
        case Joined(emails) =>
          savedEmails := emails;
          email := "";
          message := Some(copy.success);
          turnstileToken := "";
        case JoinFailed =>
          error := Some(copy.errorNetwork);
      }
      submitting := false;
    }
  }

  /** Whatever the form holds, at most one request goes out per submit, and
      only with an address that passes the email test in normal form. */
  method SubmitSendsValidAddress(f: Form, reply: JoinReply)
    modifies f
    ensures |f.joinRequests| <= |old(f.joinRequests)| + 1
    ensures forall k | |old(f.joinRequests)| <= k < |f.joinRequests| ::
              MatchesEmailRegex(f.joinRequests[k].0) && IsNormalized(f.joinRequests[k].0)
  {
    ghost var raw := f.email;
    f.HandleSubmit(reply);
    NormalizeIdempotent(raw);
  }
}
