/** The development server's stand-in for `/api/waitlist`: the same
    request and response contract as the Pages function, kept in a text
    file with one address per line, and the `/ph` prefix rewrite of its
    analytics proxy.

    The file is a string; a missing file reads as the empty string, which is
    what `ensureWaitlistFile` writes when it creates one. */
module LocalWaitlist {
  import opened Seqs
  import opened Strings
  import opened EmailAddress
  import opened Envelope

  /* ------------------------------ lines ------------------------------ */

  /** `s.split('\n')`: the pieces between line feeds, in order; there is one
      more piece than there are line feeds. */
  function SplitOnNewline(s: string): (r: seq<string>)
    ensures |r| >= 1
    ensures forall k | 0 <= k < |r| :: '\n' !in r[k]
  {
    if s == [] then [""]
    else
      var rest := SplitOnNewline(s[1..]);
      if s[0] == '\n' then [""] + rest else [[s[0]] + rest[0]] + rest[1..]
  }

  /** `xs.join(sep)` */
  function Join(xs: seq<string>, sep: string): (r: string)
    ensures xs == [] ==> r == ""
    ensures xs != [] ==> |xs[0]| <= |r| && r[..|xs[0]|] == xs[0]
  {
    if xs == [] then ""
    else if |xs| == 1 then xs[0]
    else xs[0] + sep + Join(xs[1..], sep)
  }

  /** Splitting on line feeds loses nothing: joining the pieces back with
      line feeds gives the text. */
  lemma {:induction false} JoinSplitOnNewline(s: string)
    ensures Join(SplitOnNewline(s), "\n") == s
  {
    if s != [] {
      var rest := SplitOnNewline(s[1..]);
      JoinSplitOnNewline(s[1..]);
      if s[0] == '\n' {
        assert SplitOnNewline(s) == [""] + rest;
        assert ([""] + rest)[1..] == rest;
      } else {
        var r := [[s[0]] + rest[0]] + rest[1..];
        assert SplitOnNewline(s) == r;
        if |rest| == 1 {
          assert Join(r, "\n") == [s[0]] + rest[0];
        } else {
          assert r[1..] == rest[1..];
          assert Join(rest, "\n") == rest[0] + "\n" + Join(rest[1..], "\n");
        }
      }
    }
  }

  /** A line followed by a line feed is split off as one piece. */
  lemma {:induction false} SplitOnNewlineCons(x: string, t: string)
    requires '\n' !in x
    ensures SplitOnNewline(x + "\n" + t) == [x] + SplitOnNewline(t)
  {
    if x == [] {
      assert x + "\n" + t == "\n" + t;
      assert ("\n" + t)[1..] == t;
    } else {
      var s := x + "\n" + t;
      assert s[1..] == x[1..] + "\n" + t;
      SplitOnNewlineCons(x[1..], t);
      assert [x[0]] + x[1..] == x;
    }
  }

  /** The carriage return a `\r\n` separator leaves at the end of a piece. */
  function DropCarriageReturn(line: string): (r: string)
    ensures r == line || (line == r + "\r")
    ensures r != line <==> |line| > 0 && line[|line| - 1] == '\r'
  {
    if |line| > 0 && line[|line| - 1] == '\r' then line[..|line| - 1] else line
  }

  /** `raw.split(/\r?\n/)`: the separator is a line feed together with a
      carriage return right before it, so every piece but the last loses one
      trailing carriage return. */
  function SplitLines(raw: string): (r: seq<string>)
    ensures |r| == |SplitOnNewline(raw)|
    ensures forall k | 0 <= k < |r| - 1 :: r[k] == DropCarriageReturn(SplitOnNewline(raw)[k])
    ensures r[|r| - 1] == SplitOnNewline(raw)[|r| - 1]
  {
    var p := SplitOnNewline(raw);
    seq(|p|, k requires 0 <= k < |p| => if k < |p| - 1 then DropCarriageReturn(p[k]) else p[k])
  }

  /* ----------------------------- readEmails ----------------------------- */

  /** The address a line contributes: its normal form, when that is
      non-empty and passes the email test. */
  function Candidate(line: string): (c: Option<string>)
    ensures c.Some? ==> c.value == Normalize(line) && c.value != ""
    ensures c.Some? ==> IsNormalized(c.value) && MatchesEmailRegex(c.value)
    ensures c.None? ==> Normalize(line) == "" || !MatchesEmailRegex(Normalize(line))
  {
    NormalizeIdempotent(line);
    var email := Normalize(line);
    if email != "" && MatchesEmailRegex(email) then Some(email) else None
  }

  function Candidates(lines: seq<string>): (cs: seq<Option<string>>)
    ensures |cs| == |lines|
    ensures forall k | 0 <= k < |lines| :: cs[k] == Candidate(lines[k])
  {
    seq(|lines|, k requires 0 <= k < |lines| => Candidate(lines[k]))
  }

  /** The present values, each kept at its first occurrence only: what
      adding them one by one to a `Set` and spreading it gives. */
  function Dedupe(cs: seq<Option<string>>): (r: seq<string>)
    ensures |r| <= |cs|
  {
    if cs == [] then []
    else
      var prev := Dedupe(cs[..|cs| - 1]);
      var c := cs[|cs| - 1];
      if c.Some? && c.value !in prev then prev + [c.value] else prev
  }

  /** A value survives exactly when it was present somewhere. */
  lemma {:induction false} DedupeMembers(cs: seq<Option<string>>, x: string)
    ensures x in Dedupe(cs) <==> Some(x) in cs
  {
    if cs != [] {
      var init := cs[..|cs| - 1];
      DedupeMembers(init, x);
      assert cs == init + [cs[|cs| - 1]];
    }
  }

  /** No value survives twice. */
  lemma {:induction false} DedupeDistinct(cs: seq<Option<string>>)
    ensures Distinct(Dedupe(cs))
  {
    if cs != [] {
      DedupeDistinct(cs[..|cs| - 1]);
    }
  }

  /** Every surviving value was present. */
  lemma {:induction false} DedupeFrom(cs: seq<Option<string>>)
    ensures forall k | 0 <= k < |Dedupe(cs)| :: Some(Dedupe(cs)[k]) in cs
  {
    if cs != [] {
      var init := cs[..|cs| - 1];
      DedupeFrom(init);
      assert cs == init + [cs[|cs| - 1]];
    }
  }

  /** Values that are all present and already distinct come through
      unchanged. */
  lemma {:induction false} DedupeClosed(xs: seq<string>, cs: seq<Option<string>>)
    requires Distinct(xs) && |cs| == |xs|
    requires forall k | 0 <= k < |xs| :: cs[k] == Some(xs[k])
    ensures Dedupe(cs) == xs
  {
    if xs != [] {
      var init := xs[..|xs| - 1];
      DedupeClosed(init, cs[..|cs| - 1]);
      var x := xs[|xs| - 1];
      assert x !in init by {
        forall k | 0 <= k < |init| ensures init[k] != x {
          assert init[k] == xs[k];
        }
      }
      assert init + [x] == xs;
    }
  }

  /** The addresses the lines stand for, normalised, with unusable lines
      and repeats dropped, in the order of their first occurrence. */
  function Collect(lines: seq<string>): (r: seq<string>)
    ensures |r| <= |lines|
  {
    Dedupe(Candidates(lines))
  }

  /** One more line adds its address at the end, unless it has none or the
      address is already collected. */
  lemma CollectStep(lines: seq<string>, i: nat)
    requires i < |lines|
    ensures var prev := Collect(lines[..i]);
            var c := Candidate(lines[i]);
            Collect(lines[..i + 1]) == if c.Some? && c.value !in prev then prev + [c.value] else prev
  {
    assert Candidates(lines[..i + 1])[..i] == Candidates(lines[..i]);
  }

  /** Every entry is normalised and valid, and no entry occurs twice. */
  lemma CollectClean(lines: seq<string>)
    ensures Distinct(Collect(lines))
    ensures forall k | 0 <= k < |Collect(lines)| ::
              IsNormalized(Collect(lines)[k]) && MatchesEmailRegex(Collect(lines)[k])
  {
    DedupeDistinct(Candidates(lines));
    DedupeFrom(Candidates(lines));
    forall k | 0 <= k < |Collect(lines)|
      ensures IsNormalized(Collect(lines)[k]) && MatchesEmailRegex(Collect(lines)[k])
    {
      var x := Collect(lines)[k];
      assert Some(x) in Candidates(lines);
      var j :| 0 <= j < |lines| && Candidates(lines)[j] == Some(x);
      assert Candidate(lines[j]) == Some(x);
    }
  }

  /** An address is collected exactly when some line contributes it. */
  lemma CollectMembers(lines: seq<string>, x: string)
    ensures x in Collect(lines) <==> exists k | 0 <= k < |lines| :: Candidate(lines[k]) == Some(x)
  {
    DedupeMembers(Candidates(lines), x);
    if exists k | 0 <= k < |lines| :: Candidate(lines[k]) == Some(x) {
      var k :| 0 <= k < |lines| && Candidate(lines[k]) == Some(x);
      assert Candidates(lines)[k] == Some(x);
    }
  }

  /** A list that is already clean is collected unchanged. */
  lemma CollectClosed(xs: seq<string>)
    requires Distinct(xs)
    requires forall k | 0 <= k < |xs| :: IsNormalized(xs[k]) && MatchesEmailRegex(xs[k])
    ensures Collect(xs) == xs
  {
    forall k | 0 <= k < |xs| ensures Candidates(xs)[k] == Some(xs[k]) {
      assert xs[k] != "" by {
        assert MatchesEmailRegex(xs[k]);
      }
    }
    DedupeClosed(xs, Candidates(xs));
  }

  /** A trailing empty line contributes nothing. */
  lemma CollectEmptyLast(lines: seq<string>)
    ensures Collect(lines + [""]) == Collect(lines)
  {
    assert Normalize("") == "";
    assert Candidates(lines + [""])[..|lines|] == Candidates(lines);
  }

  /** What `readEmails` returns for the file contents `raw`. */
  function ParseEmails(raw: string): (r: seq<string>)
    ensures |r| <= |SplitLines(raw)|
    ensures Distinct(r)
  {
    CollectClean(SplitLines(raw));
    Collect(SplitLines(raw))
  }

  /** The parsed list is clean: distinct, normalised and valid entries. */
  lemma ParseEmailsClean(raw: string)
    ensures Distinct(ParseEmails(raw))
    ensures forall k | 0 <= k < |ParseEmails(raw)| ::
              IsNormalized(ParseEmails(raw)[k]) && MatchesEmailRegex(ParseEmails(raw)[k])
  {
    CollectClean(SplitLines(raw));
  }

  /* ----------------------------- writeEmails ---------------------------- */

  /** The file contents `writeEmails(emails)` writes: the lines joined with
      line feeds, followed by one more line feed unless there is nothing. */
  function Serialize(emails: seq<string>): (r: string)
    ensures emails == [] ==> r == ""
    ensures r != "" ==> r[|r| - 1] == '\n'
  {
    var payload := Join(emails, "\n");
    if payload == "" then "" else payload + "\n"
  }

  /** Every entry followed by a line feed. */
  function Terminated(emails: seq<string>): string {
    if emails == [] then "" else emails[0] + "\n" + Terminated(emails[1..])
  }

  lemma {:induction false} SerializeIsTerminated(emails: seq<string>)
    requires forall k | 0 <= k < |emails| :: emails[k] != ""
    ensures Serialize(emails) == Terminated(emails)
  {
    if |emails| >= 2 {
      SerializeIsTerminated(emails[1..]);
      assert Join(emails[1..], "\n") != "" by {
        assert |Join(emails[1..], "\n")| >= |emails[1]|;
      }
    }
  }

  lemma {:induction false} SplitTerminated(emails: seq<string>)
    requires forall k | 0 <= k < |emails| :: '\n' !in emails[k]
    ensures SplitOnNewline(Terminated(emails)) == emails + [""]
  {
    if emails != [] {
      SplitTerminated(emails[1..]);
      SplitOnNewlineCons(emails[0], Terminated(emails[1..]));
      assert [emails[0]] + (emails[1..] + [""]) == emails + [""];
    }
  }

  /** Reading back what was written gives the list that was written, for
      every list that reading could have produced. */
  lemma ParseSerialize(emails: seq<string>)
    requires Distinct(emails)
    requires forall k | 0 <= k < |emails| :: IsNormalized(emails[k]) && MatchesEmailRegex(emails[k])
    ensures ParseEmails(Serialize(emails)) == emails
  {
    forall k | 0 <= k < |emails|
      ensures emails[k] != "" && '\n' !in emails[k] && '\r' !in emails[k]
    {
      AcceptedHasNoWhitespace(emails[k]);
    }
    SplitLinesSerialized(emails);
    CollectEmptyLast(emails);
    CollectClosed(emails);
  }

  /** The lines of a written file are its entries and one empty last line,
      when no entry is empty or holds a line break. */
  lemma SplitLinesSerialized(emails: seq<string>)
    requires forall k | 0 <= k < |emails| :: emails[k] != "" && '\n' !in emails[k] && '\r' !in emails[k]
    ensures SplitLines(Serialize(emails)) == emails + [""]
  {
    SerializeIsTerminated(emails);
    SplitTerminated(emails);
    var lines := SplitLines(Serialize(emails));
    forall k | 0 <= k < |emails| ensures lines[k] == emails[k] {
      var line := emails[k];
      assert line == [] || line[|line| - 1] != '\r' by {
        if line != [] {
          assert line[|line| - 1] in line;
        }
      }
    }
  }

  /** Parsing is stable: once read and written back, a file reads the same
      every time. */
  lemma ParseSerializeParse(raw: string)
    ensures ParseEmails(Serialize(ParseEmails(raw))) == ParseEmails(raw)
  {
    ParseEmailsClean(raw);
    ParseSerialize(ParseEmails(raw));
  }

  /* ---------------------------- waitlistHandler --------------------------- */

  datatype RequestMethod = Get | Post | OtherMethod

  const MethodNotAllowed := Failure(405, "Method not allowed")

  /** `{ count: emails.length, emails: emails.slice(-80) }` */
  function ListPayload(emails: seq<string>): (r: Payload)
    ensures r == WaitlistPayload(emails)
  {
    SliceFromNegativeIsNewest(emails, MaxResponseEmails);
    Payload(|emails|, SliceFrom(emails, -(MaxResponseEmails as int)))
  }

  /** The answer to one request and the file afterwards. */
  datatype LocalResult = LocalResult(response: Response, file: string)

  /** `safeWaitlistHandler` on the file contents `file`. The one error the
      handler can throw on a readable file is reading `email` of the body
      `null`, which the wrapper answers with 500. */
  function Handle(file: string, m: RequestMethod, body: JsonBody): (r: LocalResult)
    ensures m != Post ==> r.file == file
    ensures r.response.status == 405 <==> m == OtherMethod
    ensures r.file != file ==> r.response.ok
  {
    match m
    case Get => LocalResult(Success(ListPayload(ParseEmails(file))), file)
    case Post =>
      (match BodyFields(body)
       case None => LocalResult(InternalError, file)
       case Some(f) =>
         var candidate := Normalize(f.email);
         if !MatchesEmailRegex(candidate) then LocalResult(InvalidEmail, file)
         else
           var emails := ParseEmails(file);
           if candidate in emails then LocalResult(Success(ListPayload(emails)), file)
           else
             var after := emails + [candidate];
             LocalResult(Success(ListPayload(after)), Serialize(after)))
    case OtherMethod => LocalResult(MethodNotAllowed, file)
  }

  /** A GET reports the number of distinct valid addresses and the newest
      80 of them, oldest first, and leaves the file alone. */
  lemma HandleGet(file: string, body: JsonBody)
    ensures var r := Handle(file, Get, body);
            && r.file == file
            && r.response == Success(WaitlistPayload(ParseEmails(file)))
            && |r.response.data.emails| == Min(80, r.response.data.count)
  {
    SliceFromNegativeIsNewest(ParseEmails(file), MaxResponseEmails);
  }

  /** Any method but GET and POST is a 405 with the failure envelope. */
  lemma HandleOtherMethod(file: string, body: JsonBody)
    ensures Handle(file, OtherMethod, body) == LocalResult(MethodNotAllowed, file)
    ensures IsFailureEnvelope(Handle(file, OtherMethod, body).response)
  {
  }

  /** A POST whose address fails the test answers 400 with zeroed data and
      writes nothing. A missing, empty or unparseable body is such a POST:
      its address is the empty string. */
  lemma HandleInvalidNoWrite(file: string, body: JsonBody)
    requires !body.NullLiteral?
    requires !MatchesEmailRegex(Normalize(BodyFields(body).value.email))
    ensures Handle(file, Post, body) == LocalResult(InvalidEmail, file)
    ensures IsFailureEnvelope(InvalidEmail) && InvalidEmail.status == 400
  {
  }

  lemma EmptyAddressRejected(body: JsonBody)
    requires body.NoBody? || body.Unparseable? || body.NonObject? || body == Object(None, None)
    ensures !MatchesEmailRegex(Normalize(BodyFields(body).value.email))
  {
    assert Normalize("") == "";
  }

  /** A POST with a valid address appends it exactly when the file does not
      already list it, and answers with the list as it then is. */
  lemma HandlePostValid(file: string, body: JsonBody)
    requires !body.NullLiteral?
    requires MatchesEmailRegex(Normalize(BodyFields(body).value.email))
    ensures var candidate := Normalize(BodyFields(body).value.email);
            var emails := ParseEmails(file);
            var after := if candidate in emails then emails else emails + [candidate];
            var r := Handle(file, Post, body);
            && r.response == Success(WaitlistPayload(after))
            && r.response.data.count == |emails| + (if candidate in emails then 0 else 1)
  {
    var candidate := Normalize(BodyFields(body).value.email);
    var emails := ParseEmails(file);
    var r := Handle(file, Post, body);
    if candidate in emails {
      assert r.response == Success(ListPayload(emails));
    } else {
      assert r.response == Success(ListPayload(emails + [candidate]));
    }
  }

  /** The file is rewritten only when the address was appended, and then it
      reads back as the list with the address at the end. */
  lemma HandlePostFile(file: string, body: JsonBody)
    requires !body.NullLiteral?
    requires MatchesEmailRegex(Normalize(BodyFields(body).value.email))
    ensures var candidate := Normalize(BodyFields(body).value.email);
            var emails := ParseEmails(file);
            var r := Handle(file, Post, body);
            && (candidate in emails ==> r.file == file)
            && (candidate !in emails ==> r.file == Serialize(emails + [candidate]))
            && (candidate !in emails ==> ParseEmails(r.file) == emails + [candidate])
  {
    var candidate := Normalize(BodyFields(body).value.email);
    var emails := ParseEmails(file);
    HandlePostWrites(file, body);
    if candidate !in emails {
      ParseEmailsClean(file);
      NormalizeIdempotent(BodyFields(body).value.email);
      AppendClean(emails, candidate);
      ParseSerialize(emails + [candidate]);
    }
  }

  /** What a valid POST leaves in the file, before reading it back. */
  lemma HandlePostWrites(file: string, body: JsonBody)
    requires !body.NullLiteral?
    requires MatchesEmailRegex(Normalize(BodyFields(body).value.email))
    ensures var candidate := Normalize(BodyFields(body).value.email);
            var emails := ParseEmails(file);
            Handle(file, Post, body).file == if candidate in emails then file else Serialize(emails + [candidate])
  {
  }

  /** Appending a new clean address to a clean list keeps it clean. */
  lemma AppendClean(emails: seq<string>, x: string)
    requires Distinct(emails) && x !in emails
    requires forall k | 0 <= k < |emails| :: IsNormalized(emails[k]) && MatchesEmailRegex(emails[k])
    requires IsNormalized(x) && MatchesEmailRegex(x)
    ensures Distinct(emails + [x])
    ensures forall k | 0 <= k < |emails + [x]| ::
              IsNormalized((emails + [x])[k]) && MatchesEmailRegex((emails + [x])[k])
  {
  }

  /** Posting the same request twice: the second leaves the file as the
      first left it and gives the same answer. */
  lemma HandleRepeatPost(file: string, body: JsonBody)
    ensures var first := Handle(file, Post, body);
            Handle(first.file, Post, body) == first
  {
    var first := Handle(file, Post, body);
    if !body.NullLiteral? && MatchesEmailRegex(Normalize(BodyFields(body).value.email)) {
      HandlePostFile(file, body);
      var candidate := Normalize(BodyFields(body).value.email);
      var emails := ParseEmails(file);
      if candidate !in emails {
        HandlePostValid(file, body);
        HandlePostValid(first.file, body);
        HandlePostFile(first.file, body);
        assert candidate in ParseEmails(first.file);
      }
    }
  }

  /** The two servers give the same answer to an admitted signup: the local
      server's data is the data the Pages function reports for the same
      table. */
  lemma SameContractAsPages(file: string, body: JsonBody)
    requires !body.NullLiteral?
    requires MatchesEmailRegex(Normalize(BodyFields(body).value.email))
    ensures var candidate := Normalize(BodyFields(body).value.email);
            var emails := ParseEmails(file);
            var stored := if candidate in emails then emails else emails + [candidate];
            Handle(file, Post, body).response == Success(WaitlistPayload(stored))
  {
    HandlePostValid(file, body);
  }

  /** The development server's view of the file system: the waitlist file. */
  class LocalServer {
    var file: string

    constructor (contents: string)
      ensures file == contents
    {
      file := contents;
    }

    /** `readEmails`: one pass over the lines, keeping each new usable
        address in insertion order. */
    method ReadEmails() returns (emails: seq<string>)
      ensures emails == ParseEmails(file)
    {
      var lines := SplitLines(file);
      var unique: seq<string> := [];
      for i := 0 to |lines|
        invariant unique == Collect(lines[..i])
      {
        var email := Normalize(lines[i]);
        CollectStep(lines, i);
        if email != "" && MatchesEmailRegex(email) && email !in unique {
          unique := unique + [email];
        }
      }
      assert lines[..|lines|] == lines;
      emails := unique;
    }

    /** `writeEmails` */
    method WriteEmails(emails: seq<string>)
      modifies this
      ensures file == Serialize(emails)
    {
      var payload := Join(emails, "\n");
      file := if payload != "" then payload + "\n" else "";
    }

    /** `waitlistHandler`; `None` when it throws, which on a readable file
        happens only for the body `null`. */
    method WaitlistHandler(m: RequestMethod, body: JsonBody) returns (resp: Option<Response>)
      modifies this
      ensures resp.None? <==> m == Post && body.NullLiteral?
      ensures resp.Some? ==> resp.value == Handle(old(file), m, body).response
      ensures file == Handle(old(file), m, body).file
    {
      if m == Get {
        var emails := ReadEmails();
        return Some(Success(ListPayload(emails)));
      }
      if m == Post {
        var fields := BodyFields(body);
        if fields.None? {
          return None;
        }
        var candidate := Normalize(fields.value.email);
        if !MatchesEmailRegex(candidate) {
          return Some(InvalidEmail);
        }
        var emails := ReadEmails();
        if candidate !in emails {
          emails := emails + [candidate];
          WriteEmails(emails);
        }
        return Some(Success(ListPayload(emails)));
      }
      return Some(MethodNotAllowed);
    }

    /** `safeWaitlistHandler`: a thrown error becomes a 500. */
    method SafeWaitlistHandler(m: RequestMethod, body: JsonBody) returns (resp: Response)
      modifies this
      ensures Handle(old(file), m, body) == LocalResult(resp, file)
    {
      var r := WaitlistHandler(m, body);
      resp := if r.Some? then r.value else InternalError;
    }
  }

  /* ------------------------------ the proxy ------------------------------ */

  /** `path.replace(/^\/ph/, '')`: a leading `/ph` is removed once. It is a
      prefix of characters, not a path segment. */
  function RewritePath(path: string): (r: string)
    ensures "/ph" <= path ==> path == "/ph" + r
    ensures !("/ph" <= path) ==> r == path
  {
    if "/ph" <= path then path[3..] else path
  }

  /** Prefixing `/ph` and rewriting are inverse, and the rewrite changes a
      path exactly when it starts with `/ph`. */
  lemma RewritePathInverse(p: string)
    ensures RewritePath("/ph" + p) == p
    ensures RewritePath(p) == p <==> !("/ph" <= p)
  {
    assert "/ph" <= "/ph" + p;
    if "/ph" <= p {
      assert |RewritePath(p)| < |p|;
    }
  }

  lemma RewritePathExamples()
    ensures RewritePath("/ph/decide") == "/decide"
    ensures RewritePath("/phx") == "x"
    ensures RewritePath("/ph/ph/x") == "/ph/x"
    ensures RewritePath("/api/ph") == "/api/ph"
  {
    RewritePathInverse("/decide");
    RewritePathInverse("x");
    RewritePathInverse("/ph/x");
    assert !("/ph" <= "/api/ph") by {
      assert "/api/ph"[1] != "/ph"[1];
    }
  }
}
