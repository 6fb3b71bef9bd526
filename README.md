# Yokva landing site: waitlist and demo logic in Dafny

This project models the four pieces of the Yokva marketing site that carry
behaviour, and proves properties of the model:

- **The Pages function `/api/waitlist`** (`functions/api/waitlist.ts`).
  A GET reports the waitlist. A POST runs a fixed sequence of checks:
  database bound, email shape, Turnstile secret configured, token present,
  Turnstile verdict. It then inserts the normalised address if it is new,
  mails a welcome message for a new address only, and reports the list again.
  - The D1 table is modelled as an insertion-ordered sequence of distinct addresses.
  - The Turnstile `siteverify` endpoint is an oracle from the posted form to its reply.
  - The Resend mailer is an outbox of the messages handed to it.
  - Whether a D1 call throws is a parameter.
- **The development server** (`vite.config.ts`). It implements the same
  contract over a text file with one address per line. It also has the
  `/ph` path rewrite of the analytics proxy. The file is a string.
- **The signup form** (`src/components/sections/WaitlistCTA.tsx`). It
  covers the avatar initials of the five newest addresses, whether the
  Turnstile widget is on, the widget's render retry loop, and the submit
  handler with its checks.
- **The interactive demo** (`src/components/sections/InteractiveDemo.tsx`).
  It is a five-phase machine (`idle`, `scan`, `enhance`, `assemble`,
  `done`) with a split position and a preset index.
  - Queued timers are modelled as callbacks in firing order.
  - The handler methods keep a reachable-state invariant.

Shared modules:

- `Seqs`: Option, reversal, and JavaScript's `slice` clamping.
- `Strings`:
  - the ECMAScript whitespace set, shared by `trim` and `\s`;
  - `trim`;
  - ASCII case mapping;
  - the normalisation `trim().toLowerCase()`.
- `EmailAddress`: the email test `^[^\s@]+@[^\s@]+\.[^\s@]+$`, used
  identically by all three validating sites.
- `Envelope`: the response envelope, and the shapes a request body can take
  once JSON has been read.

Where the two servers meet:

- A request body of the JSON literal `null` makes `body.email` throw in both
  servers, and both answer 500 "Internal server error". The model keeps
  that path as written.
- The Pages function can answer 500 after the insert succeeded, when the
  re-read throws. The "nothing written on rejection" properties are stated
  with that one path set apart.

## Model

| member | source | states |
|---|---|---|
| EmailAddress.MatchesEmailRegexCorrect | functions/api/waitlist.ts:11 | The evaluated email test accepts exactly the strings that split as atom `@` atom `.` atom. Equivalently, exactly the strings with no whitespace, exactly one `@` not at the start, and a `.` after it with a character on each side. |
| EmailAddress.MatchesEmailRegex | functions/api/waitlist.ts:11 | `EMAIL_REGEX.test`: an accepted string is at least five characters long and does not start with `@`; MatchesEmailRegexCorrect gives its exact meaning. |
| EmailAddress.EmailRegexCharacterized | functions/api/waitlist.ts:11 | The literal split reading of the pattern and the condition-by-condition reading accept the same strings, both directions. |
| EmailAddress.SplitIsWellFormed | functions/api/waitlist.ts:11 | A string that splits as atom `@` atom `.` atom has no whitespace and exactly one `@`, with an inner `.` after it. |
| EmailAddress.WellFormedSplits | functions/api/waitlist.ts:11 | A string meeting those conditions splits as atom `@` atom `.` atom. |
| EmailAddress.NoSpaceOrAtMeans | vite.config.ts:9 | `[^\s@]*` over a string holds iff no character is whitespace or `@`. |
| EmailAddress.IndexOfAtMeans | functions/api/waitlist.ts:11 | The split position found is an `@`, and no earlier character is one. |
| EmailAddress.HasInnerDotMeans | functions/api/waitlist.ts:11 | The domain check holds iff there is a `.` that is neither the first nor the last character. |
| EmailAddress.RejectsWithoutAt | functions/api/waitlist.ts:11 | A string without `@` is rejected. |
| EmailAddress.RejectsTwoAts | functions/api/waitlist.ts:11 | A string with two `@` is rejected. |
| EmailAddress.RejectsWithoutDomainDot | functions/api/waitlist.ts:11 | A string with no inner `.` after its `@` is rejected. |
| EmailAddress.AcceptedHasNoWhitespace | functions/api/waitlist.ts:11 | An accepted string has no whitespace and no line break, and trimming leaves it unchanged. |
| EmailAddress.RegexIgnoresCase | functions/api/waitlist.ts:163-167 | Lower-casing never changes whether the test passes. |
| EmailAddress.WellFormedTransfer | functions/api/waitlist.ts:11 | Two strings that agree at every position on whitespace, `@` and `.` are accepted alike. |
| EmailAddress.AcceptsExample | functions/api/waitlist.ts:11 | `a@b.com` is accepted. |
| EmailAddress.RejectsExample | functions/api/waitlist.ts:11 | `not-an-email` is rejected. |
| Strings.LeadingSpace | functions/api/waitlist.ts:163 | The count is the length of the longest whitespace prefix. |
| Strings.IsWhitespace | functions/api/waitlist.ts:163 | The whitespace set of `trim` and `\s` holds neither `@`, `.` nor any ASCII letter. |
| Strings.TrailingSpace | functions/api/waitlist.ts:163 | The count is the length of the longest whitespace suffix. |
| Strings.Trim | functions/api/waitlist.ts:163-165 | The result is no longer than the input, and starts and ends with non-whitespace. |
| Strings.TrimIsInnerPiece | functions/api/waitlist.ts:163-165 | The trim is the slice left after removing a whitespace prefix and a whitespace suffix. |
| Strings.TrimKeepsTrimmed | functions/api/waitlist.ts:164 | A string with no whitespace at either end is its own trim. |
| Strings.TrimIdempotent | functions/api/waitlist.ts:164 | Trimming twice is trimming once. |
| Strings.TrimNoWhitespace | functions/api/waitlist.ts:164 | A string without whitespace is its own trim. |
| Strings.TrimAllWhitespace | functions/api/waitlist.ts:164 | An all-whitespace string trims to empty. |
| Strings.NoWhitespaceNoLineBreak | vite.config.ts:31 | A string without whitespace holds no `\n` and no `\r`. |
| Strings.ToLower | functions/api/waitlist.ts:163 | Lower-casing keeps the length and maps each character on its own. |
| Strings.LowerChar | functions/api/waitlist.ts:163 | An upper-case ASCII letter becomes the lower-case letter 32 code points above it; every other character is kept. |
| Strings.UpperChar | src/components/sections/WaitlistCTA.tsx:14 | A lower-case ASCII letter becomes its upper-case letter, which lower-cases back to it; every other character is kept. |
| Strings.LowerCharFacts | functions/api/waitlist.ts:163 | Case mapping keeps whitespace as whitespace, never yields an upper-case letter, is idempotent, and leaves `@` and `.` alone. |
| Strings.ToLowerIdempotent | functions/api/waitlist.ts:163 | Lower-casing twice is lower-casing once. |
| Strings.ToLowerKeepsTrimmed | functions/api/waitlist.ts:163 | Lower-casing a trimmed string leaves it trimmed. |
| Strings.ToLowerKeepsNoWhitespace | functions/api/waitlist.ts:163 | Lower-casing never introduces whitespace. |
| Strings.NormalizeIdempotent | functions/api/waitlist.ts:163 | A normalised address normalises to itself. |
| Strings.Normalize | functions/api/waitlist.ts:163 | `trim().toLowerCase()` is no longer than its input and has no whitespace at either end. |
| Strings.NormalizeExample | functions/api/waitlist.ts:163 | `" User@Example.COM "` normalises to `"user@example.com"`. |
| Seqs.Reverse | functions/api/waitlist.ts:40 | The reversal has the same length and the mirrored elements. |
| Seqs.ReverseReverse | functions/api/waitlist.ts:40 | Reversing twice gives the sequence back. |
| Seqs.SliceFrom | vite.config.ts:79 | `slice(start)` clamps its start, counting back from the end when negative, and returns a suffix. |
| Seqs.SliceTo | src/components/sections/WaitlistCTA.tsx:58 | `slice(0, end)` returns the prefix of length min(end, length). |
| Seqs.SliceFromNegativeIsNewest | vite.config.ts:79 | `slice(-n)` is the newest-n window. |
| Seqs.Newest | functions/api/waitlist.ts:28-40 | The newest-n window has length min(n, length) and is the suffix of that length. |
| Seqs.NewestBounds | functions/api/waitlist.ts:12 | The newest-n window is a suffix of length min(n, length), and the whole list when it is short enough. |
| Seqs.ReverseTakeReverse | functions/api/waitlist.ts:28-41 | Taking the first n of the newest-first listing and reversing it gives the newest n in insertion order. |
| Envelope.WaitlistPayloadWindow | functions/api/waitlist.ts:12 | The reported data has the full count and the newest min(80, count) addresses, oldest first. |
| Envelope.WaitlistPayload | functions/api/waitlist.ts:55-58 | The reported count is the number of stored addresses, and the listed addresses are at most 80 of them, all of them when there are no more than 80. |
| Envelope.WindowAfter81 | functions/api/waitlist.ts:12 | With 81 addresses the window drops the oldest one. |
| Envelope.WithFallback | vite.config.ts:60-69 | A missing or unparseable body becomes the empty object `{}`, with neither field present; `null`, a non-object value and an object are kept as they are. |
| Envelope.BodyFields | functions/api/waitlist.ts:162-164 | Reading the fields fails exactly for the body `null`. Absent fields read as `""`, and a non-object body reads as two empty fields. |
| PagesWaitlist.SiteverifyRequest | functions/api/waitlist.ts:68-74 | The form carries the secret and the token; `remoteip` is present exactly when the header value is non-empty. |
| PagesWaitlist.Verdict | functions/api/waitlist.ts:82-87 | The verdict fails closed: only an explicit `success: true` passes, and a thrown call gives no verdict. |
| PagesWaitlist.TrimmedOr | functions/api/waitlist.ts:97-98 | The trimmed setting when it is not blank; the fallback exactly when the trimmed setting is blank or the setting is absent. |
| PagesWaitlist.WelcomeEmail | functions/api/waitlist.ts:90-135 | No message exactly when the API key is blank. Otherwise one message to the address with the fixed subject, whose sender is the trimmed `RESEND_FROM` or `DEFAULT_RESEND_FROM` when that is blank, and whose reply-to is the trimmed `RESEND_REPLY_TO` or `DEFAULT_RESEND_REPLY_TO` when that is blank. |
| PagesWaitlist.WithSignup | functions/api/waitlist.ts:201-210 | After the insert the address is present and the old rows are an unchanged prefix. The length grows by one exactly when the address was absent, and distinctness is kept. |
| PagesWaitlist.CandidateEmail | functions/api/waitlist.ts:162-163 | Only the body `null` yields no address. An object's `email` is normalised, and a body without one, or that is not an object, yields the empty address. |
| PagesWaitlist.Get | functions/api/waitlist.ts:137-153 | A GET succeeds exactly when the database is bound and readable, and then reports the window. Otherwise it gives the failure envelope with 500. |
| PagesWaitlist.Checks | functions/api/waitlist.ts:167-199 | Only a request whose normalised address passes the email test is admitted, carrying exactly that address. |
| PagesWaitlist.Admit | functions/api/waitlist.ts:155-199 | An admitted request has a bound database and carries the body's normalised address, which passes the email test. Every rejection uses the failure envelope with status 400 or 500. |
| PagesWaitlist.Store | functions/api/waitlist.ts:201-216 | A throwing insert changes and mails nothing. Otherwise the table becomes the insert-if-absent result. A message goes out only for an address not yet stored, and it is WelcomeEmail's. The answer is ok exactly when neither the insert nor the re-read throws. |
| PagesWaitlist.Post | functions/api/waitlist.ts:155-224 | `onRequestPost`: the table is unchanged or gains exactly the body's normalised address at the end. A message adds exactly its recipient to the table. A success needs a bound database and a readable body. |
| PagesWaitlist.CheckRequest | functions/api/waitlist.ts:156-199 | The handler's early returns decide exactly as the checks do. |
| PagesWaitlist.StoreEffects | functions/api/waitlist.ts:201-216 | The insert adds the address at the end unless it is stored, and only a new address is mailed. Only a throwing insert or re-read makes the answer a 500; otherwise it carries the table after the insert. |
| PagesWaitlist.StoreKeepsInvariant | functions/api/waitlist.ts:201-208 | Writing a normalised valid address keeps the table distinct, normalised and valid. |
| PagesWaitlist.PostCheckOrder | functions/api/waitlist.ts:155-189 | The checks apply in order (database, body, email, secret, token), and the first that fails decides the answer. |
| PagesWaitlist.PostVerifierFailsClosed | functions/api/waitlist.ts:191-199 | Once the earlier checks pass: a thrown verifier call is a 500 that writes nothing. An HTTP error or a reply without `success: true` is "Security check failed", with nothing written or mailed. |
| PagesWaitlist.PostFailureEnvelope | functions/api/waitlist.ts:155-224 | Every non-success answer uses the failure envelope with zeroed data and status 400 or 500; a success is exactly status 200. |
| PagesWaitlist.PostRejectionWritesNothing | functions/api/waitlist.ts:167-199 | No rejection writes or mails. The one failure after a write is a throwing re-read. |
| PagesWaitlist.PostSuccessStoresAddress | functions/api/waitlist.ts:201-216 | A success stores the normalised address, appending it exactly when absent. It reports the resulting table, with a count one higher or unchanged. |
| PagesWaitlist.PostMailsOnlyNewSignups | functions/api/waitlist.ts:210-213 | A message goes out exactly when the table changed and a key is set, and only to the stored address. |
| PagesWaitlist.PostIgnoresMailSettings | functions/api/waitlist.ts:90-135 | The mail settings never change the answer or the table. |
| PagesWaitlist.PostDependsOnNormalizedEmail | functions/api/waitlist.ts:163-164 | Bodies whose addresses normalise alike, with alike tokens, produce identical results. |
| PagesWaitlist.PostKnownAddress | functions/api/waitlist.ts:201-216 | A POST for an address already stored writes and mails nothing, and a success reports the table unchanged. |
| PagesWaitlist.PostRejoinIdempotent | functions/api/waitlist.ts:201-216 | After a successful join, joining again with the same address changes and mails nothing. A successful second answer equals the first. |
| PagesWaitlist.PostRepeat | functions/api/waitlist.ts:201-216 | Repeating a successful POST word for word gives the same answer, leaves the table as the first left it, and mails nothing. |
| PagesWaitlist.PostKeepsStoreInvariant | functions/api/waitlist.ts:201-208 | The table stays distinct, normalised and valid after every POST. |
| PagesWaitlist.PostAdmits | functions/api/waitlist.ts:192-216 | When every check passes and nothing throws, the answer is a success carrying the table with the address added. |
| PagesWaitlist.InvalidEmailScenario | functions/api/waitlist.ts:167-173 | `not-an-email` gets 400 "Invalid email" with the table untouched. |
| PagesWaitlist.FirstJoinScenario | functions/api/waitlist.ts:201-216 | A first join on an empty table answers count 1 with the address, and the same join again gives the same answer. |
| PagesWaitlist.WaitlistFunction.ReadEmails | functions/api/waitlist.ts:28-41 | The newest-first top-80 listing, reversed, is the newest-80 suffix of the table. |
| PagesWaitlist.WaitlistFunction.ReadPayload | functions/api/waitlist.ts:55-58 | The payload, when the reads do not throw, is the count and the newest-80 window. |
| PagesWaitlist.WaitlistFunction.InsertIfAbsent | functions/api/waitlist.ts:201-210 | The table becomes the insert-if-absent result, and the reported change count is 1 exactly when the address was new. |
| PagesWaitlist.WaitlistFunction.SendWelcomeEmail | functions/api/waitlist.ts:90-135 | The outbox gains the welcome message, or nothing when no key is set. |
| PagesWaitlist.WaitlistFunction.OnRequestGet | functions/api/waitlist.ts:137-153 | The handler's answer is the GET answer for the current table. |
| PagesWaitlist.WaitlistFunction.OnRequestPost | functions/api/waitlist.ts:155-224 | The handler's answer, new table and outbox are those of the POST pipeline, and the table invariant is kept. |
| PagesWaitlist.WaitlistFunction.Commit | functions/api/waitlist.ts:201-216 | After the checks, the handler's answer, new table and outbox are those of the write stage. |
| PagesWaitlist.RejoinThroughHandler | functions/api/waitlist.ts:201-216 | Two identical joins through the handler: after a successful first, the second gives the same answer, and the table and the outbox end as the first join left them, the outbox having gained at most one message. |
| LocalWaitlist.SplitOnNewline | vite.config.ts:31 | Splitting on line feeds gives at least one piece, and no piece holds a line feed. |
| LocalWaitlist.JoinSplitOnNewline | vite.config.ts:31 | Joining the pieces with line feeds gives the text back. |
| LocalWaitlist.Join | vite.config.ts:43 | `join` of no pieces is empty, and the joined text starts with the first piece. |
| LocalWaitlist.SplitOnNewlineCons | vite.config.ts:31 | A line followed by a line feed splits off as one piece. |
| LocalWaitlist.DropCarriageReturn | vite.config.ts:31 | A piece ending in a carriage return loses exactly that one character; any other piece is unchanged. |
| LocalWaitlist.SplitLines | vite.config.ts:31 | `split(/\r?\n/)` gives the line-feed pieces, each but the last without the carriage return of a `\r\n` separator. |
| LocalWaitlist.Candidate | vite.config.ts:32-33 | A line contributes its normal form exactly when that is non-empty and valid. What it contributes is normalised and valid. |
| LocalWaitlist.Candidates | vite.config.ts:31-33 | One candidate per line, in order. |
| LocalWaitlist.Dedupe | vite.config.ts:29-38 | The `Set` spread never has more entries than there were candidates. |
| LocalWaitlist.DedupeMembers | vite.config.ts:29-38 | A value survives de-duplication exactly when it was present. |
| LocalWaitlist.DedupeDistinct | vite.config.ts:29-38 | No value survives twice. |
| LocalWaitlist.DedupeFrom | vite.config.ts:29-38 | Every surviving value was present. |
| LocalWaitlist.DedupeClosed | vite.config.ts:29-38 | Values that are all present and already distinct come through unchanged. |
| LocalWaitlist.Collect | vite.config.ts:29-38 | The parsed list has no more entries than the file has lines. |
| LocalWaitlist.CollectStep | vite.config.ts:31-35 | One more line appends its address at the end, unless it has none or the address is already collected. |
| LocalWaitlist.CollectClean | vite.config.ts:25-39 | The parsed list is distinct, normalised and valid. |
| LocalWaitlist.CollectMembers | vite.config.ts:25-39 | An address is listed exactly when some line contributes it. |
| LocalWaitlist.CollectClosed | vite.config.ts:25-39 | A clean list is collected unchanged. |
| LocalWaitlist.CollectEmptyLast | vite.config.ts:31-33 | A trailing empty line contributes nothing. |
| LocalWaitlist.ParseEmails | vite.config.ts:25-39 | `readEmails` lists no more addresses than the file has lines, and none twice; ParseEmailsClean and ParseSerialize pin down which. |
| LocalWaitlist.ParseEmailsClean | vite.config.ts:25-39 | What `readEmails` returns is distinct, normalised and valid. |
| LocalWaitlist.Serialize | vite.config.ts:41-45 | `writeEmails` writes nothing for no entries, and otherwise text that ends in a line feed. |
| LocalWaitlist.SerializeIsTerminated | vite.config.ts:41-45 | For non-empty entries, the written file is every entry followed by a line feed. |
| LocalWaitlist.SplitTerminated | vite.config.ts:41-45 | Splitting line-feed-terminated entries gives the entries and one empty last piece. |
| LocalWaitlist.SplitLinesSerialized | vite.config.ts:31 | The lines of a written file are its entries followed by one empty line, when no entry is empty or holds a line break. |
| LocalWaitlist.ParseSerialize | vite.config.ts:25-45 | Reading back what `writeEmails` wrote gives the written list, for every distinct, normalised, valid list. |
| LocalWaitlist.ParseSerializeParse | vite.config.ts:25-45 | A file read and written back reads the same. |
| LocalWaitlist.ListPayload | vite.config.ts:77-80 | `{ count: emails.length, emails: emails.slice(-80) }` equals the Pages function's payload for the same list. |
| LocalWaitlist.Handle | vite.config.ts:72-127 | `safeWaitlistHandler`: only a POST can change the file, and only in an ok answer; exactly a method other than GET and POST gets status 405. |
| LocalWaitlist.HandleGet | vite.config.ts:73-81 | A GET reports the count and newest-80 window of the parsed list, and leaves the file alone. |
| LocalWaitlist.HandleOtherMethod | vite.config.ts:111-115 | Any other method is a 405 with the failure envelope, with no write. |
| LocalWaitlist.HandleInvalidNoWrite | vite.config.ts:86-94 | A POST with an address that fails the test is a 400 with zeroed data and no write. |
| LocalWaitlist.EmptyAddressRejected | vite.config.ts:60-88 | A missing, unparseable or non-object body, or one without `email`, carries the empty address, which fails the test. |
| LocalWaitlist.HandlePostValid | vite.config.ts:95-108 | A valid POST appends the address exactly when absent. It reports the count and the window of the resulting list. |
| LocalWaitlist.HandlePostWrites | vite.config.ts:96-100 | A valid POST leaves the file alone for a listed address and writes the list with the address appended otherwise. |
| LocalWaitlist.HandlePostFile | vite.config.ts:96-100 | The file is rewritten only when the address was appended, and then it reads back as the list with the address at the end. |
| LocalWaitlist.HandleRepeatPost | vite.config.ts:84-108 | The same POST twice: the second leaves the file as the first left it and gives the same answer. |
| LocalWaitlist.SameContractAsPages | vite.config.ts:95-108 | An admitted local signup answers with exactly the data the Pages function reports for the same table. |
| LocalWaitlist.LocalServer.ReadEmails | vite.config.ts:25-39 | The loop over the lines returns the parsed list. |
| LocalWaitlist.LocalServer.WriteEmails | vite.config.ts:41-45 | The file becomes the serialised list. |
| LocalWaitlist.LocalServer.WaitlistHandler | vite.config.ts:72-116 | The handler throws exactly for a POST of `null`. Otherwise its answer and the new file are those of the request model. |
| LocalWaitlist.LocalServer.SafeWaitlistHandler | vite.config.ts:118-128 | The wrapped handler's answer and file are those of the request model, with a throw answered 500. |
| LocalWaitlist.RewritePath | vite.config.ts:154 | A leading `/ph` is removed once. Any other path is unchanged. |
| LocalWaitlist.RewritePathInverse | vite.config.ts:165 | Removing `/ph` undoes adding it, and the rewrite changes a path exactly when it starts with `/ph`. |
| LocalWaitlist.RewritePathExamples | vite.config.ts:154 | `/ph/decide` becomes `/decide`, `/phx` becomes `x`, and `/ph/ph/x` becomes `/ph/x`; `/api/ph` is kept. |
| WaitlistForm.GetInitial | src/components/sections/WaitlistCTA.tsx:12-15 | The initial is one character: the upper-cased first character of the trimmed address, or `?` for a blank one. |
| WaitlistForm.GetInitialNormalized | src/components/sections/WaitlistCTA.tsx:12-15 | An address and its normal form have the same initial. |
| WaitlistForm.VisibleEmails | src/components/sections/WaitlistCTA.tsx:53 | The visible list is the newest min(5, saved) addresses, newest first. |
| WaitlistForm.Initials | src/components/sections/WaitlistCTA.tsx:56 | One initial per visible address, in order. |
| WaitlistForm.VisibleInitials | src/components/sections/WaitlistCTA.tsx:55-59 | `visibleInitials` starts with one initial per visible address, in order, and has five avatars whenever one to five addresses are visible. |
| WaitlistForm.AvatarRow | src/components/sections/WaitlistCTA.tsx:53-59 | The avatar row is the visible initials followed by placeholders in order. It has 4 avatars when nothing is saved and 5 otherwise. |
| WaitlistForm.TurnstileEnabled | src/components/sections/WaitlistCTA.tsx:18-19 | The widget is on exactly when the site key is not blank and the build is production or the dev flag is `true`. |
| WaitlistForm.TryRender | src/components/sections/WaitlistCTA.tsx:120-153 | At most 80 retries, each after an attempt without the script. The widget is ready exactly when the script was found, and it is rendered once unless already rendered. |
| WaitlistForm.SubmitError | src/components/sections/WaitlistCTA.tsx:168-204 | The submit is blocked exactly when a check fails. The error is that of the first failing check: invalid email, then consent, then the missing token. |
| WaitlistForm.Form.HandleSubmit | src/components/sections/WaitlistCTA.tsx:165-236 | A rejected submit sets its one error, clears the message, and sends and changes nothing else. An accepted one sends the normalised address once. It then takes over the server list and clears input and token, or reports the network error, and ends not submitting. |
| WaitlistForm.SubmitSendsValidAddress | src/components/sections/WaitlistCTA.tsx:168-211 | A submit sends at most one request, and only with a normalised valid address. |
| InteractiveDemo.IsRunning | src/components/sections/InteractiveDemo.tsx:183 | Running exactly in the phases strictly between idle and done. |
| InteractiveDemo.IsEnhanced | src/components/sections/InteractiveDemo.tsx:184 | Enhanced exactly from the enhance phase on. |
| InteractiveDemo.ButtonLabel | src/components/sections/InteractiveDemo.tsx:259 | The button reads busy while running, replay when done, and start when idle. |
| InteractiveDemo.StatusText | src/components/sections/InteractiveDemo.tsx:194-207 | Each phase shows its own text: scan, enhance, assemble and done their status texts, and idle the scanning text. |
| InteractiveDemo.ActivePreset | src/components/sections/InteractiveDemo.tsx:82 | The active preset is a preset from the list, namely the indexed one when the index is in range. |
| InteractiveDemo.OutputPack | src/components/sections/InteractiveDemo.tsx:187-191 | The pack is 3 presets, the k-th being the preset at (index + k) mod n, and it starts with the active preset. |
| InteractiveDemo.OutputPackDistinctPositions | src/components/sections/InteractiveDemo.tsx:189 | With at least three presets, the pack's three positions are different. |
| InteractiveDemo.OutputPackShifts | src/components/sections/InteractiveDemo.tsx:189 | Moving the index on by one shifts the pack by one. |
| InteractiveDemo.VisibleOutputPack | src/components/sections/InteractiveDemo.tsx:192 | On a compact screen the pack shows its first two outputs, otherwise all three. |
| InteractiveDemo.ProgressState | src/components/sections/InteractiveDemo.tsx:209-242 | `progressState`: the bars fill in order, analysis at least enhancement at least assembly, and some bar pulses exactly while a run is under way. |
| InteractiveDemo.ProgressMonotone | src/components/sections/InteractiveDemo.tsx:209-242 | No bar ever shows less in a later phase. |
| InteractiveDemo.ProgressBars | src/components/sections/InteractiveDemo.tsx:209-242 | Every bar is a percentage. It pulses exactly while partly filled, and reads "Done" exactly when full. Assembly is full exactly when done. |
| InteractiveDemo.ModUnique | src/components/sections/InteractiveDemo.tsx:189 | Helper of OutputPackDistinctPositions for the `%` of this line: the remainder of q·n + r is r for r in [0, n). |
| InteractiveDemo.MulAtLeast | src/components/sections/InteractiveDemo.tsx:189 | Helper of ModUnique, and so of OutputPackDistinctPositions: a positive multiple of n is at least n. |
| InteractiveDemo.Demo.ClearTimers | src/components/sections/InteractiveDemo.tsx:27-32 | No timer is left pending. |
| InteractiveDemo.Demo.RunPipeline | src/components/sections/InteractiveDemo.tsx:115-146 | Pending timers are cancelled. With reduced motion the demo jumps to done at 100. Otherwise it is at scan with 8 and exactly the three run timers queued in order. |
| InteractiveDemo.Demo.HandleAction | src/components/sections/InteractiveDemo.tsx:148-159 | Ignored while running. From idle or done it starts the run. |
| InteractiveDemo.Demo.HandlePresetSelect | src/components/sections/InteractiveDemo.tsx:161-175 | Re-selecting the active preset outside idle changes nothing. Otherwise the demo goes to idle at 0 on the chosen preset, with one restart queued unless motion is reduced. |
| InteractiveDemo.Demo.HandleCompareChange | src/components/sections/InteractiveDemo.tsx:177-181 | Dragging ends any run: done at the slider value with nothing queued. |
| InteractiveDemo.Demo.FireTimer | src/components/sections/InteractiveDemo.tsx:126-145 | A run timer moves a running phase one step on and the split strictly forward. The restart timer fires only from idle and starts a run: done at 100 with nothing queued when motion is reduced, otherwise scan at 8 with the three run timers queued. Every step keeps the reachable-state invariant. |
| InteractiveDemo.UninterruptedRun | src/components/sections/InteractiveDemo.tsx:115-146 | Left alone, a run from idle goes scan, enhance, assemble, done, ending at 100 with nothing queued. |

## Left out

- Case mapping covers ASCII letters only. Full Unicode `toLowerCase` and `toUpperCase` are not modelled, nor UTF-16 code units in `charAt`.
- JSON body fields are strings or absent. `String(x)` of a number, boolean or object field is not modelled.
- `Boolean(data.success)` is modelled for boolean or absent `success` only.
- `readCount`'s fallback to 0 when the count query returns no row is not modelled: the count is always the number of rows.
- The two reads of `readPayload` run in sequence, not concurrently.
- Requests are handled one at a time. Two local POSTs in flight can both read the old file, and the later write then drops the earlier address (vite.config.ts:96-99). The Pages re-read after the insert can include other requests' inserts (functions/api/waitlist.ts:201-215). Neither interleaving is modelled: HandlePostFile, HandleRepeatPost, StoreEffects, PostSuccessStoresAddress and PostRepeat describe a request with no other request running between its steps.
- D1 is abstracted: ordering by `created_at, id` is insertion order, and only "the insert throws" and "a read throws" are modelled as errors.
- The welcome email's body text, the Resend response, and logging are not modelled. None of them reaches the caller.
- File-system calls and their errors are not modelled, nor chunked body reading. A missing file is the empty string.
- Proxy wiring (target, `changeOrigin`) is not modelled. `functions/ph/[[path]].ts` is not part of this model, and neither is the fetch wrapper in `src/lib/waitlistApi.ts`: `joinWaitlist` is a reply parameter.
- Analytics calls (`captureEvent`, `identifyUser`) and `turnstile.reset` are not modelled.
- React state batching is not modelled: a handler's result is the state after all of its updates. The intermediate `idle` set by `handleAction` from `done` is not observable.
- Effects, the `canceled` and `alive` flags, and the 120 ms retry delay are not modelled. `WaitlistForm.TryRender` runs the attempts as a loop.
- `prefersReducedMotion` and `isCompact` are parameters; media-query changes are not modelled.
- A restart timer runs the current pipeline, not a closure captured earlier.
- Timer ids that have already fired stay in `timersRef`, and clearing them has no effect. The model drops them when they fire.
- The typing animation and the context timer are not modelled, including `contextStatus`, `contextDisplay` and `showCreativeOverlay`.
- Millisecond delays are replaced by the order in which the timers fire.
- `InteractiveDemo.Demo.HandleCompareChange`: its precondition `0 <= value <= 100` is the range the slider supplies, not a check in the handler.
- `WaitlistForm.GetInitial`: `?` is promised only for a blank address, not the converse, because an address that starts with `?` also gives `?`.
