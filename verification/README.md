# TrackFit one-time-password sign-in, modelled in Dafny

TrackFit signs users in with a one-time password (OTP). `POST /api/otp/send`
draws a six-digit code and keeps it for ten minutes under the lower-cased
email. `POST /api/otp/verify` checks the code. On a match it mints a bearer
token, records a session and consumes the code. The sign-in page drives both
endpoints as a two-step state machine with a 30-second resend cooldown. The
tracker page lets a visitor in only when a token is stored, and keeps a
local list of logged sets.

This project models that core as pure functions over immutable values:

- `Options`, `Text`, `Json`: helpers. `Text` covers JavaScript `trim` (the
  full WhiteSpace and LineTerminator set), ASCII `toLowerCase`, UTF-16
  `length` and decimal rendering. `Json` covers the truthiness (`!x`) and
  `String(x)` coercion of request fields, including the case where that
  coercion throws.
- `OtpCode`: `generateCode`, with `Math.random()` passed in as a draw
  `r` in [0, 1).
- `OtpServer`: both route handlers over one explicit `Stores` value (the
  pending-code map and the session map). `Date.now()`, the draw and the new
  token are parameters. Each returns the HTTP reply and the new stores.
- `OtpProperties`: lemmas that relate several calls, including any sequence
  of requests (`Run`).
- `AuthClient`, `AuthProperties`: the sign-in page. Every handler maps the
  page state and the outcome of its request to the next state and to the
  request it sends.
- `Tracker`: `canSubmit`, `addEntry` and the token gate.
- `Flow`: the page and the endpoints together, end to end.

Four behaviours of the code worth noting:

- Re-issuing a code overwrites the pending record. An old code that differs
  from the new one then gets 401 "Invalid OTP", not 404.
- The tracker gate redirects when the stored token is absent *or empty*. An
  empty string is falsy in `if (!token)`.
- The send endpoint checks only that `name` and `email` are truthy. A
  non-string email makes `toLowerCase` throw, and the catch answers
  400 "Invalid request". A non-string name is stored as it came.
- The 30-second resend cooldown guards only the resend link. "Change email"
  keeps the cooldown but returns to step 1, whose "Send OTP" button is
  disabled only while a request is in flight, so a new code can be
  requested at once.

## Model

| member | source | states |
|---|---|---|
| OtpCode.GenerateCode | src/app/api/otp/send/route.ts:7-9 | every draw in [0, 1) gives a code in [100000, 999999] |
| OtpCode.EveryCodeStringIsDrawn | src/app/api/otp/send/route.ts:7-9 | conversely, every six-digit string without a leading zero is the code of some draw |
| Text.LowerMergesCase | src/app/api/otp/send/route.ts:20 | two emails lower-case to the same key exactly when they differ only in letter case |
| OtpServer.Issue | src/app/api/otp/send/route.ts:11-28 | a malformed body or a missing field gives 400 and changes nothing; a truthy email that is not a string gives 400 "Invalid request". For a string email, the lower-cased email maps to {code, now + 600000, name}, no other key changes, sessions are untouched, and the store invariant is kept |
| OtpServer.Verify | src/app/api/otp/verify/route.ts:15-49 | the four-way decision: 400 for a bad request ("Invalid request" for a malformed body, a truthy non-string email, or a code whose `String()` throws once the record is found and in time), 404 when nothing is pending, 410 with deletion when expired, 401 with the record kept on a wrong code, and success consuming the code and adding exactly one session. Every branch leaves other keys alone, never removes a session and keeps the invariant |
| Text.Lower | src/app/api/otp/send/route.ts:20 | the key has the email's length, no upper-case letter, differs from the email only in letter case, and an email already in lower case is its own key |
| OtpProperties.IssueIgnoresCase | src/app/api/otp/send/route.ts:20 | issuing for two spellings that differ only in case has identical effects |
| OtpProperties.SendReplyHidesCode | src/app/api/otp/send/route.ts:23-25 | the send reply is the same whatever code was drawn and never contains the code |
| OtpProperties.UnknownEmailNotFound | src/app/api/otp/verify/route.ts:22-26 | with no pending record, verify gives 404 and leaves both stores unchanged, whatever the code |
| OtpProperties.ExpiredThenNotFound | src/app/api/otp/verify/route.ts:28-31 | an expired record answers 410 even to the right code, and the next attempt gets 404 |
| OtpProperties.ThrowingCodeIsInvalidRequest | src/app/api/otp/verify/route.ts:28-49 | for a pending record in time, a code object whose `String()` throws gets 400 "Invalid request" with nothing changed, while an object with a rendering that fails gets 401 |
| OtpProperties.WrongCodeThenRightCode | src/app/api/otp/verify/route.ts:33-35 | a wrong code in time gives 401 and changes nothing, so the right code still succeeds within the time-to-live |
| OtpProperties.SingleUse | src/app/api/otp/verify/route.ts:39-40 | after a successful verification, any further verification for that email gets 404 |
| OtpProperties.IssueThenVerify | src/app/api/otp/verify/route.ts:22-46 | issue, then verify with the email in upper case and the code, as a string or as a number, before expiry: success with user {lower(email), name} |
| OtpProperties.ReissueReplacesCode | src/app/api/otp/send/route.ts:20 | after re-issuing, a different old code gets 401 and the new code succeeds |
| OtpProperties.RunPreservesInvariant | src/app/api/otp/send/route.ts:18-20 | after any sequence of requests, pending keys are lower-case and hold six-digit codes, and session emails are lower-case |
| OtpProperties.RunKeepsSessions | src/app/api/otp/verify/route.ts:39-40 | no sequence of requests removes or alters a session |
| OtpProperties.RunNeverCreatesUnissued | src/app/api/otp/send/route.ts:20 | a key that no issue request names never gets a pending record |
| OtpProperties.NeverIssuedNotFound | src/app/api/otp/verify/route.ts:23-26 | from empty stores, verifying an email never issued for gives 404 after any sequence of requests |
| AuthClient.RedirectTarget | src/app/auth/page.tsx:9 | the redirect target is the query parameter when it is non-empty, and "/tracker" when it is absent or empty |
| AuthClient.Init | src/app/auth/page.tsx:9-18 | the page starts in step 1 with empty fields, no messages, cooldown 0, the chosen redirect and the given storage, and satisfies its invariant |
| AuthClient.EmailValid | src/app/auth/page.tsx:21 | an email that passes the test has at least five characters and is non-empty after trimming |
| AuthClient.NameValid | src/app/auth/page.tsx:22 | a name is valid when it has two or more characters after trimming, never when it trims to nothing, and with one character exactly when that character lies outside the Basic Multilingual Plane (two UTF-16 units) |
| AuthClient.OtpValid | src/app/auth/page.tsx:23 | a code is valid exactly when it has six characters and the digit filter drops none of them; every issued code is valid |
| AuthClient.DigitsOnly | src/app/auth/page.tsx:144 | the filter yields only digits, never more characters than the input, and drops nothing exactly when the input is all digits |
| AuthClient.SendRequestFor | src/app/auth/page.tsx:34-44 | a send request is made exactly when name and email are valid, and its fields are non-empty |
| AuthClient.VerifyRequestFor | src/app/auth/page.tsx:60-70 | a verify request is made exactly when the code is valid; it carries the trimmed email and the code field unchanged |
| AuthClient.SanitizeOtp | src/app/auth/page.tsx:144 | the code field keeps only digits, at most six, and is a prefix of the input's digits |
| AuthClient.FailureMessage | src/app/auth/page.tsx:46-51 | a failure shows the server's non-empty error, or the exception's non-empty message, and in every other case the fallback; the message is never empty |
| AuthClient.HandleSend | src/app/auth/page.tsx:31-55 | invalid input gives an error and sends no request. A valid input sends the trimmed fields. Success moves to step 2 with cooldown 30 and info set. Failure sets only the error. Exactly one of error and info shows, and the invariant is kept |
| AuthClient.HandleVerify | src/app/auth/page.tsx:57-85 | an invalid code gives an error and sends no request. Success stores bearer_token and user and schedules the redirect. Failure sets only the error. Storage changes only on success |
| AuthClient.HandleResend | src/app/auth/page.tsx:87-90 | resend is a complete no-op while the cooldown is positive, and a send otherwise |
| AuthClient.Tick | src/app/auth/page.tsx:25-29 | the cooldown becomes max(0, c - 1): never negative, one lower while positive, and nothing else changes |
| AuthClient.ChangeEmail | src/app/auth/page.tsx:164 | "Change email" returns to step 1 and keeps the cooldown and every other field |
| AuthClient.EditOtp | src/app/auth/page.tsx:143-144 | typing into the code field stores the first min(6, number of digits typed) digits of the input, in order, keeps a well-formed six-digit code as typed, changes no other field and keeps the page invariant |
| AuthProperties.DigitsOnlyAppend | src/app/auth/page.tsx:144 | the digit filter distributes over concatenation, so it keeps exactly the digits, in order |
| AuthProperties.SanitizeIdempotent | src/app/auth/page.tsx:144 | sanitising twice equals sanitising once |
| AuthProperties.SanitizeKeepsValidCode | src/app/auth/page.tsx:144 | a six-digit code passes the sanitiser unchanged |
| AuthProperties.SanitizedValidIff | src/app/auth/page.tsx:23 | the sanitised field is a valid code exactly when the input has at least six digits |
| AuthProperties.ActionsClearMessages | src/app/auth/page.tsx:31-59 | send and verify behave the same whatever error or info was showing before |
| AuthProperties.LooseEmailPattern | src/app/auth/page.tsx:21 | without line terminators, the email test holds exactly when there is an '@' with a character before it, then at least one character, a '.', and at least one more |
| AuthProperties.TicksCountDown | src/app/auth/page.tsx:25-29 | after n ticks the cooldown is max(0, c - n) and nothing else has changed |
| AuthProperties.ChangeEmailSkipsCooldown | src/app/auth/page.tsx:125-164 | with the cooldown running and valid fields, resend sends nothing, yet "Change email" followed by "Send OTP" sends the same request a send would |
| AuthProperties.ResendAfterCooldown | src/app/auth/page.tsx:87-90 | once the cooldown starts at 30, as a successful send sets it, resend does nothing for 29 ticks and is a send from the 30th tick on |
| Text.Trim | src/app/auth/page.tsx:22 | trimming yields the input less a leading and a trailing run of JavaScript white space or line terminators, and is empty exactly when the input is all such characters |
| Json.Truthy | src/app/api/otp/verify/route.ts:18 | a missing field is never truthy; a string is truthy exactly when it converts to a non-empty string, and a non-negative integer exactly when it does not convert to "0" |
| Json.ToJsString | src/app/api/otp/verify/route.ts:33 | the conversion throws exactly for an object with no primitive rendering; otherwise a string converts to itself and a non-negative integer to its decimal digits |
| OtpCode.CodeString | src/app/api/otp/send/route.ts:7-9 | the stored code string is six ASCII digits with no leading zero |
| Tracker.HasDateShape | src/app/tracker/page.tsx:47 | a match needs at least ten characters, any position matching dddd-dd-dd is a match, and a ten-character date matches exactly when it is dddd-dd-dd as a whole |
| Tracker.CanSubmit | src/app/tracker/page.tsx:41-49 | a submittable form has a date of at least ten characters and a non-empty exercise; an exercise of only white space, or a non-positive sets, reps or weight, blocks submission |
| Tracker.CheckForm | src/app/tracker/page.tsx:41-49 | evaluating the form with the date scan agrees with `canSubmit` on every form |
| Tracker.FindDateShape | src/app/tracker/page.tsx:47 | the scan finds the first position matching dddd-dd-dd exactly when the unanchored pattern matches |
| Tracker.AddEntry | src/app/tracker/page.tsx:51-57 | a form that cannot be submitted changes nothing. Otherwise exactly one entry is appended, the earlier entries stay, the id is 1 or last id + 1, and the fields are the form's |
| Tracker.AddEntryKeepsCount | src/app/tracker/page.tsx:55 | if ids are 1..n, adding keeps them 1..n(+1) |
| Tracker.AddAllCounted | src/app/tracker/page.tsx:53-56 | any run of submissions keeps ids counted, keeps the earlier entries, and adds one entry per accepted form |
| Tracker.IdsFromEmpty | src/app/tracker/page.tsx:55 | from an empty list the ids are 1, 2, 3, ..., strictly increasing and pairwise distinct |
| Tracker.Gate | src/app/tracker/page.tsx:21-26 | the gate redirects to "/auth?redirect=/tracker" exactly when the token is absent or empty |
| Flow.ValidInputIsAccepted | src/app/api/otp/send/route.ts:13-16 | whatever the page validates, the send endpoint accepts after trimming |
| Flow.SendStep | src/app/auth/page.tsx:38-49 | a valid send against the endpoint reaches step 2 with cooldown 30 and leaves the drawn code pending under the lower-cased trimmed email |
| Flow.EnterCode | src/app/auth/page.tsx:57-70 | typing an issued code into the field and pressing verify sends exactly that code with the trimmed email |
| Flow.PendingCodeGrants | src/app/api/otp/verify/route.ts:22-46 | the pending code for an email, presented before expiry, succeeds with user {lower(email), stored name}, opens the session under the new token and consumes the code |
| Flow.VerifyStep | src/app/auth/page.tsx:64-79 | entering a pending code and verifying it in time opens the session, stores token and user, and schedules the redirect |
| Flow.SignIn | src/app/auth/page.tsx:31-85 | the whole sign-in, from send through verify, ends with a session and stored credentials, and the tracker gate lets the visitor in |
| Flow.JaneDoe | src/app/api/otp/verify/route.ts:22-46 | issuing for ("Jane Doe", "jane@example.com") and verifying "JANE@EXAMPLE.COM" with the code yields user {"jane@example.com", "Jane Doe"} |
| Flow.IssueWaitVerify | src/app/api/otp/verify/route.ts:28-31 | issue, wait past the expiry, verify with the right code: 410; verify again: 404 |

## Left out

- `src/app/page.tsx`: a static landing page with no logic.
- JSX rendering, Next.js routing and the `fetch`/`NextResponse`/`request.json()` plumbing. A request body is a parsed record, with a `Malformed` variant for the catch branch. A fetch outcome is a server reply or a thrown message.
- The `loading` flag and the buttons it disables. Each handler is one atomic step, so the flag is never observable between steps.
- `Math.random`: the draw is a real in [0, 1), and `GenerateCode` treats the floating-point arithmetic as exact.
- `crypto.randomUUID` and the base-36 fallback token: the token is a parameter. `OtpServer.Verify` requires it not to be a session key already. The source relies on entropy for that.
- `Date.now()`: `now` is a parameter. The verify handler reads the clock twice (expiry check and `createdAt`); the model reads it once, as one atomic request.
- `console.log` delivery of the code: a side channel with no modelled effect.
- `setInterval` and `setTimeout`: the cooldown is a discrete `Tick`, and the 400 ms redirect is a scheduled `navigation` value. Concurrent requests to the shared maps are not modelled.
- The kg/lb display and input conversion (floating-point multiply and `Math.round`). Tracker numbers are reals, so NaN and Infinity are not modelled.
- JavaScript's Unicode `toLowerCase`: `Text.Lower` lower-cases only ASCII letters.
- `localStorage`: a map from key to `Stored`. The user is kept as a value; `JSON.stringify` is not spelled out.
- Typing into the name and email fields is a plain field update; the model sets `name` and `email` on the state directly and gives those updates no members of their own.
- `Json.ToJsString`: renders `Num` as plain decimal. JavaScript switches to exponent form from 10^21 on and loses precision above 2^53. Such numbers, and fractional ones, belong in `Other`, which carries its own rendering (or none, when `String()` throws).
