/**
 * The sign-in page as a state machine: each handler is a pure function from
 * the page state (and, where it makes a request, the request's outcome) to
 * the next state and the request it sends, if any.
 */
module AuthClient {

  import opened Options
  import Text
  import OtpCode
  import OtpServer

  const ResendCooldown: int := 30
  const DefaultRedirect := "/tracker"
  const TokenKey := "bearer_token"
  const UserKey := "user"

  const InvalidIdentity := "Please enter a valid name and email."
  const SendFailed := "Failed to send OTP"
  const CodeSent := "We sent a 6-digit code to your email. It expires in 10 minutes."
  const CodeMissing := "Please enter the 6-digit code."
  const VerifyFailed := "Verification failed"
  const Redirecting := "Success! Redirecting..."

  /** Step 1 collects name and email; step 2 collects the code. */
  datatype Step = CollectingIdentity | CollectingCode

  /** A `localStorage` value: a plain string, or the serialised user
      (`JSON.stringify` is taken as an injective encoding). */
  datatype Stored = Plain(s: string) | UserJson(user: OtpServer.User)

  datatype ClientState = ClientState(
    step: Step,
    name: string,
    email: string,
    otp: string,
    error: Option<string>,
    info: Option<string>,
    cooldown: int,
    redirect: string,                 // where to go after signing in
    storage: map<string, Stored>,     // localStorage
    navigation: Option<string>)       // a scheduled `router.push`

  /** A request the page sends. */
  datatype Request =
    | SendRequest(name: string, email: string)
    | VerifyRequest(email: string, code: string)

  /** What `fetch` and `res.json()` produced: a server reply, or an exception
      carrying a message. */
  datatype FetchResult<+T> = Answered(reply: OtpServer.Reply<T>) | Thrown(message: string)

  datatype Transition = Transition(state: ClientState, request: Option<Request>)

  /** `search.get("redirect") || "/tracker"`. */
  function RedirectTarget(param: Option<string>): (r: string)
    ensures r != []
    ensures param.Some? && param.value != [] ==> r == param.value
    ensures param.None? || param.value == [] ==> r == DefaultRedirect
  {
    if param.Some? && param.value != [] then param.value else DefaultRedirect
  }

  /** The page as first rendered. */
  function Init(param: Option<string>, storage: map<string, Stored>): (s: ClientState)
    ensures s.step == CollectingIdentity && s.cooldown == 0
    ensures s.name == [] && s.email == [] && s.otp == []
    ensures s.error.None? && s.info.None? && s.navigation.None?
    ensures s.storage == storage && s.redirect == RedirectTarget(param)
    ensures Invariant(s)
  {
    ClientState(CollectingIdentity, "", "", "", None, None, 0, RedirectTarget(param), storage, None)
  }

  /** The regex `.+@.+\..+` matches with its `@` at `at` and its `\.` at `dot`. */
  predicate EmailShapeAt(s: string, at: int, dot: int) {
    && 1 <= at && at + 1 < dot && dot + 1 < |s|
    && !Text.IsLineTerminator(s[at - 1])
    && s[at] == '@'
    && (forall k :: at < k < dot ==> !Text.IsLineTerminator(s[k]))
    && s[dot] == '.'
    && !Text.IsLineTerminator(s[dot + 1])
  }

  /** `/.+@.+\..+/.test(email)`: the pattern is unanchored, and `.` matches
      anything but a line terminator. */
  predicate EmailValid(s: string)
    // an `@` survives trimming, so the email sent is never empty
    ensures EmailValid(s) ==> |s| >= 5 && Text.Trim(s) != []
  {
    exists at, dot | 0 <= at < |s| && 0 <= dot < |s| :: EmailShapeAt(s, at, dot)
  }

  /** `name.trim().length >= 2`, counting UTF-16 code units: two characters
      after trimming always pass, one passes only outside the Basic
      Multilingual Plane, and none never does. */
  predicate NameValid(s: string)
    ensures |Text.Trim(s)| >= 2 ==> NameValid(s)
    ensures NameValid(s) ==> Text.Trim(s) != []
    ensures |Text.Trim(s)| == 1 ==> (NameValid(s) <==> Text.Trim(s)[0] as int > 0xFFFF)
  {
    Text.Utf16Length(Text.Trim(s)) >= 2
  }

  /** `/^\d{6}$/.test(otp)`: exactly six characters, none of which the
      code field's digit filter would drop. Every issued code passes. */
  predicate OtpValid(s: string)
    ensures OtpValid(s) <==> |s| == 6 && DigitsOnly(s) == s
    ensures OtpCode.IsCodeString(s) ==> OtpValid(s)
  {
    |s| == 6 && Text.AllDigits(s)
  }

  /** `s.replace(/[^0-9]/g, "")`. */
  function DigitsOnly(s: string): (r: string)
    ensures Text.AllDigits(r)
    ensures |r| <= |s|
    // nothing is dropped exactly when every character is a digit
    ensures |r| == |s| <==> Text.AllDigits(s)
    ensures Text.AllDigits(s) ==> r == s
  {
    if |s| == 0 then []
    else (if Text.IsAsciiDigit(s[0]) then [s[0]] else []) + DigitsOnly(s[1..])
  }

  /** The code input's `onChange`: keep the digits, then at most six. */
  function SanitizeOtp(raw: string): (r: string)
    ensures Text.AllDigits(r)
    ensures |r| <= 6
    ensures |r| == if |DigitsOnly(raw)| < 6 then |DigitsOnly(raw)| else 6
    ensures r <= DigitsOnly(raw)
  {
    var d := DigitsOnly(raw);
    if |d| <= 6 then d else d[..6]
  }

  /** The message a failed request leaves: the server's `error`, or the
      exception's message, or the fallback when that is empty. */
  function FailureMessage<T>(result: FetchResult<T>, fallback: string): (m: string)
    requires fallback != []
    ensures m != []
    ensures result.Answered? && result.reply.Fail? && result.reply.error != [] ==> m == result.reply.error
    ensures result.Thrown? && result.message != [] ==> m == result.message
    ensures (!(result.Answered? && result.reply.Fail? && result.reply.error != []) &&
             !(result.Thrown? && result.message != [])) ==> m == fallback
  {
    match result
    case Answered(reply) => if reply.Fail? && reply.error != [] then reply.error else fallback
    case Thrown(message) => if message != [] then message else fallback
  }

  predicate Succeeded<T>(result: FetchResult<T>) {
    result.Answered? && result.reply.Ok?
  }

  /** The page's standing invariant: error and info never both show, the
      cooldown stays within [0, 30], and the code field holds at most six
      digits. */
  ghost predicate Invariant(s: ClientState) {
    && !(s.error.Some? && s.info.Some?)
    && 0 <= s.cooldown <= ResendCooldown
    && Text.AllDigits(s.otp) && |s.otp| <= 6
  }

  /** The request `handleSend` makes, if its validation passes; its fields
      are never empty. */
  function SendRequestFor(s: ClientState): (r: Option<Request>)
    ensures r.Some? <==> NameValid(s.name) && EmailValid(s.email)
    ensures r.Some? ==> r.value.SendRequest? && r.value.name != [] && r.value.email != []
  {
    if NameValid(s.name) && EmailValid(s.email) then Some(SendRequest(Text.Trim(s.name), Text.Trim(s.email))) else None
  }

  /** The request `handleVerify` makes, if its validation passes; the code
      it sends is the field unchanged. */
  function VerifyRequestFor(s: ClientState): (r: Option<Request>)
    ensures r.Some? <==> OtpValid(s.otp)
    ensures r.Some? ==> r.value.VerifyRequest? && r.value.email == Text.Trim(s.email) && r.value.code == s.otp
  {
    if OtpValid(s.otp) then
      Text.TrimUnpadded(s.otp);
      Some(VerifyRequest(Text.Trim(s.email), Text.Trim(s.otp)))
    else None
  }

  /** `handleSend`: validate, then request a code for the trimmed name and
      email; `result` is what that request produced. */
  function HandleSend(s: ClientState, result: FetchResult<string>): (t: Transition)
    // exactly one of error and info shows afterwards
    ensures t.state.error.Some? != t.state.info.Some?
    // the form fields, storage, redirect and navigation are never changed
    ensures t.state.name == s.name && t.state.email == s.email && t.state.otp == s.otp
    ensures t.state.storage == s.storage && t.state.redirect == s.redirect && t.state.navigation == s.navigation
    // invalid input: an error and no request; step and cooldown stay
    ensures !(NameValid(s.name) && EmailValid(s.email)) ==>
              && t.request.None?
              && t.state == s.(error := Some(InvalidIdentity), info := None)
    // valid input: the request carries the trimmed fields
    ensures NameValid(s.name) && EmailValid(s.email) ==>
              t.request == Some(SendRequest(Text.Trim(s.name), Text.Trim(s.email)))
    // success moves to step 2 and starts the cooldown
    ensures t.request.Some? && Succeeded(result) ==>
              && t.state.step == CollectingCode && t.state.cooldown == ResendCooldown
              && t.state.info == Some(CodeSent) && t.state.error.None?
    // failure shows the error and leaves step and cooldown alone
    ensures t.request.Some? && !Succeeded(result) ==>
              && t.state == s.(error := Some(FailureMessage(result, SendFailed)), info := None)
    ensures t.request == SendRequestFor(s)
    ensures t.state.step != s.step ==> t.request.Some? && Succeeded(result)
    ensures Invariant(s) ==> Invariant(t.state)
  {
    var cleared := s.(error := None, info := None);
    if !NameValid(s.name) || !EmailValid(s.email) then
      Transition(cleared.(error := Some(InvalidIdentity)), None)
    else
      var request := SendRequestFor(s);
      if Succeeded(result) then
        Transition(cleared.(info := Some(CodeSent), step := CollectingCode, cooldown := ResendCooldown), request)
      else
        Transition(cleared.(error := Some(FailureMessage(result, SendFailed))), request)
  }

  /** `handleVerify`: validate the code, then verify the trimmed email and
      code; on success persist token and user and schedule the redirect. */
  function HandleVerify(s: ClientState, result: FetchResult<OtpServer.Granted>): (t: Transition)
    ensures t.state.error.Some? != t.state.info.Some?
    ensures t.state.step == s.step && t.state.cooldown == s.cooldown && t.state.redirect == s.redirect
    ensures t.state.name == s.name && t.state.email == s.email && t.state.otp == s.otp
    ensures !OtpValid(s.otp) ==>
              && t.request.None?
              && t.state == s.(error := Some(CodeMissing), info := None)
    ensures OtpValid(s.otp) ==> t.request == Some(VerifyRequest(Text.Trim(s.email), Text.Trim(s.otp)))
    // success: token and user are stored and the redirect is scheduled
    ensures t.request.Some? && Succeeded(result) ==>
              && var g := result.reply.value;
              && t.state.storage == s.storage[TokenKey := Plain(g.token)][UserKey := UserJson(g.user)]
              && t.state.navigation == Some(s.redirect)
              && t.state.info == Some(Redirecting)
    // failure: nothing but the error changes
    ensures t.request.Some? && !Succeeded(result) ==>
              t.state == s.(error := Some(FailureMessage(result, VerifyFailed)), info := None)
    ensures t.request == VerifyRequestFor(s)
    ensures t.state.storage != s.storage ==> t.request.Some? && Succeeded(result)
    ensures Invariant(s) ==> Invariant(t.state)
  {
    var cleared := s.(error := None, info := None);
    if !OtpValid(s.otp) then
      Transition(cleared.(error := Some(CodeMissing)), None)
    else
      var request := VerifyRequestFor(s);
      if Succeeded(result) then
        var g := result.reply.value;
        var storage := s.storage[TokenKey := Plain(g.token)][UserKey := UserJson(g.user)];
        Transition(cleared.(storage := storage, info := Some(Redirecting), navigation := Some(s.redirect)), request)
      else
        Transition(cleared.(error := Some(FailureMessage(result, VerifyFailed))), request)
  }

  /** `handleResend`: nothing at all while the cooldown runs, else a send. */
  function HandleResend(s: ClientState, result: FetchResult<string>): (t: Transition)
    ensures s.cooldown > 0 ==> t == Transition(s, None)
    ensures s.cooldown <= 0 ==> t == HandleSend(s, result)
  {
    if s.cooldown > 0 then Transition(s, None) else HandleSend(s, result)
  }

  /** One second of the cooldown interval: `c => Math.max(0, c - 1)`. */
  function Tick(s: ClientState): (s': ClientState)
    ensures s'.cooldown >= 0
    ensures s.cooldown > 0 ==> s'.cooldown == s.cooldown - 1
    ensures s.cooldown <= 0 ==> s'.cooldown == 0
    ensures s' == s.(cooldown := s'.cooldown)
    ensures Invariant(s) ==> Invariant(s')
  {
    s.(cooldown := if s.cooldown - 1 > 0 then s.cooldown - 1 else 0)
  }

  /** The "Change email" button: back to step 1; the cooldown keeps running. */
  function ChangeEmail(s: ClientState): (s': ClientState)
    ensures s'.step == CollectingIdentity
    ensures s'.cooldown == s.cooldown && s'.(step := s.step) == s
    ensures Invariant(s) ==> Invariant(s')
  {
    s.(step := CollectingIdentity)
  }

  /** Typing into the code field: the field keeps the first six digits
      typed, in order, and a well-formed code is kept as typed. */
  function EditOtp(s: ClientState, raw: string): (s': ClientState)
    ensures s' == s.(otp := s'.otp)
    ensures Text.AllDigits(s'.otp) && |s'.otp| <= 6
    ensures s'.otp <= DigitsOnly(raw)
    ensures |s'.otp| == (if |DigitsOnly(raw)| < 6 then |DigitsOnly(raw)| else 6)
    ensures OtpValid(raw) ==> s'.otp == raw
    ensures Invariant(s) ==> Invariant(s')
  {
    s.(otp := SanitizeOtp(raw))
  }
}
