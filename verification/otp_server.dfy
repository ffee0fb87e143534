/**
 * The two OTP route handlers over one explicit pair of stores.
 *
 * `POST /api/otp/send` issues a code for an email; `POST /api/otp/verify`
 * consumes it and mints a session. The process-wide maps of the source are
 * the `Stores` value passed in and returned; `Date.now()`, `Math.random()`
 * and the generated token are parameters. Each call is atomic.
 */
module OtpServer {

  import opened Options
  import Text
  import Json
  import OtpCode

  /** Ten minutes, in milliseconds. */
  const TtlMs: int := 10 * 60 * 1000

  const BadRequest: int := 400
  const Unauthorized: int := 401
  const NotFound: int := 404
  const Gone: int := 410

  const InvalidRequest := "Invalid request"
  const NameAndEmailRequired := "Name and email are required"
  const EmailAndCodeRequired := "Email and code are required"
  const OtpNotFound := "OTP not found. Please request a new code."
  const OtpExpired := "OTP expired. Please request a new code."
  const OtpInvalid := "Invalid OTP. Please check and try again."
  const OtpSent := "OTP sent to email"

  /** A code waiting to be verified; keyed by the lower-cased email. The name
      is kept exactly as the request carried it. */
  datatype PendingOtp = PendingOtp(code: string, expiresAt: int, name: Json.Value)

  /** An authenticated identity; keyed by its bearer token. */
  datatype Session = Session(email: string, name: Json.Value, createdAt: int)

  datatype Stores = Stores(otps: map<string, PendingOtp>, sessions: map<string, Session>)

  datatype User = User(email: string, name: Json.Value)

  /** The body of a successful verification. */
  datatype Granted = Granted(token: string, user: User)

  /** An HTTP reply: 200 with a body, or an error status with a message. */
  datatype Reply<+T> = Ok(value: T) | Fail(status: int, error: string)

  /** A handler's reply together with the stores it leaves behind. */
  datatype Response<+T> = Response(reply: Reply<T>, stores: Stores)

  /** The parsed body of `POST /api/otp/send`; `SendMalformed` when
      `request.json()` or the destructuring throws. */
  datatype SendBody = SendMalformed | SendFields(name: Json.Value, email: Json.Value)

  /** The parsed body of `POST /api/otp/verify`. */
  datatype VerifyBody = VerifyMalformed | VerifyFields(email: Json.Value, code: Json.Value)

  const Empty := Stores(map[], map[])

  /** Every pending key is lower-case and holds a well-formed code, and every
      session records a lower-case email. */
  ghost predicate Invariant(st: Stores) {
    && (forall k :: k in st.otps ==> Text.IsLower(k) && OtpCode.IsCodeString(st.otps[k].code))
    && (forall t :: t in st.sessions ==> Text.IsLower(st.sessions[t].email))
  }

  /** `m2` agrees with `m1` at key `k`. */
  ghost predicate SameAt<K, V>(m1: map<K, V>, m2: map<K, V>, k: K) {
    (k in m1 <==> k in m2) && (k in m1 ==> m1[k] == m2[k])
  }

  /** Every session of `before` is still in `after`, unchanged. */
  ghost predicate SessionsGrow(before: Stores, after: Stores) {
    forall t :: t in before.sessions ==> t in after.sessions && after.sessions[t] == before.sessions[t]
  }

  /** The store key a send request writes, when it gets that far. */
  function SendKey(body: SendBody): Option<string> {
    if body.SendFields? && body.email.Str? then Some(Text.Lower(body.email.s)) else None
  }

  /** The store key a verify request reads, when it gets that far. */
  function VerifyKey(body: VerifyBody): Option<string> {
    if body.VerifyFields? && body.email.Str? then Some(Text.Lower(body.email.s)) else None
  }

  /** The body is well-formed, both fields are truthy and the email is a
      string, so that `toLowerCase` does not throw. */
  predicate SendAccepted(body: SendBody) {
    body.SendFields? && Json.Truthy(body.name) && Json.Truthy(body.email) && body.email.Str?
  }

  predicate VerifyAccepted(body: VerifyBody) {
    body.VerifyFields? && Json.Truthy(body.email) && Json.Truthy(body.code) && body.email.Str?
  }

  /** `POST /api/otp/send`: issue a code drawn from `draw` for the email. */
  function Issue(st: Stores, body: SendBody, now: int, draw: real): (res: Response<string>)
    requires 0.0 <= draw < 1.0
    // the session store is never touched
    ensures res.stores.sessions == st.sessions
    // errors: nothing changes, and the reply is a 400
    ensures res.reply.Fail? ==> res.stores == st && res.reply.status == BadRequest
    ensures body.SendMalformed? ==> res.reply == Fail(BadRequest, InvalidRequest)
    ensures body.SendFields? && (!Json.Truthy(body.name) || !Json.Truthy(body.email)) ==>
              res.reply == Fail(BadRequest, NameAndEmailRequired)
    // a truthy email that is not a string makes `toLowerCase` throw: the catch replies
    ensures body.SendFields? && Json.Truthy(body.name) && Json.Truthy(body.email) && !body.email.Str? ==>
              res.reply == Fail(BadRequest, InvalidRequest)
    ensures res.reply.Ok? <==> SendAccepted(body)
    // success: the acknowledgement, and a fresh record under the lower-cased email
    ensures res.reply.Ok? ==>
              && res.reply.value == OtpSent
              && var key := Text.Lower(body.email.s);
              && key in res.stores.otps
              && res.stores.otps[key] == PendingOtp(OtpCode.CodeString(draw), now + TtlMs, body.name)
              && res.stores.otps.Keys == st.otps.Keys + {key}
    // no other key is touched
    ensures forall k :: Some(k) != SendKey(body) ==> SameAt(st.otps, res.stores.otps, k)
    ensures Invariant(st) ==> Invariant(res.stores)
  {
    match body
    case SendMalformed => Response(Fail(BadRequest, InvalidRequest), st)
    case SendFields(name, email) =>
      if !Json.Truthy(name) || !Json.Truthy(email) then
        Response(Fail(BadRequest, NameAndEmailRequired), st)
      else if !email.Str? then
        // `email.toLowerCase` is not a function: the handler's catch replies
        Response(Fail(BadRequest, InvalidRequest), st)
      else
        var key := Text.Lower(email.s);
        var rec := PendingOtp(OtpCode.CodeString(draw), now + TtlMs, name);
        Response(Ok(OtpSent), st.(otps := st.otps[key := rec]))
  }

  /** `POST /api/otp/verify`: check a code and, on a match, open a session
      under `token`, which must be fresh. */
  function Verify(st: Stores, body: VerifyBody, now: int, token: string): (res: Response<Granted>)
    requires token !in st.sessions
    // no branch removes or alters a session, and no branch adds a pending code
    ensures SessionsGrow(st, res.stores)
    ensures res.stores.otps.Keys <= st.otps.Keys
    ensures forall k :: Some(k) != VerifyKey(body) ==> SameAt(st.otps, res.stores.otps, k)
    // a request that is not accepted is a 400 with no effect
    ensures !VerifyAccepted(body) ==> res.reply.Fail? && res.reply.status == BadRequest && res.stores == st
    ensures body.VerifyMalformed? ==> res.reply == Fail(BadRequest, InvalidRequest)
    ensures body.VerifyFields? && (!Json.Truthy(body.email) || !Json.Truthy(body.code)) ==>
              res.reply == Fail(BadRequest, EmailAndCodeRequired)
    // a truthy email that is not a string makes `toLowerCase` throw: the catch replies
    ensures body.VerifyFields? && Json.Truthy(body.email) && Json.Truthy(body.code) && !body.email.Str? ==>
              res.reply == Fail(BadRequest, InvalidRequest)
    ensures VerifyAccepted(body) ==>
              var key := Text.Lower(body.email.s);
              // never issued (or already consumed): 404, nothing changes
              && (key !in st.otps ==> res == Response(Fail(NotFound, OtpNotFound), st))
              // expired, whatever the code: the record goes, 410
              && (key in st.otps && now > st.otps[key].expiresAt ==>
                    && res.reply == Fail(Gone, OtpExpired)
                    && key !in res.stores.otps
                    && res.stores.sessions == st.sessions)
              // in time, but `String(code)` throws: the catch replies 400, nothing changes
              && (key in st.otps && now <= st.otps[key].expiresAt
                  && Json.ToJsString(body.code).None? ==>
                    res == Response(Fail(BadRequest, InvalidRequest), st))
              // wrong code in time: 401 and the record stays for another attempt
              && (key in st.otps && now <= st.otps[key].expiresAt
                  && Json.ToJsString(body.code).Some?
                  && Json.ToJsString(body.code) != Some(st.otps[key].code) ==>
                    res == Response(Fail(Unauthorized, OtpInvalid), st))
              // right code in time: single use, one new session
              && (key in st.otps && now <= st.otps[key].expiresAt
                  && Json.ToJsString(body.code) == Some(st.otps[key].code) ==>
                    && res.reply == Ok(Granted(token, User(key, st.otps[key].name)))
                    && key !in res.stores.otps
                    && res.stores.sessions.Keys == st.sessions.Keys + {token}
                    && res.stores.sessions[token] == Session(key, st.otps[key].name, now))
    ensures res.reply.Ok? ==> token in res.stores.sessions
    ensures Invariant(st) ==> Invariant(res.stores)
  {
    match body
    case VerifyMalformed => Response(Fail(BadRequest, InvalidRequest), st)
    case VerifyFields(email, code) =>
      if !Json.Truthy(email) || !Json.Truthy(code) then
        Response(Fail(BadRequest, EmailAndCodeRequired), st)
      else if !email.Str? then
        // as in `Issue`, the handler's catch replies
        Response(Fail(BadRequest, InvalidRequest), st)
      else
        var key := Text.Lower(email.s);
        if key !in st.otps then
          Response(Fail(NotFound, OtpNotFound), st)
        else
          var rec := st.otps[key];
          if now > rec.expiresAt then
            Response(Fail(Gone, OtpExpired), st.(otps := st.otps - {key}))
          else if Json.ToJsString(code).None? then
            // `String(code)` throws: the handler's catch replies
            Response(Fail(BadRequest, InvalidRequest), st)
          else if Json.ToJsString(code) != Some(rec.code) then
            Response(Fail(Unauthorized, OtpInvalid), st)
          else
            Response(Ok(Granted(token, User(key, rec.name))),
                     Stores(st.otps - {key}, st.sessions[token := Session(key, rec.name, now)]))
  }
}
