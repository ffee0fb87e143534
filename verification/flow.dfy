/**
 * The sign-in page talking to the two endpoints, and the tracker's gate
 * reading what sign-in stored: the end-to-end flow of the product.
 */
module Flow {

  import opened Options
  import Text
  import Json
  import OtpCode
  import opened OtpServer
  import AuthClient
  import Tracker
  import AuthProperties

  /** The JSON body the page posts for a request. */
  function SendBodyOf(name: string, email: string): SendBody {
    SendFields(Json.Str(name), Json.Str(email))
  }

  function VerifyBodyOf(email: string, code: string): VerifyBody {
    VerifyFields(Json.Str(email), Json.Str(code))
  }

  /** The page's send action with the server answering it at `now`. */
  function SendRound(s: AuthClient.ClientState, st: Stores, now: int, draw: real): (AuthClient.ClientState, Stores)
    requires 0.0 <= draw < 1.0
  {
    var request := AuthClient.SendRequestFor(s);
    if request.Some? && request.value.SendRequest? then
      var res := Issue(st, SendBodyOf(request.value.name, request.value.email), now, draw);
      (AuthClient.HandleSend(s, AuthClient.Answered(res.reply)).state, res.stores)
    else
      (AuthClient.HandleSend(s, AuthClient.Thrown([])).state, st)
  }

  /** The page's verify action with the server answering it at `now`,
      minting `token` on success. */
  function VerifyRound(s: AuthClient.ClientState, st: Stores, now: int, token: string): (AuthClient.ClientState, Stores)
    requires token !in st.sessions
  {
    var request := AuthClient.VerifyRequestFor(s);
    if request.Some? && request.value.VerifyRequest? then
      var res := Verify(st, VerifyBodyOf(request.value.email, request.value.code), now, token);
      (AuthClient.HandleVerify(s, AuthClient.Answered(res.reply)).state, res.stores)
    else
      (AuthClient.HandleVerify(s, AuthClient.Thrown([])).state, st)
  }

  /** `localStorage.getItem("bearer_token")`, where only sign-in writes it. */
  function ReadToken(storage: map<string, AuthClient.Stored>): Option<string>
    requires AuthClient.TokenKey in storage ==> storage[AuthClient.TokenKey].Plain?
  {
    if AuthClient.TokenKey in storage then Some(storage[AuthClient.TokenKey].s) else None
  }

  /** Whatever the page validates, the server accepts: a valid name and email
      survive trimming as truthy strings. */
  lemma ValidInputIsAccepted(s: AuthClient.ClientState)
    requires AuthClient.NameValid(s.name) && AuthClient.EmailValid(s.email)
    ensures SendAccepted(SendBodyOf(Text.Trim(s.name), Text.Trim(s.email)))
  {
  }

  /** A valid send reaches step 2 with the cooldown running and leaves a
      pending record for the lower-cased trimmed email holding the drawn code. */
  lemma SendStep(s: AuthClient.ClientState, st: Stores, now: int, draw: real)
    requires AuthClient.NameValid(s.name) && AuthClient.EmailValid(s.email)
    requires 0.0 <= draw < 1.0
    ensures var (s1, st1) := SendRound(s, st, now, draw);
            var key := Text.Lower(Text.Trim(s.email));
            && s1.step == AuthClient.CollectingCode && s1.cooldown == AuthClient.ResendCooldown
            && s1 == s.(step := s1.step, cooldown := s1.cooldown, error := None, info := Some(AuthClient.CodeSent))
            && st1.sessions == st.sessions
            && key in st1.otps
            && st1.otps[key] == PendingOtp(OtpCode.CodeString(draw), now + TtlMs, Json.Str(Text.Trim(s.name)))
  {
    ValidInputIsAccepted(s);
  }

  /** Typing an issued code into the field and pressing verify sends that
      code, with the trimmed email. */
  lemma EnterCode(s: AuthClient.ClientState, code: string)
    requires OtpCode.IsCodeString(code)
    ensures AuthClient.VerifyRequestFor(AuthClient.EditOtp(s, code))
            == Some(AuthClient.VerifyRequest(Text.Trim(s.email), code))
  {
    assert AuthClient.OtpValid(code);
  }

  /** The pending code, presented in time, opens the session under `token`. */
  lemma PendingCodeGrants(st: Stores, email: string, later: int, token: string)
    requires email != []
    requires var key := Text.Lower(email);
             && key in st.otps && later <= st.otps[key].expiresAt
             && OtpCode.IsCodeString(st.otps[key].code)
    requires token !in st.sessions
    ensures var key := Text.Lower(email);
            var rec := st.otps[key];
            var res := Verify(st, VerifyBodyOf(email, rec.code), later, token);
            && res.reply == Ok(Granted(token, User(key, rec.name)))
            && token in res.stores.sessions
            && res.stores.sessions[token] == Session(key, rec.name, later)
            && key !in res.stores.otps
  {
    var key := Text.Lower(email);
    assert VerifyAccepted(VerifyBodyOf(email, st.otps[key].code));
  }

  /** Entering a pending code and verifying it in time opens a session,
      stores the token and the user, and schedules the redirect. */
  lemma VerifyStep(s: AuthClient.ClientState, st: Stores, later: int, token: string)
    requires Text.Trim(s.email) != []
    requires var key := Text.Lower(Text.Trim(s.email));
             && key in st.otps && later <= st.otps[key].expiresAt
             && OtpCode.IsCodeString(st.otps[key].code)
    requires token !in st.sessions
    ensures var key := Text.Lower(Text.Trim(s.email));
            var rec := st.otps[key];
            var s2 := AuthClient.EditOtp(s, rec.code);
            var (s3, st2) := VerifyRound(s2, st, later, token);
            var user := User(key, rec.name);
            && token in st2.sessions
            && st2.sessions[token] == Session(key, rec.name, later)
            && key !in st2.otps
            && s3.storage == s.storage[AuthClient.TokenKey := AuthClient.Plain(token)][AuthClient.UserKey := AuthClient.UserJson(user)]
            && s3.navigation == Some(s.redirect)
  {
    var key := Text.Lower(Text.Trim(s.email));
    var rec := st.otps[key];
    var s2 := AuthClient.EditOtp(s, rec.code);
    EnterCode(s, rec.code);
    PendingCodeGrants(st, Text.Trim(s.email), later, token);
    var res := Verify(st, VerifyBodyOf(Text.Trim(s.email), rec.code), later, token);
    assert VerifyRound(s2, st, later, token) == (AuthClient.HandleVerify(s2, AuthClient.Answered(res.reply)).state, res.stores);
  }

  /** Signing in end to end: send, enter the issued code, verify within ten
      minutes; the session is open, token and user are stored, the redirect
      is scheduled, and the tracker's gate then lets the visitor in. */
  lemma SignIn(s: AuthClient.ClientState, st: Stores, now: int, draw: real, later: int, token: string)
    requires AuthClient.NameValid(s.name) && AuthClient.EmailValid(s.email)
    requires 0.0 <= draw < 1.0
    requires later <= now + TtlMs
    requires token !in st.sessions && token != []
    ensures var (s1, st1) := SendRound(s, st, now, draw);
            var (s3, st2) := VerifyRound(AuthClient.EditOtp(s1, OtpCode.CodeString(draw)), st1, later, token);
            var user := User(Text.Lower(Text.Trim(s.email)), Json.Str(Text.Trim(s.name)));
            && s1.step == AuthClient.CollectingCode
            && token in st2.sessions
            && st2.sessions[token] == Session(user.email, user.name, later)
            && s3.storage == s.storage[AuthClient.TokenKey := AuthClient.Plain(token)][AuthClient.UserKey := AuthClient.UserJson(user)]
            && s3.navigation == Some(s.redirect)
            && Tracker.Gate(ReadToken(s3.storage)) == None
  {
    SendStep(s, st, now, draw);
    var (s1, st1) := SendRound(s, st, now, draw);
    assert s1.email == s.email && s1.storage == s.storage && s1.redirect == s.redirect;
    var key := Text.Lower(Text.Trim(s.email));
    assert st1.otps[key] == PendingOtp(OtpCode.CodeString(draw), now + TtlMs, Json.Str(Text.Trim(s.name)));
    VerifyStep(s1, st1, later, token);
    var (s3, st2) := VerifyRound(AuthClient.EditOtp(s1, OtpCode.CodeString(draw)), st1, later, token);
    var user := User(key, Json.Str(Text.Trim(s.name)));
    assert s3.storage == s.storage[AuthClient.TokenKey := AuthClient.Plain(token)][AuthClient.UserKey := AuthClient.UserJson(user)];
    assert ReadToken(s3.storage) == Some(token);
  }

  /** Example: issue for Jane Doe, verify with the email in capitals and the
      logged code; the user comes back lower-cased. */
  lemma JaneDoe(now: int, draw: real, later: int, token: string)
    requires 0.0 <= draw < 1.0
    requires later <= now + TtlMs
    ensures var st1 := Issue(Empty, SendBodyOf("Jane Doe", "jane@example.com"), now, draw).stores;
            Verify(st1, VerifyBodyOf("JANE@EXAMPLE.COM", OtpCode.CodeString(draw)), later, token).reply
            == Ok(Granted(token, User("jane@example.com", Json.Str("Jane Doe"))))
  {
    var key := "jane@example.com";
    assert Text.Lower("JANE@EXAMPLE.COM") == key;
    assert Text.Lower(key) == key by { assert Text.IsLower(key); }
    var st1 := Issue(Empty, SendBodyOf("Jane Doe", key), now, draw).stores;
    assert st1.otps[key] == PendingOtp(OtpCode.CodeString(draw), now + TtlMs, Json.Str("Jane Doe"));
    assert VerifyAccepted(VerifyBodyOf("JANE@EXAMPLE.COM", OtpCode.CodeString(draw)));
  }

  /** Issue, let the clock pass the expiry, verify with the right code: 410;
      verify again at once: 404. */
  lemma IssueWaitVerify(st: Stores, name: string, email: string, now: int, draw: real,
                        later: int, t1: string, t2: string)
    requires 0.0 <= draw < 1.0
    requires name != [] && email != []
    requires later > now + TtlMs
    requires t1 !in st.sessions && t2 !in st.sessions
    ensures var st1 := Issue(st, SendBodyOf(name, email), now, draw).stores;
            var first := Verify(st1, VerifyBodyOf(email, OtpCode.CodeString(draw)), later, t1);
            && first.reply == Fail(Gone, OtpExpired)
            && Verify(first.stores, VerifyBodyOf(email, OtpCode.CodeString(draw)), later, t2).reply
               == Fail(NotFound, OtpNotFound)
  {
  }
}
