/**
 * Properties of the OTP handlers that relate several calls: case-insensitive
 * keys, expiry, retry after a wrong code, single use, issue-then-verify
 * round trips, re-issuing, and what any sequence of requests preserves.
 */
module OtpProperties {

  import opened Options
  import Text
  import Json
  import OtpCode
  import opened OtpServer

  /** Issuing for two spellings of an email that differ only in case has the
      same effect. */
  lemma IssueIgnoresCase(st: Stores, name: Json.Value, e1: string, e2: string, now: int, draw: real)
    requires 0.0 <= draw < 1.0
    requires Text.SameIgnoringCase(e1, e2)
    ensures Issue(st, SendFields(name, Json.Str(e1)), now, draw)
         == Issue(st, SendFields(name, Json.Str(e2)), now, draw)
  {
    Text.LowerMergesCase(e1, e2);
  }

  /** `needle` occurs somewhere in `hay`. */
  ghost predicate Contains(hay: string, needle: string) {
    exists i :: OccursAt(hay, needle, i)
  }

  ghost predicate OccursAt(hay: string, needle: string, i: int) {
    0 <= i && i + |needle| <= |hay| && hay[i..i + |needle|] == needle
  }

  /** The send reply is the same whatever code was drawn, and it never holds
      the code: the code travels only on the delivery side channel. */
  lemma SendReplyHidesCode(st: Stores, body: SendBody, now: int, d1: real, d2: real)
    requires 0.0 <= d1 < 1.0 && 0.0 <= d2 < 1.0
    ensures Issue(st, body, now, d1).reply == Issue(st, body, now, d2).reply
    ensures Issue(st, body, now, d1).reply.Ok? ==>
              !Contains(Issue(st, body, now, d1).reply.value, OtpCode.CodeString(d1))
  {
    var code := OtpCode.CodeString(d1);
  }

  /** With no pending record under the key, verification is a 404 that
      changes nothing, whatever the code. */
  lemma UnknownEmailNotFound(st: Stores, email: string, code: Json.Value, now: int, token: string)
    requires token !in st.sessions
    requires email != [] && Json.Truthy(code)
    requires Text.Lower(email) !in st.otps
    ensures Verify(st, VerifyFields(Json.Str(email), code), now, token) == Response(Fail(NotFound, OtpNotFound), st)
  {
  }

  /** An expired record answers 410 even to the right code and is gone
      afterwards: the next attempt, at any time with any code, is a 404. */
  lemma ExpiredThenNotFound(st: Stores, email: string, code: Json.Value, code2: Json.Value,
                            now: int, later: int, t1: string, t2: string)
    requires t1 !in st.sessions && t2 !in st.sessions
    requires email != [] && Json.Truthy(code) && Json.Truthy(code2)
    requires Text.Lower(email) in st.otps && now > st.otps[Text.Lower(email)].expiresAt
    ensures var first := Verify(st, VerifyFields(Json.Str(email), code), now, t1);
            && first.reply == Fail(Gone, OtpExpired)
            && Verify(first.stores, VerifyFields(Json.Str(email), code2), later, t2).reply == Fail(NotFound, OtpNotFound)
  {
  }

  /** A code whose `String()` throws, say the object `{"toString": 1}`, sent
      for a pending record in time, reaches the handler's catch: 400
      "Invalid request", the record stays and no session opens. */
  lemma ThrowingCodeIsInvalidRequest(st: Stores, email: string, now: int, token: string, rendered: string)
    requires token !in st.sessions
    requires email != []
    requires Text.Lower(email) in st.otps && now <= st.otps[Text.Lower(email)].expiresAt
    ensures Verify(st, VerifyFields(Json.Str(email), Json.Other(true, None)), now, token)
            == Response(Fail(BadRequest, InvalidRequest), st)
    // the same object with a usable rendering is judged on that rendering
    ensures var res := Verify(st, VerifyFields(Json.Str(email), Json.Other(true, Some(rendered))), now, token);
            res.reply.Fail? ==> res.reply == Fail(Unauthorized, OtpInvalid)
  {
  }

  /** A wrong code before expiry keeps the record, so the right code still
      succeeds within the time-to-live. */
  lemma WrongCodeThenRightCode(st: Stores, email: string, wrong: Json.Value, right: Json.Value,
                               now1: int, now2: int, t1: string, t2: string)
    requires t1 !in st.sessions && t2 !in st.sessions
    requires email != [] && Json.Truthy(wrong) && Json.Truthy(right)
    requires Text.Lower(email) in st.otps
    requires var rec := st.otps[Text.Lower(email)];
             && now1 <= rec.expiresAt && now2 <= rec.expiresAt
             && Json.ToJsString(wrong).Some? && Json.ToJsString(wrong) != Some(rec.code)
             && Json.ToJsString(right) == Some(rec.code)
    ensures var first := Verify(st, VerifyFields(Json.Str(email), wrong), now1, t1);
            && first == Response(Fail(Unauthorized, OtpInvalid), st)
            && Verify(first.stores, VerifyFields(Json.Str(email), right), now2, t2).reply
               == Ok(Granted(t2, User(Text.Lower(email), st.otps[Text.Lower(email)].name)))
  {
  }

  /** A code is single use: once a verification succeeds, any further
      verification for that email is a 404 until a new code is issued. */
  lemma SingleUse(st: Stores, email: string, code: Json.Value, code2: Json.Value,
                  now: int, later: int, t1: string, t2: string)
    requires t1 !in st.sessions && t2 !in st.sessions && t1 != t2
    requires email != [] && Json.Truthy(code) && Json.Truthy(code2)
    requires Verify(st, VerifyFields(Json.Str(email), code), now, t1).reply.Ok?
    ensures var first := Verify(st, VerifyFields(Json.Str(email), code), now, t1);
            Verify(first.stores, VerifyFields(Json.Str(email), code2), later, t2) == Response(Fail(NotFound, OtpNotFound), first.stores)
  {
  }

  /** Round trip: issue for an email, then verify with the same email in
      upper case and the issued code, before it expires. The code may be
      sent as a string or as a JSON number; `String(code)` makes them equal. */
  lemma IssueThenVerify(st: Stores, name: Json.Value, email: string, now: int, draw: real,
                        later: int, token: string)
    requires 0.0 <= draw < 1.0
    requires Json.Truthy(name) && email != []
    requires later <= now + TtlMs
    requires token !in st.sessions
    ensures var issued := Issue(st, SendFields(name, Json.Str(email)), now, draw);
            var granted := Ok(Granted(token, User(Text.Lower(email), name)));
            && Verify(issued.stores, VerifyFields(Json.Str(Text.Upper(email)), Json.Str(OtpCode.CodeString(draw))), later, token).reply == granted
            && Verify(issued.stores, VerifyFields(Json.Str(Text.Upper(email)), Json.Num(OtpCode.GenerateCode(draw))), later, token).reply == granted
  {
    Text.LowerOfUpper(email);
  }

  /** Re-issuing replaces the pending code: a different old code is then
      refused with 401 while the new one succeeds. */
  lemma ReissueReplacesCode(st: Stores, name1: Json.Value, name2: Json.Value, email: string,
                            now1: int, d1: real, now2: int, d2: real, later: int, token: string)
    requires 0.0 <= d1 < 1.0 && 0.0 <= d2 < 1.0
    requires Json.Truthy(name1) && Json.Truthy(name2) && email != []
    requires OtpCode.GenerateCode(d1) != OtpCode.GenerateCode(d2)
    requires later <= now2 + TtlMs
    requires token !in st.sessions
    ensures var s1 := Issue(st, SendFields(name1, Json.Str(email)), now1, d1).stores;
            var s2 := Issue(s1, SendFields(name2, Json.Str(email)), now2, d2).stores;
            && Verify(s2, VerifyFields(Json.Str(email), Json.Str(OtpCode.CodeString(d1))), later, token).reply
               == Fail(Unauthorized, OtpInvalid)
            && Verify(s2, VerifyFields(Json.Str(email), Json.Str(OtpCode.CodeString(d2))), later, token).reply
               == Ok(Granted(token, User(Text.Lower(email), name2)))
  {
    Text.DecimalStringInjective(OtpCode.GenerateCode(d1), OtpCode.GenerateCode(d2));
  }

  /** One request to either endpoint. */
  datatype Call =
    | IssueCall(send: SendBody, now: int, draw: real)
    | VerifyCall(verify: VerifyBody, now: int, token: string)

  /** The call's parameters are admissible in `st`: a draw in [0, 1), a token
      that is not yet a session key. */
  predicate Admissible(st: Stores, c: Call) {
    match c
    case IssueCall(_, _, draw) => 0.0 <= draw < 1.0
    case VerifyCall(_, _, token) => token !in st.sessions
  }

  function Apply(st: Stores, c: Call): Stores
    requires Admissible(st, c)
  {
    match c
    case IssueCall(body, now, draw) => Issue(st, body, now, draw).stores
    case VerifyCall(body, now, token) => Verify(st, body, now, token).stores
  }

  /** Every call of the sequence is admissible in the stores it meets. */
  predicate Runnable(st: Stores, calls: seq<Call>)
    decreases |calls|
  {
    |calls| == 0 || (Admissible(st, calls[0]) && Runnable(Apply(st, calls[0]), calls[1..]))
  }

  /** The stores after handling `calls` in order. */
  function Run(st: Stores, calls: seq<Call>): Stores
    requires Runnable(st, calls)
    decreases |calls|
  {
    if |calls| == 0 then st else Run(Apply(st, calls[0]), calls[1..])
  }

  /** Some call of the sequence is an issue request for the key. */
  predicate IssuesFor(calls: seq<Call>, key: string) {
    exists i :: 0 <= i < |calls| && calls[i].IssueCall? && SendKey(calls[i].send) == Some(key)
  }

  /** The store invariant holds after any sequence of requests. */
  lemma {:induction false} RunPreservesInvariant(st: Stores, calls: seq<Call>)
    requires Invariant(st) && Runnable(st, calls)
    ensures Invariant(Run(st, calls))
    decreases |calls|
  {
    if |calls| > 0 {
      RunPreservesInvariant(Apply(st, calls[0]), calls[1..]);
    }
  }

  /** No sequence of requests removes or alters a session. */
  lemma {:induction false} RunKeepsSessions(st: Stores, calls: seq<Call>)
    requires Runnable(st, calls)
    ensures SessionsGrow(st, Run(st, calls))
    decreases |calls|
  {
    if |calls| > 0 {
      RunKeepsSessions(Apply(st, calls[0]), calls[1..]);
    }
  }

  /** A key nobody issued for has no pending record after any sequence of
      requests. */
  lemma {:induction false} RunNeverCreatesUnissued(st: Stores, calls: seq<Call>, key: string)
    requires Runnable(st, calls)
    requires key !in st.otps && !IssuesFor(calls, key)
    ensures key !in Run(st, calls).otps
    decreases |calls|
  {
    if |calls| > 0 {
      assert !(calls[0].IssueCall? && SendKey(calls[0].send) == Some(key));
      RunNeverCreatesUnissued(Apply(st, calls[0]), calls[1..], key);
    }
  }

  /** From empty stores, verifying an email that was never issued for is a
      404, whatever requests came before. */
  lemma NeverIssuedNotFound(calls: seq<Call>, email: string, code: Json.Value, now: int, token: string)
    requires Runnable(Empty, calls)
    requires !IssuesFor(calls, Text.Lower(email))
    requires email != [] && Json.Truthy(code)
    requires token !in Run(Empty, calls).sessions
    ensures Verify(Run(Empty, calls), VerifyFields(Json.Str(email), code), now, token).reply == Fail(NotFound, OtpNotFound)
  {
    RunNeverCreatesUnissued(Empty, calls, Text.Lower(email));
  }
}
