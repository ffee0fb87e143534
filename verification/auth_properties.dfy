/**
 * Properties of the sign-in page: the code sanitiser, the validators, the
 * cooldown, and the clearing of messages at the start of every action.
 */
module AuthProperties {

  import opened Options
  import Text
  import opened AuthClient

  /** Filtering digits distributes over concatenation: it keeps exactly the
      digits, in their order. */
  lemma {:induction false} DigitsOnlyAppend(a: string, b: string)
    ensures DigitsOnly(a + b) == DigitsOnly(a) + DigitsOnly(b)
    decreases |a|
  {
    if |a| > 0 {
      assert (a + b)[1..] == a[1..] + b;
      DigitsOnlyAppend(a[1..], b);
    } else {
      assert a + b == b;
    }
  }

  /** A string of digits passes the filter unchanged. */
  lemma {:induction false} DigitsOnlyOfDigits(s: string)
    requires Text.AllDigits(s)
    ensures DigitsOnly(s) == s
    decreases |s|
  {
    if |s| > 0 {
      DigitsOnlyOfDigits(s[1..]);
      assert s == [s[0]] + s[1..];
    }
  }

  /** Sanitising twice is sanitising once. */
  lemma SanitizeIdempotent(raw: string)
    ensures SanitizeOtp(SanitizeOtp(raw)) == SanitizeOtp(raw)
  {
    DigitsOnlyOfDigits(SanitizeOtp(raw));
  }

  /** A complete code survives the sanitiser, so typing or pasting it works. */
  lemma SanitizeKeepsValidCode(s: string)
    requires OtpValid(s)
    ensures SanitizeOtp(s) == s
  {
    DigitsOnlyOfDigits(s);
  }

  /** The sanitised field is a valid code exactly when the input held at
      least six digits. */
  lemma SanitizedValidIff(raw: string)
    ensures OtpValid(SanitizeOtp(raw)) <==> |DigitsOnly(raw)| >= 6
  {
  }

  /** Whatever error or info was showing, sending or verifying behaves the
      same: both are cleared before anything else. */
  lemma ActionsClearMessages(s: ClientState, e: Option<string>, i: Option<string>,
                             sent: FetchResult<string>, verified: FetchResult<OtpServer.Granted>)
    ensures HandleSend(s.(error := e, info := i), sent) == HandleSend(s, sent)
    ensures HandleVerify(s.(error := e, info := i), verified) == HandleVerify(s, verified)
  {
  }

  /** Without line terminators the email test reads: an `@` with a character
      before it, then at least one character, a `.`, and at least one more. */
  lemma LooseEmailPattern(s: string)
    requires forall k :: 0 <= k < |s| ==> !Text.IsLineTerminator(s[k])
    ensures EmailValid(s) <==>
            exists at, dot | 0 <= at < |s| && 0 <= dot < |s| ::
              1 <= at && at + 1 < dot && dot + 1 < |s| && s[at] == '@' && s[dot] == '.'
  {
    if exists at, dot | 0 <= at < |s| && 0 <= dot < |s| ::
         1 <= at && at + 1 < dot && dot + 1 < |s| && s[at] == '@' && s[dot] == '.' {
      var at, dot :| 0 <= at < |s| && 0 <= dot < |s| &&
        1 <= at && at + 1 < dot && dot + 1 < |s| && s[at] == '@' && s[dot] == '.';
      assert EmailShapeAt(s, at, dot);
    }
  }

  /** `n` seconds of the cooldown interval. */
  function Ticks(s: ClientState, n: nat): ClientState
    decreases n
  {
    if n == 0 then s else Ticks(Tick(s), n - 1)
  }

  /** After n ticks the cooldown is max(0, c - n); nothing else moves. */
  lemma {:induction false} TicksCountDown(s: ClientState, n: nat)
    requires s.cooldown >= 0
    ensures Ticks(s, n).cooldown == if s.cooldown - n > 0 then s.cooldown - n else 0
    ensures Ticks(s, n) == s.(cooldown := Ticks(s, n).cooldown)
    decreases n
  {
    if n > 0 {
      TicksCountDown(Tick(s), n - 1);
    }
  }

  /** Once the cooldown is started at 30, resend does nothing for 29 ticks
      and is a fresh send from the 30th tick on. A successful send starts it
      (see `HandleSend`). */
  lemma ResendAfterCooldown(s: ClientState, n: nat, again: FetchResult<string>)
    requires s.cooldown == ResendCooldown
    ensures n < ResendCooldown ==> HandleResend(Ticks(s, n), again) == Transition(Ticks(s, n), None)
    ensures n >= ResendCooldown ==> HandleResend(Ticks(s, n), again) == HandleSend(Ticks(s, n), again)
  {
    TicksCountDown(s, n);
  }

  /** The cooldown guards only the resend link: "Change email" followed by
      "Send OTP" requests a new code at once, while resend would do nothing. */
  lemma ChangeEmailSkipsCooldown(s: ClientState, result: FetchResult<string>)
    requires s.cooldown > 0 && NameValid(s.name) && EmailValid(s.email)
    ensures HandleResend(s, result).request.None?
    ensures HandleSend(ChangeEmail(s), result).request.Some?
    ensures HandleSend(ChangeEmail(s), result).request == SendRequestFor(s)
  {
  }
}
