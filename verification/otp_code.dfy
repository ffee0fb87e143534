/**
 * The six-digit one-time code: `Math.floor(100000 + Math.random() * 900000)`
 * rendered with `toString`.
 */
module OtpCode {

  import Text

  const CodeMin: int := 100000
  const CodeMax: int := 999999

  /** The code drawn from a `Math.random()` result `r`, with the arithmetic
      taken as exact. */
  function GenerateCode(r: real): (code: int)
    requires 0.0 <= r < 1.0
    ensures CodeMin <= code <= CodeMax
  {
    (100000.0 + r * 900000.0).Floor
  }

  /** The string the store keeps for a generated code. */
  function CodeString(r: real): (s: string)
    requires 0.0 <= r < 1.0
    ensures IsCodeString(s)
  {
    CodeInRangeIsCodeString(GenerateCode(r));
    Text.DecimalString(GenerateCode(r))
  }

  /** Exactly six ASCII digits, the first of them not zero. */
  predicate IsCodeString(s: string) {
    |s| == 6 && Text.AllDigits(s) && s[0] != '0'
  }

  /** Every code in range renders as six digits with no leading zero. */
  lemma CodeInRangeIsCodeString(n: int)
    requires CodeMin <= n <= CodeMax
    ensures IsCodeString(Text.DecimalString(n))
  {
    assert Text.Pow10(5) == 100000 && Text.Pow10(6) == 1000000;
    Text.DecimalStringLength(n, 6);
  }

  /** Conversely, every well-formed code string is produced by some draw. */
  lemma EveryCodeStringIsDrawn(s: string)
    requires IsCodeString(s)
    ensures exists r :: 0.0 <= r < 1.0 && CodeString(r) == s
  {
    Text.DecimalStringParse(s);
    Text.ParseAtLeastOne(s);
    var n := Text.ParseDecimal(s);
    assert Text.Pow10(5) == CodeMin && Text.Pow10(6) == CodeMax + 1;
    if n < CodeMin {
      Text.DecimalStringShort(n, 5);
    } else if n > CodeMax {
      Text.DecimalStringLong(n, 6);
    }
    var r := (n - CodeMin) as real / 900000.0;
    assert r * 900000.0 == (n - CodeMin) as real;
    assert GenerateCode(r) == n;
    assert CodeString(r) == s;
  }
}
