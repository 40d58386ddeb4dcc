/** Python's `int(str)` and `str(int)` on decimal integers, as used for the
    `id` attribute of a media-sources `location`. */
module Numerals {
  import opened Wrappers
  import opened Errors

  predicate IsDigit(c: char) {
    '0' <= c <= '9'
  }

  predicate AllDigits(s: string) {
    forall i :: 0 <= i < |s| ==> IsDigit(s[i])
  }

  /** The value of a string of decimal digits, most significant first. */
  function DigitsValue(s: string): nat
    requires AllDigits(s)
  {
    if s == [] then 0 else 10 * DigitsValue(s[..|s| - 1]) + (s[|s| - 1] as int - '0' as int)
  }

  function DigitChar(d: nat): (c: char)
    requires d < 10
    ensures IsDigit(c) && c as int - '0' as int == d
  {
    ('0' as int + d) as char
  }

  /** The shortest decimal spelling of a natural number. */
  function NatToDigits(n: nat): (s: string)
    ensures |s| > 0 && AllDigits(s)
    ensures s[0] == '0' <==> n == 0
    ensures n == 0 ==> s == "0"
  {
    if n < 10 then [DigitChar(n)] else NatToDigits(n / 10) + [DigitChar(n % 10)]
  }

  /** An optional sign followed by one or more ASCII digits. */
  predicate IsIntLiteral(s: string) {
    || (|s| > 1 && (s[0] == '-' || s[0] == '+') && AllDigits(s[1..]))
    || (|s| > 0 && AllDigits(s))
  }

  /** `int(s)` for a string: an optional sign and one or more ASCII digits;
      anything else raises ValueError. */
  function ParseInt(s: string): (r: Result<int, Error>)
    ensures r.Success? <==> IsIntLiteral(s)
    ensures r.Failure? ==> r.error == InvalidLiteral(s)
    ensures r.Success? ==> |s| > 0 && (IsDigit(s[0]) || s[0] == '-' || s[0] == '+')
  {
    if |s| > 1 && (s[0] == '-' || s[0] == '+') && AllDigits(s[1..]) then
      Success(if s[0] == '-' then -(DigitsValue(s[1..]) as int) else DigitsValue(s[1..]))
    else if |s| > 0 && AllDigits(s) then
      Success(DigitsValue(s))
    else
      Failure(InvalidLiteral(s))
  }

  /** `str(n)` for an integer. */
  function IntToString(n: int): (r: string)
    ensures n >= 0 ==> |r| > 0 && AllDigits(r) && (r[0] == '0' ==> r == "0")
    ensures n < 0 ==> |r| > 1 && r[0] == '-' && AllDigits(r[1..]) && r[1] != '0'
  {
    if n < 0 then "-" + NatToDigits(-n) else NatToDigits(n)
  }

  lemma {:induction false} DigitsRoundTrip(n: nat)
    ensures DigitsValue(NatToDigits(n)) == n
  {
    if n >= 10 {
      DigitsRoundTrip(n / 10);
      var s := NatToDigits(n);
      assert s[..|s| - 1] == NatToDigits(n / 10);
    }
  }

  /** `int(str(n)) == n`. */
  lemma ParseIntToString(n: int)
    ensures ParseInt(IntToString(n)) == Success(n)
  {
    DigitsRoundTrip(if n < 0 then -n else n);
    if n < 0 {
      assert IntToString(n)[1..] == NatToDigits(-n);
    }
  }

  /** Distinct integers have distinct spellings, and a string that parses to
      another value is not the spelling of `n`. */
  lemma IntToStringDistinct(n: int, s: string)
    requires ParseInt(s).Success? && ParseInt(s).value != n
    ensures s != IntToString(n)
  {
    ParseIntToString(n);
  }

  /** The spellings `str` produces: digits without a leading zero (except
      "0" itself), or "-" followed by such digits for a nonzero value. */
  predicate IsCanonicalInt(s: string) {
    || (|s| > 0 && AllDigits(s) && (s[0] == '0' ==> s == "0"))
    || (|s| > 1 && s[0] == '-' && AllDigits(s[1..]) && s[1] != '0')
  }

  lemma {:induction false} DigitsValuePositive(s: string)
    requires |s| > 0 && AllDigits(s) && s[0] != '0'
    ensures DigitsValue(s) > 0
  {
    if |s| > 1 {
      DigitsValuePositive(s[..|s| - 1]);
    }
  }

  lemma {:induction false} DigitsOfValue(s: string)
    requires |s| > 0 && AllDigits(s) && (s[0] == '0' ==> s == "0")
    ensures NatToDigits(DigitsValue(s)) == s
  {
    var n := DigitsValue(s);
    if |s| == 1 {
      assert s[..0] == [] && DigitsValue(s[..0]) == 0;
      assert n == 10 * DigitsValue(s[..0]) + (s[0] as int - '0' as int);
    } else {
      var init := s[..|s| - 1];
      DigitsValuePositive(init);
      DigitsOfValue(init);
      assert n / 10 == DigitsValue(init) && n % 10 == s[|s| - 1] as int - '0' as int;
      assert s == init + [s[|s| - 1]];
    }
  }

  /** `str(int(s)) == s` for every spelling `str` can produce. */
  lemma IntToStringParseInt(s: string)
    requires IsCanonicalInt(s)
    ensures ParseInt(s).Success? && IntToString(ParseInt(s).value) == s
  {
    if s[0] == '-' {
      DigitsOfValue(s[1..]);
      DigitsValuePositive(s[1..]);
      assert s == "-" + s[1..];
    } else {
      DigitsOfValue(s);
    }
  }
}
