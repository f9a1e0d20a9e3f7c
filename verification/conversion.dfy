/** `Convert.ToInt32(object)` as the repository helpers use it, restricted to
    the values a SQLite reader hands back: null, an integer or a string. A
    conversion that would throw (a malformed string, a value outside the
    32-bit range) is `None`. */
module Conversion {
  import opened Wrappers
  import opened SqlValues

  const INT32_MIN: int := -0x8000_0000
  const INT32_MAX: int := 0x7fff_ffff

  predicate InInt32(n: int) {
    INT32_MIN <= n <= INT32_MAX
  }

  /** The white space `Int32.Parse` skips around a number: U+0009 to U+000D and
      the space. */
  predicate IsParseWhite(c: char) {
    c == ' ' || '\t' <= c <= '\r'
  }

  predicate IsDigit(c: char) {
    '0' <= c <= '9'
  }

  predicate AllDigits(d: string) {
    forall i :: 0 <= i < |d| ==> IsDigit(d[i])
  }

  function TrimStart(s: string): (t: string)
    ensures |t| <= |s| && t == s[|s| - |t|..]
    ensures |t| > 0 ==> !IsParseWhite(t[0])
    ensures forall i :: 0 <= i < |s| - |t| ==> IsParseWhite(s[i])
  {
    if |s| > 0 && IsParseWhite(s[0]) then TrimStart(s[1..]) else s
  }

  function TrimEnd(s: string): (t: string)
    ensures |t| <= |s| && t == s[..|t|]
    ensures |t| > 0 ==> !IsParseWhite(t[|t| - 1])
    ensures forall i :: |t| <= i < |s| ==> IsParseWhite(s[i])
  {
    if |s| > 0 && IsParseWhite(s[|s| - 1]) then TrimEnd(s[..|s| - 1]) else s
  }

  /** The value of a run of decimal digits, most significant first. */
  function DigitsValue(d: string): nat
    requires AllDigits(d)
  {
    if |d| == 0 then 0
    else DigitsValue(d[..|d| - 1]) * 10 + (d[|d| - 1] as int - '0' as int)
  }

  predicate AllParseWhite(w: string) {
    forall i :: 0 <= i < |w| ==> IsParseWhite(w[i])
  }

  predicate IsSign(c: char) {
    c == '-' || c == '+'
  }

  /** What `Int32.Parse` accepts between the white space: an optional sign,
      then one or more decimal digits (leading zeros allowed). */
  predicate IsNumeral(t: string) {
    |t| > 0 && if IsSign(t[0]) then |t| > 1 && AllDigits(t[1..]) else AllDigits(t)
  }

  function NumeralValue(t: string): int
    requires IsNumeral(t)
  {
    if t[0] == '-' then -(DigitsValue(t[1..]) as int)
    else if t[0] == '+' then DigitsValue(t[1..])
    else DigitsValue(t)
  }

  /** `Int32.Parse(s)` with the integer number style: optional surrounding
      white space, an optional sign, one or more digits; a value outside the
      32-bit range overflows. Every success comes from such a layout of `s`;
      `ParsePadded` gives the converse. */
  function ParseInt32(s: string): (r: Option<int>)
    ensures r.Some? ==> InInt32(r.value)
    ensures r.Some? ==> exists k, j :: 0 <= k <= j <= |s| && AllParseWhite(s[..k]) && AllParseWhite(s[j..])
                                       && IsNumeral(s[k..j]) && r.value == NumeralValue(s[k..j])
  {
    var t1 := TrimStart(s);
    var t := TrimEnd(t1);
    if !IsNumeral(t) then None
    else
      var n := NumeralValue(t);
      if !InInt32(n) then None
      else
        var k := |s| - |t1|;
        var j := k + |t|;
        assert s[k..j] == t by {
          assert t1 == s[k..];
          assert t == t1[..|t|];
        }
        assert AllParseWhite(s[j..]) by {
          assert forall i :: 0 <= i < |s| - j ==> s[j..][i] == t1[|t| + i];
        }
        Some(n)
  }

  /** Leading white space is skipped up to the first other character. */
  lemma {:induction false} TrimStartPadded(lead: string, rest: string)
    requires AllParseWhite(lead) && |rest| > 0 && !IsParseWhite(rest[0])
    ensures TrimStart(lead + rest) == rest
    decreases |lead|
  {
    if |lead| > 0 {
      assert (lead + rest)[1..] == lead[1..] + rest;
      TrimStartPadded(lead[1..], rest);
    } else {
      assert lead + rest == rest;
    }
  }

  /** Trailing white space is dropped back to the last other character. */
  lemma {:induction false} TrimEndPadded(body: string, trail: string)
    requires AllParseWhite(trail) && |body| > 0 && !IsParseWhite(body[|body| - 1])
    ensures TrimEnd(body + trail) == body
    decreases |trail|
  {
    if |trail| > 0 {
      var shorter := trail[..|trail| - 1];
      assert (body + trail)[..|body + trail| - 1] == body + shorter;
      TrimEndPadded(body, shorter);
    } else {
      assert body + trail == body;
    }
  }

  /** Every numeral, however padded with white space, parses to its value
      when that fits in 32 bits and overflows otherwise. */
  lemma ParsePadded(lead: string, t: string, trail: string)
    requires AllParseWhite(lead) && AllParseWhite(trail) && IsNumeral(t)
    ensures ParseInt32(lead + t + trail) == if InInt32(NumeralValue(t)) then Some(NumeralValue(t)) else None
  {
    assert !IsParseWhite(t[|t| - 1]) by {
      if IsSign(t[0]) {
        assert t[|t| - 1] == t[1..][|t| - 2];
      }
    }
    TrimEndPadded(t, trail);
    assert lead + t + trail == lead + (t + trail);
    TrimStartPadded(lead, t + trail);
  }

  function DigitChar(d: nat): char
    requires d < 10
  {
    ('0' as int + d) as char
  }

  /** The decimal digits of `n`, without leading zeros. */
  function Digits(n: nat): (d: string)
    ensures |d| > 0 && AllDigits(d)
  {
    if n < 10 then [DigitChar(n)] else Digits(n / 10) + [DigitChar(n % 10)]
  }

  /** `n.ToString()` in the invariant culture. */
  function FormatInt(n: int): (s: string)
    ensures |s| > 0
  {
    if n < 0 then "-" + Digits(-n) else Digits(n)
  }

  lemma {:induction false} DigitsValueOfDigits(n: nat)
    ensures DigitsValue(Digits(n)) == n
  {
    if n >= 10 {
      var d := Digits(n);
      assert d[..|d| - 1] == Digits(n / 10);
      DigitsValueOfDigits(n / 10);
    }
  }

  /** Parsing the decimal form of a number gives the number back when it fits
      in 32 bits, and overflows otherwise. */
  lemma ParseFormat(n: int)
    ensures ParseInt32(FormatInt(n)) == if InInt32(n) then Some(n) else None
  {
    var s := FormatInt(n);
    if n < 0 {
      assert s[1..] == Digits(-n);
      DigitsValueOfDigits(-n);
    } else {
      DigitsValueOfDigits(n);
    }
    assert NumeralValue(s) == n;
    assert "" + s + "" == s;
    ParsePadded("", s, "");
  }

  /** `Convert.ToInt32(object)`: null converts to 0, an integer is
      range-checked, a string goes through `Int32.Parse`. */
  function ToInt32(v: DbValue): (r: Option<int>)
    ensures r.Some? ==> InInt32(r.value)
    ensures v.Null? ==> r == Some(0)
    ensures v.Integer? ==> (r.Some? <==> InInt32(v.i))
    ensures v.Integer? && r.Some? ==> r.value == v.i
  {
    match v
    case Null => Some(0)
    case Integer(i) => if InInt32(i) then Some(i) else None
    case Text(s) => ParseInt32(s)
  }

  /** An integer and its decimal text convert alike: both succeed with the
      same value, or both fail. */
  lemma TextConvertsLikeInteger(n: int)
    ensures ToInt32(Text(FormatInt(n))) == ToInt32(Integer(n))
  {
    ParseFormat(n);
  }
}
