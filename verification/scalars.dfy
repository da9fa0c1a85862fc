/** Python's `int()` and `str()` on the scalar values a decoded JSON document can hold. */
module Scalars {
  import opened Wrappers
  import opened Text

  predicate IsDigit(c: char) {
    '0' <= c <= '9'
  }

  function DigitChar(d: nat): (c: char)
    requires d < 10
    ensures IsDigit(c)
  {
    ('0' as int + d) as char
  }

  function DigitValue(c: char): (d: nat)
    requires IsDigit(c)
    ensures d < 10 && DigitChar(d) == c
  {
    c as int - '0' as int
  }

  /** `str(n)` for a non-negative integer: its decimal digits, most significant first. */
  function NatToString(n: nat): (r: string)
    ensures |r| >= 1
    ensures forall i :: 0 <= i < |r| ==> IsDigit(r[i])
    decreases n
  {
    if n < 10 then [DigitChar(n)] else NatToString(n / 10) + [DigitChar(n % 10)]
  }

  /** `str(n)` for any integer. */
  function IntToString(n: int): (r: string)
    ensures r != ""
    ensures r[0] == '-' <==> n < 0
  {
    if n < 0 then "-" + NatToString(-n) else NatToString(n)
  }

  /** The body of a decimal literal that `int()` accepts: ASCII digits, where a single
      underscore may separate two digits. */
  predicate DigitRun(t: string) {
    && |t| > 0 && IsDigit(t[0]) && IsDigit(t[|t| - 1])
    && (forall i :: 0 <= i < |t| ==> IsDigit(t[i]) || t[i] == '_')
    && (forall i :: 0 <= i < |t| - 1 ==> !(t[i] == '_' && t[i + 1] == '_'))
  }

  /** The value of a digit run, underscores ignored. */
  function DigitsValue(t: string): nat
    requires forall i :: 0 <= i < |t| ==> IsDigit(t[i]) || t[i] == '_'
  {
    if |t| == 0 then 0
    else if t[|t| - 1] == '_' then DigitsValue(t[..|t| - 1])
    else DigitsValue(t[..|t| - 1]) * 10 + DigitValue(t[|t| - 1])
  }

  /** `int(s)` on a string: surrounding whitespace is ignored, then an optional sign and a
      digit run are required. None stands for the ValueError `int()` raises otherwise. */
  function ParseInt(s: string): (r: Option<int>)
    ensures r.Some? ==> Strip(s) != ""
    ensures r.Some? ==> forall i :: 0 <= i < |Strip(s)| ==>
                          IsDigit(Strip(s)[i]) || Strip(s)[i] in "_+-"
    ensures r.Some? && r.value < 0 ==> Strip(s)[0] == '-'
  {
    ParseSigned(Strip(s))
  }

  /** An optionally signed digit run, already stripped. */
  function ParseSigned(t: string): (r: Option<int>)
    ensures r.Some? ==> t != ""
    ensures r.Some? ==> forall i :: 0 <= i < |t| ==> IsDigit(t[i]) || t[i] in "_+-"
    ensures r.Some? && r.value < 0 ==> t[0] == '-'
  {
    if |t| > 0 && (t[0] == '-' || t[0] == '+') then
      if DigitRun(t[1..]) then
        assert forall i :: 1 <= i < |t| ==> t[i] == t[1..][i - 1];
        var v: int := DigitsValue(t[1..]);
        Some(if t[0] == '-' then -v else v)
      else None
    else if DigitRun(t) then Some(DigitsValue(t))
    else None
  }

  lemma {:induction false} NatToStringValue(n: nat)
    ensures DigitRun(NatToString(n))
    ensures DigitsValue(NatToString(n)) == n
    decreases n
  {
    if n >= 10 {
      var t := NatToString(n / 10);
      NatToStringValue(n / 10);
      var u := t + [DigitChar(n % 10)];
      assert u[..|u| - 1] == t;
    }
  }

  /** Decimal text has no whitespace at either end, so `int()` sees it whole. */
  lemma IntToStringTrimmed(n: int)
    ensures Strip(IntToString(n)) == IntToString(n)
  {
    var s := IntToString(n);
    assert IsDigit(s[|s| - 1]);
    assert s[0] == '-' || IsDigit(s[0]);
    StripTrimmed(s);
  }

  /** `int(str(n)) == n`: the decimal text of an integer parses back to it. */
  lemma ParseIntToString(n: int)
    ensures ParseInt(IntToString(n)) == Some(n)
  {
    IntToStringTrimmed(n);
    if n < 0 {
      ParseNegative(n);
    } else {
      ParseNatural(n);
    }
  }

  lemma ParseNatural(n: nat)
    ensures ParseSigned(NatToString(n)) == Some(n)
  {
    NatToStringValue(n);
    assert IsDigit(NatToString(n)[0]);
  }

  lemma ParseNegative(n: int)
    requires n < 0
    ensures ParseSigned("-" + NatToString(-n)) == Some(n)
  {
    NatToStringValue(-n);
    assert ("-" + NatToString(-n))[1..] == NatToString(-n);
  }

  /** A decoded JSON scalar. Absent keys read as JNull, as `dict.get` returns None. */
  datatype Json = JNull | JBool(b: bool) | JInt(i: int) | JStr(s: string)

  /** Python truthiness. */
  predicate Truthy(v: Json) {
    match v
    case JNull => false
    case JBool(b) => b
    case JInt(i) => i != 0
    case JStr(s) => s != ""
  }

  /** `int(v)`; None stands for the TypeError or ValueError it raises. */
  function ToInt(v: Json): (r: Option<int>)
    ensures v.JNull? ==> r.None?
    ensures v.JInt? ==> r == Some(v.i)
    ensures v.JBool? ==> r == Some(if v.b then 1 else 0)
  {
    match v
    case JNull => None
    case JBool(b) => Some(if b then 1 else 0)
    case JInt(i) => Some(i)
    case JStr(s) => ParseInt(s)
  }

  /** `str(v)`. */
  function ToStr(v: Json): (r: string)
    ensures v.JInt? ==> ToInt(JStr(r)) == Some(v.i)
    ensures v.JStr? ==> r == v.s
  {
    match v
    case JNull => "None"
    case JBool(b) => if b then "True" else "False"
    case JInt(i) => ParseIntToString(i); IntToString(i)
    case JStr(s) => s
  }
}
