/** The number built-ins the scripts rely on: `parseInt(s, 10)`, `String(n)`
    of an integer, `padStart(2, '0')` and `isNaN`. Integers are unbounded. */
module JsNumber {
  import opened Wrappers
  import opened JsString

  /** A JavaScript number as far as these scripts look at one: NaN, or some
      other value (infinities and rounding are not distinguished). */
  datatype Number = NaN | Num(value: real)

  predicate IsNaN(n: Number) {
    n.NaN?
  }

  predicate IsDigit(c: char) {
    '0' <= c <= '9'
  }

  predicate AllDigits(s: string) {
    forall i :: 0 <= i < |s| ==> IsDigit(s[i])
  }

  function DigitValue(c: char): (d: nat)
    requires IsDigit(c)
    ensures d < 10
  {
    c as int - '0' as int
  }

  function DigitChar(d: nat): (c: char)
    requires d < 10
    ensures IsDigit(c) && DigitValue(c) == d
  {
    ('0' as int + d) as char
  }

  /** The value of a decimal digit string, read left to right. */
  function DigitsValue(s: string): nat
    requires AllDigits(s)
  {
    if s == [] then 0 else DigitsValue(s[..|s| - 1]) * 10 + DigitValue(s[|s| - 1])
  }

  /** The longest run of digits at the start of `s`. */
  function LeadingDigits(s: string): (d: string)
    ensures |d| <= |s| && d == s[..|d|] && AllDigits(d)
    ensures |d| < |s| ==> !IsDigit(s[|d|])
  {
    if s != [] && IsDigit(s[0]) then
      var rest := LeadingDigits(s[1..]);
      assert s[..1 + |rest|] == [s[0]] + rest;
      [s[0]] + rest
    else []
  }

  /** `parseInt(s, 10)`, with `None` for NaN: skip leading white space, read
      an optional sign, then the longest run of digits; no digits is NaN. */
  function ParseInt(s: string): (r: Option<int>)
  {
    var t := TrimStart(s);
    var negative := t != [] && t[0] == '-';
    var body := if t != [] && (t[0] == '-' || t[0] == '+') then t[1..] else t;
    var digits := LeadingDigits(body);
    var magnitude: int := if AllDigits(digits) then DigitsValue(digits) else 0;
    if digits == [] then None
    else if negative then Some(-magnitude)
    else Some(magnitude)
  }

  /** What `parseInt(s, 10)` reads: after the leading white space and an
      optional sign, NaN exactly when no digit follows; otherwise the
      value of the longest run of digits there, negated after a minus. */
  lemma ParseIntReads(s: string)
    ensures var t := TrimStart(s);
      var signed := t != [] && (t[0] == '-' || t[0] == '+');
      var body := if signed then t[1..] else t;
      && (ParseInt(s).None? <==> body == [] || !IsDigit(body[0]))
      && (ParseInt(s).Some? ==>
            ParseInt(s).value == if t[0] == '-' then -(DigitsValue(LeadingDigits(body)) as int)
                                 else DigitsValue(LeadingDigits(body)))
  {
  }

  /** The decimal digits of `n`, without leading zeros. */
  function NatToString(n: nat): (s: string)
    ensures |s| >= 1 && AllDigits(s)
    ensures |s| > 1 ==> s[0] != '0'
    ensures n < 10 <==> |s| == 1
    decreases n
  {
    if n < 10 then [DigitChar(n)] else NatToString(n / 10) + [DigitChar(n % 10)]
  }

  /** `String(n)` of an integer: a minus sign for negatives, then the digits. */
  function IntToString(n: int): (s: string)
    ensures |s| >= 1
    ensures n >= 0 ==> AllDigits(s)
    ensures n < 0 ==> s[0] == '-' && AllDigits(s[1..])
  {
    if n < 0 then "-" + NatToString(-n) else NatToString(n)
  }

  /** Reading the digits of `n` back gives `n`. */
  lemma {:induction false} DigitsValueOfNatToString(n: nat)
    ensures DigitsValue(NatToString(n)) == n
  {
    if n >= 10 {
      DigitsValueOfNatToString(n / 10);
      var s := NatToString(n);
      assert s[..|s| - 1] == NatToString(n / 10);
    }
  }

  /** A digit string without leading zeros is the printed form of its value. */
  lemma {:induction false} NatToStringOfDigitsValue(s: string)
    requires AllDigits(s) && |s| >= 1 && (|s| > 1 ==> s[0] != '0')
    ensures NatToString(DigitsValue(s)) == s
  {
    if |s| > 1 {
      var p := s[..|s| - 1];
      NatToStringOfDigitsValue(p);
      DigitsValuePositive(p);
      assert s == p + [s[|s| - 1]];
    }
  }

  /** A digit string that starts with a non-zero digit has a positive value
      of at least ten to its length minus one. */
  lemma {:induction false} DigitsValuePositive(s: string)
    requires AllDigits(s) && |s| >= 1 && s[0] != '0'
    ensures DigitsValue(s) >= 1
    ensures |s| > 1 ==> DigitsValue(s) >= 10
  {
    if |s| > 1 {
      DigitsValuePositive(s[..|s| - 1]);
    }
  }

  /** `parseInt(String(n), 10) == n` for every integer `n`. */
  lemma ParseIntOfIntToString(n: int)
    ensures ParseInt(IntToString(n)) == Some(n)
  {
    var s := IntToString(n);
    var d := NatToString(if n < 0 then -n else n);
    assert TrimStart(s) == s;
    if n < 0 {
      assert s[1..] == d;
    }
    DigitsOnly(d);
    DigitsValueOfNatToString(if n < 0 then -n else n);
  }

  /** The leading digits of an all-digit string are the whole string. */
  lemma DigitsOnly(s: string)
    requires AllDigits(s)
    ensures LeadingDigits(s) == s
  {
  }

  /** `s.padStart(2, '0')`: strings shorter than two get leading zeros. */
  function PadStart2(s: string): (r: string)
    ensures |s| >= 2 ==> r == s
    ensures |s| < 2 ==> |r| == 2 && r[2 - |s|..] == s && forall i :: 0 <= i < 2 - |s| ==> r[i] == '0'
  {
    if |s| >= 2 then s else if |s| == 1 then "0" + s else "00"
  }

  /** A number below one hundred pads to exactly two digits with that value. */
  lemma {:induction false} PadStart2TwoDigits(n: nat)
    requires n < 100
    ensures |PadStart2(NatToString(n))| == 2
    ensures AllDigits(PadStart2(NatToString(n)))
    ensures DigitsValue(PadStart2(NatToString(n))) == n
  {
    var s := NatToString(n);
    DigitsValueOfNatToString(n);
    if n < 10 {
      var r := PadStart2(s);
      assert r == ['0', s[0]];
      assert r[..1] == ['0'];
    } else {
      assert NatToString(n / 10) == [DigitChar(n / 10)];
    }
  }
}
