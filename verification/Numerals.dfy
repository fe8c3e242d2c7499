/** Decimal numerals, written and read. */
module Numerals {
  import opened Text
  import opened Wrappers

  predicate AllDigits(s: string) {
    forall i | 0 <= i < |s| :: IsDigit(s[i])
  }

  function DigitValue(c: char): nat {
    if IsDigit(c) then c as int - '0' as int else 0
  }

  function Value(s: string): nat {
    if s == "" then 0 else Value(s[..|s| - 1]) * 10 + DigitValue(s[|s| - 1])
  }

  function Digit(d: nat): (c: char)
    requires d < 10
    ensures IsDigit(c) && DigitValue(c) == d
  {
    '0' + d as char
  }

  /** `str(n)` */
  function Decimal(n: nat): (s: string)
    ensures s != "" && AllDigits(s) && Value(s) == n
  {
    if n < 10 then [Digit(n)]
    else
      var s := Decimal(n / 10) + [Digit(n % 10)];
      assert s[..|s| - 1] == Decimal(n / 10);
      s
  }

  function Zeros(k: nat): (s: string)
    ensures |s| == k && forall i | 0 <= i < k :: s[i] == '0'
  {
    if k == 0 then "" else "0" + Zeros(k - 1)
  }

  /** `f"{n:03d}"` for width 3: padded with zeros on the left, never cut. */
  function Padded(n: nat, width: nat): string {
    var s := Decimal(n);
    if |s| < width then Zeros(width - |s|) + s else s
  }

  lemma {:induction false} LeadingZerosDoNotCount(k: nat, s: string)
    ensures Value(Zeros(k) + s) == Value(s)
    decreases k + |s|
  {
    var t := Zeros(k) + s;
    if s != "" {
      assert t[..|t| - 1] == Zeros(k) + s[..|s| - 1];
      LeadingZerosDoNotCount(k, s[..|s| - 1]);
    } else if k > 0 {
      assert t[..|t| - 1] == Zeros(k - 1) + "" by {
        assert forall i | 0 <= i < k :: t[i] == '0';
      }
      LeadingZerosDoNotCount(k - 1, "");
    }
  }

  /** Padding never makes two numbers look alike, however many digits they have. */
  lemma PaddedIsReadBack(n: nat, width: nat)
    ensures AllDigits(Padded(n, width)) && Value(Padded(n, width)) == n
  {
    var s := Decimal(n);
    if |s| < width {
      LeadingZerosDoNotCount(width - |s|, s);
    }
  }

  /** Digits with single underscores between them, without the underscores. */
  function Ungrouped(s: string): Option<string> {
    if s == "" || !IsDigit(s[0]) then None
    else if |s| == 1 then Some(s)
    else
      var rest := Ungrouped(if s[1] == '_' then s[2..] else s[1..]);
      if rest.None? then None else Some([s[0]] + rest.value)
  }

  /** Longer numerals make `int` raise. */
  const MAX_INT_DIGITS := 4300

  /** `int(text)` over ASCII: surrounding space, one sign, grouped digits; none when it raises. */
  function ParseAscii(text: string): Option<int> {
    var s := Strip(text);
    var signed := s != "" && (s[0] == '-' || s[0] == '+');
    var digits := Ungrouped(if signed then s[1..] else s);
    if digits.None? || |digits.value| > MAX_INT_DIGITS then None
    else
      var value: int := Value(digits.value);
      Some(if signed && s[0] == '-' then -value else value)
  }

  /** The decimal value of a code point outside ASCII, in the platform's tables. */
  type DecimalDigits = char -> Option<nat>

  function AsciiDigit(digits: DecimalDigits, c: char): char {
    if c >= '\U{80}' && !IsSpace(c) && digits(c).Some? && digits(c).value < 10 then Digit(digits(c).value) else c
  }

  function AsciiDigits(digits: DecimalDigits, s: string): (t: string)
    ensures |t| == |s| && forall i | 0 <= i < |s| :: t[i] == AsciiDigit(digits, s[i])
  {
    seq(|s|, i requires 0 <= i < |s| => AsciiDigit(digits, s[i]))
  }

  /** `int(text)`: decimal digits of any script count as the ASCII ones. */
  function ParseInt(digits: DecimalDigits, text: string): Option<int> {
    ParseAscii(AsciiDigits(digits, text))
  }

  lemma {:induction false} StripLeftOfDigits(digits: DecimalDigits, s: string)
    ensures StripLeft(AsciiDigits(digits, s)) == AsciiDigits(digits, StripLeft(s))
    decreases |s|
  {
    if s != "" {
      StripLeftOfDigits(digits, s[1..]);
      assert AsciiDigits(digits, s)[1..] == AsciiDigits(digits, s[1..]);
    }
  }

  lemma {:induction false} StripRightOfDigits(digits: DecimalDigits, s: string)
    ensures StripRight(AsciiDigits(digits, s)) == AsciiDigits(digits, StripRight(s))
    decreases |s|
  {
    if s != "" {
      StripRightOfDigits(digits, s[..|s| - 1]);
      assert AsciiDigits(digits, s)[..|s| - 1] == AsciiDigits(digits, s[..|s| - 1]);
    }
  }

  /** Surrounding space makes no difference. */
  lemma SpaceIsIgnored(digits: DecimalDigits, text: string)
    ensures ParseInt(digits, Strip(text)) == ParseInt(digits, text)
  {
    hide AsciiDigit, StripLeft, StripRight, Ungrouped;
    StripLeftOfDigits(digits, text);
    StripRightOfDigits(digits, StripLeft(text));
    StripIsIdempotent(AsciiDigits(digits, text));
  }

  lemma {:induction false} PlainDigitsAreUngrouped(s: string)
    requires s != "" && AllDigits(s)
    ensures Ungrouped(s) == Some(s)
    decreases |s|
  {
    if |s| > 1 {
      PlainDigitsAreUngrouped(s[1..]);
      assert [s[0]] + s[1..] == s;
    }
  }

  lemma DigitsAreStripped(s: string)
    requires s != "" && AllDigits(s)
    ensures Strip(s) == s
  {
    assert !IsSpace(s[0]) && !IsSpace(s[|s| - 1]);
  }

  /** A plain decimal numeral is read as its number, up to the platform's length limit. */
  lemma DecimalIsReadBack(digits: DecimalDigits, n: nat)
    ensures ParseInt(digits, Decimal(n)) == if |Decimal(n)| <= MAX_INT_DIGITS then Some(n) else None
  {
    hide Value, Decimal, Strip, Ungrouped;
    var s := Decimal(n);
    assert AsciiDigits(digits, s) == s;
    PlainDigitsAreUngrouped(s);
    DigitsAreStripped(s);
  }

  /** With a sign it is read as the signed number. */
  lemma SignedDecimalIsReadBack(digits: DecimalDigits, n: nat)
    requires |Decimal(n)| <= MAX_INT_DIGITS
    ensures var r := ParseInt(digits, "-" + Decimal(n)); r.Some? && r.value == 0 - n
    ensures ParseInt(digits, "+" + Decimal(n)) == Some(n)
  {
    hide Value, Decimal, Ungrouped, StripLeft, StripRight;
    var s := Decimal(n);
    PlainDigitsAreUngrouped(s);
    SignIsStripped(digits, "-", s);
    SignIsStripped(digits, "+", s);
  }

  lemma SignIsStripped(digits: DecimalDigits, sign: string, s: string)
    requires (sign == "-" || sign == "+") && s != "" && AllDigits(s)
    ensures AsciiDigits(digits, sign + s) == sign + s && Strip(sign + s) == sign + s && (sign + s)[1..] == s
    ensures (sign + s)[0] == sign[0]
  {
    var t := sign + s;
    assert t[0] == sign[0] && t[|t| - 1] == s[|s| - 1];
    assert forall i | 1 <= i < |t| :: t[i] == s[i - 1];
  }
}
