/** Character classes and string operations, as Python's `str` has them. */
module Text {

  predicate IsLower(c: char) { 'a' <= c <= 'z' }

  predicate IsUpper(c: char) { 'A' <= c <= 'Z' }

  predicate IsDigit(c: char) { '0' <= c <= '9' }

  /** The code points for which Python's `str.isspace` and the regex class `\s` hold. */
  predicate IsSpace(c: char) {
    || '\U{9}' <= c <= '\U{D}'
    || '\U{1C}' <= c <= '\U{20}'
    || c == '\U{85}' || c == '\U{A0}' || c == '\U{1680}'
    || '\U{2000}' <= c <= '\U{200A}'
    || c == '\U{2028}' || c == '\U{2029}' || c == '\U{202F}' || c == '\U{205F}' || c == '\U{3000}'
  }

  predicate Blank(s: string) {
    forall i | 0 <= i < |s| :: IsSpace(s[i])
  }

  function StripLeft(s: string): (r: string)
    ensures |r| <= |s|
    ensures r == "" || !IsSpace(r[0])
    ensures r == "" <==> Blank(s)
  {
    if s == "" then ""
    else if IsSpace(s[0]) then StripLeft(s[1..]) else s
  }

  function StripRight(s: string): (r: string)
    ensures r <= s
    ensures r == "" || !IsSpace(r[|r| - 1])
    ensures r == "" <==> Blank(s)
  {
    if s == "" then ""
    else if IsSpace(s[|s| - 1]) then StripRight(s[..|s| - 1]) else s
  }

  /** `str.strip()`: nothing is left exactly when the text is blank. */
  function Strip(s: string): (r: string)
    ensures r == "" <==> Blank(s)
    ensures r == "" || (!IsSpace(r[0]) && !IsSpace(r[|r| - 1]))
  {
    StripRight(StripLeft(s))
  }

  lemma {:induction false} StripLeftDropsSpaces(s: string) returns (i: nat)
    ensures i <= |s| && StripLeft(s) == s[i..] && Blank(s[..i])
    decreases |s|
  {
    i := 0;
    if s != "" && IsSpace(s[0]) {
      var k := StripLeftDropsSpaces(s[1..]);
      i := k + 1;
      assert s[1..][..k] == s[..i][1..] && s[1..][k..] == s[i..];
      assert forall j | 1 <= j < i :: s[..i][j] == s[..i][1..][j - 1];
    }
  }

  lemma {:induction false} StripRightDropsSpaces(s: string) returns (j: nat)
    ensures j <= |s| && StripRight(s) == s[..j] && Blank(s[j..])
    decreases |s|
  {
    j := |s|;
    if s != "" && IsSpace(s[|s| - 1]) {
      j := StripRightDropsSpaces(s[..|s| - 1]);
      assert s[..|s| - 1][j..] + [s[|s| - 1]] == s[j..] && s[..|s| - 1][..j] == s[..j];
    }
  }

  /** Stripping takes spaces from the two ends, all of them, and nothing else. */
  lemma StripTakesTheBlankEnds(s: string)
    ensures exists i: nat, j: nat | i <= j <= |s| :: s[i..j] == Strip(s) && Blank(s[..i]) && Blank(s[j..])
  {
    hide *;
    var i := StripLeftDropsSpaces(s);
    var j := StripRightDropsSpaces(s[i..]);
    assert s[i..][..j] == s[i..i + j] && s[i..][j..] == s[i + j..];
    assert StripRight(StripLeft(s)) == s[i..i + j];
    StripIsBothSides(s);
  }

  lemma StripIsBothSides(s: string)
    ensures Strip(s) == StripRight(StripLeft(s))
  {
  }

  lemma StripIsIdempotent(s: string)
    ensures Strip(Strip(s)) == Strip(s)
  {
  }

  /** ASCII lower-casing. */
  function LowerChar(c: char): char {
    if IsUpper(c) then (c as int + 32) as char else c
  }

  function Lower(s: string): (r: string)
    ensures |r| == |s|
  {
    seq(|s|, i requires 0 <= i < |s| => LowerChar(s[i]))
  }

  /** The same character, or the two cases of one ASCII letter. */
  predicate SameLetter(c: char, d: char) {
    c == d || (IsUpper(c) && d as int == c as int + 32) || (IsUpper(d) && c as int == d as int + 32)
  }

  /** The same text but for the case of its ASCII letters. */
  predicate SameButCase(s: string, t: string) {
    |s| == |t| && forall i | 0 <= i < |s| :: SameLetter(s[i], t[i])
  }

  lemma SameLetterIffSameLower(c: char, d: char)
    ensures SameLetter(c, d) <==> LowerChar(c) == LowerChar(d)
  {
  }

  /** Lower-casing forgets the case of letters and nothing else. */
  lemma SameButCaseIffSameLower(s: string, t: string)
    ensures SameButCase(s, t) <==> Lower(s) == Lower(t)
  {
    hide SameLetter, LowerChar;
    if |s| == |t| {
      forall i | 0 <= i < |s| ensures SameLetter(s[i], t[i]) <==> Lower(s)[i] == Lower(t)[i] {
        SameLetterIffSameLower(s[i], t[i]);
      }
    }
  }

  /** `str.lower` of the platform. */
  type Lowering = string -> string

  /** `text` continues with `word` at position `at`. */
  predicate HasAt(text: string, at: nat, word: string) {
    at + |word| <= |text| && text[at..at + |word|] == word
  }

  lemma BesideJoin(a: string, b: string, i: nat, j: nat)
    requires i <= j <= |a + b|
    ensures j <= |a| ==> (a + b)[i..j] == a[i..j]
    ensures i >= |a| ==> (a + b)[i..j] == b[i - |a|..j - |a|]
  {
  }

  /** What stands beside a cut is the same before and after it. */
  lemma BesideCut(a: string, m: string, b: string, i: nat, n: nat)
    requires i + n <= |a + m + b| && (i + n <= |a| || i >= |a| + |m|)
    ensures i + n <= |a| ==> (a + m + b)[i..i + n] == (a + b)[i..i + n]
    ensures i >= |a| + |m| ==> i - |m| + n <= |a + b| && (a + m + b)[i..i + n] == (a + b)[i - |m|..i - |m| + n]
  {
  }

  lemma AcrossCut(a: string, m: string, b: string, i: nat, j: nat)
    requires i <= |a| <= j <= |a + b|
    ensures (a + b)[i..j] == a[i..] + b[..j - |a|]
    ensures (a + m + b)[i..j + |m|] == a[i..] + m + b[..j - |a|]
  {
  }

  /** `needle in haystack` */
  predicate Contains(haystack: string, needle: string) {
    exists i: nat | i <= |haystack| :: HasAt(haystack, i, needle)
  }

  /** Octets of one code point, section 3 of RFC 3629. */
  function Utf8Size(c: char): (n: nat)
    ensures 1 <= n <= 4
  {
    if c < '\U{80}' then 1 else if c < '\U{800}' then 2 else if c < '\U{10000}' then 3 else 4
  }

  /** `len(s.encode("utf-8"))` */
  function Utf8Len(s: string): (n: nat)
    ensures |s| <= n <= 4 * |s|
  {
    if s == "" then 0 else Utf8Size(s[0]) + Utf8Len(s[1..])
  }
}
