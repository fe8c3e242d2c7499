/** Rule 2 of the scrubber: excision of credential-shaped substrings from one text. */
module CredentialShapes {
  import opened Text

  /** The sets of characters the patterns repeat over. */
  datatype CharClass = TokenChars | SecretChars | KeyIdChars | ParamValueChars | Ampersand | Separators
  {
    predicate Has(c: char) {
      match this
      case TokenChars => IsLower(c) || IsUpper(c) || IsDigit(c) || c == '+' || c == '/' || c == '='
      case SecretChars => IsLower(c) || IsUpper(c) || IsDigit(c) || c == '+' || c == '/'
      case KeyIdChars => IsUpper(c) || IsDigit(c)
      case ParamValueChars => c != '&' && !Delimits(c)
      case Ampersand => c == '&'
      case Separators => c == '?' || c == '&'
    }

    predicate All(s: string) {
      forall i | 0 <= i < |s| :: Has(s[i])
    }

    /** Length of the longest run of this class starting at `i`. */
    function Run(s: string, i: nat): (n: nat)
      requires i <= |s|
      ensures i + n <= |s|
      ensures All(s[i..i + n])
      ensures i + n == |s| || !Has(s[i + n])
      decreases |s| - i
    {
      if i == |s| || !Has(s[i]) then 0
      else
        var n := 1 + Run(s, i + 1);
        assert s[i..i + n] == [s[i]] + s[i + 1..i + n];
        n
    }
  }

  predicate Delimits(c: char) {
    IsSpace(c) || c == '"' || c == '\'' || c == '<' || c == '>'
  }

  /** The four credential shapes in the order they are excised, then the two tidying patterns. */
  datatype Shape = SigV4Param | SessionToken | SecretKey | AccessKeyId | CollapseSeparators | TrailingSeparators

  const KEY_ID_LENGTH := 20
  const SECRET_LENGTH := 40
  const TOKEN_MIN_LENGTH := 300
  const SIGV4_NAMES := ["x-amz-credential", "x-amz-signature", "x-amz-security-token"]

  /** Case folding as the regex engine's IGNORECASE applies it to the letters of the SigV4 names:
      four non-ASCII code points fold onto `i`, `s` and `k`. */
  function FoldChar(c: char): char {
    if c == '\U{130}' || c == '\U{131}' then 'i'
    else if c == '\U{17F}' then 's'
    else if c == '\U{212A}' then 'k'
    else LowerChar(c)
  }

  predicate HasFolded(text: string, at: nat, word: string) {
    at + |word| <= |text| && forall i | 0 <= i < |word| :: FoldChar(text[at + i]) == word[i]
  }

  /** Length of the parameter name and its `=` at `at`, 0 when there is none. */
  function SigV4NameLength(text: string, at: nat): (n: nat)
    requires at <= |text|
    ensures at + n <= |text|
  {
    if exists k | 0 <= k < |SIGV4_NAMES| :: HasFolded(text, at, SIGV4_NAMES[k] + "=") then
      if HasFolded(text, at, SIGV4_NAMES[0] + "=") then |SIGV4_NAMES[0]| + 1
      else if HasFolded(text, at, SIGV4_NAMES[1] + "=") then |SIGV4_NAMES[1]| + 1
      else |SIGV4_NAMES[2]| + 1
    else 0
  }

  /** Length of the match of `p` that starts exactly at `i`, 0 when the pattern does not match there. */
  function MatchLength(p: Shape, text: string, i: nat): (n: nat)
    requires i <= |text|
    ensures i + n <= |text|
  {
    match p
    case SigV4Param =>
      if i == 0 || !Separators.Has(text[i - 1]) then 0
      else
        var name := SigV4NameLength(text, i);
        if name == 0 then 0
        else
          var end := i + name + ParamValueChars.Run(text, i + name);
          if end < |text| && text[end] == '&' then end + 1 - i else end - i
    case SessionToken =>
      if i > 0 && TokenChars.Has(text[i - 1]) then 0
      else
        var n := TokenChars.Run(text, i);
        if n >= TOKEN_MIN_LENGTH then n else 0
    case SecretKey =>
      if i > 0 && SecretChars.Has(text[i - 1]) then 0
      else
        var n := SecretChars.Run(text, i);
        if n == SECRET_LENGTH then n else 0
    case AccessKeyId =>
      if (HasAt(text, i, "ASIA") || HasAt(text, i, "AKIA")) && i + KEY_ID_LENGTH <= |text|
         && KeyIdChars.All(text[i + 4..i + KEY_ID_LENGTH])
      then KEY_ID_LENGTH else 0
    case CollapseSeparators =>
      if i < |text| && text[i] == '?' then
        var n := Ampersand.Run(text, i + 1);
        if n > 0 then 1 + n else 0
      else 0
    case TrailingSeparators =>
      var n := Separators.Run(text, i);
      if i + n == |text| || Delimits(text[i + n]) then n else 0
  }

  predicate MixesCharacterClasses(s: string) {
    && (exists i | 0 <= i < |s| :: IsLower(s[i]))
    && (exists i | 0 <= i < |s| :: IsUpper(s[i]))
    && (exists i | 0 <= i < |s| :: IsDigit(s[i]))
  }

  method MixesClasses(candidate: string) returns (mixes: bool)
    ensures mixes <==> MixesCharacterClasses(candidate)
  {
    var hasLower, hasUpper, hasDigit := false, false, false;
    for k := 0 to |candidate|
      invariant hasLower <==> exists i | 0 <= i < k :: IsLower(candidate[i])
      invariant hasUpper <==> exists i | 0 <= i < k :: IsUpper(candidate[i])
      invariant hasDigit <==> exists i | 0 <= i < k :: IsDigit(candidate[i])
      invariant !(hasLower && hasUpper && hasDigit)
    {
      var c := candidate[k];
      if IsLower(c) {
        hasLower := true;
      } else if IsUpper(c) {
        hasUpper := true;
      } else if IsDigit(c) {
        hasDigit := true;
      }
      if hasLower && hasUpper && hasDigit {
        return true;
      }
    }
    return false;
  }

  /** The filter applied to a match; only the two long-run shapes have one. */
  predicate Accepts(p: Shape, found: string) {
    (p.SessionToken? || p.SecretKey?) ==> MixesCharacterClasses(found)
  }

  function Replacement(p: Shape): string {
    if p.CollapseSeparators? then "?" else ""
  }

  /** One step of the substitution at `i`: what it emits, where it goes on, and whether it counted. */
  datatype Step = Step(kept: string, next: nat, removed: nat)

  function StepAt(p: Shape, text: string, i: nat): (s: Step)
    requires i < |text|
    ensures i < s.next <= |text| && s.removed <= 1
    ensures s.removed == 0 ==> s.kept == text[i..s.next]
    ensures s.removed == 1 ==> |s.kept| < s.next - i
  {
    var n := MatchLength(p, text, i);
    if n == 0 then Step([text[i]], i + 1, 0)
    else if Accepts(p, text[i..i + n]) then Step(Replacement(p), i + n, 1)
    else Step(text[i..i + n], i + n, 0)
  }

  /** `pattern.sub` from position `i` on: leftmost matches, not overlapping. The second component
      counts the accepted matches. */
  function SubFrom(p: Shape, text: string, i: nat): (r: (string, nat))
    requires i <= |text|
    ensures |r.0| + r.1 <= |text| - i
    ensures r.1 == 0 ==> r.0 == text[i..]
    decreases |text| - i
  {
    hide StepAt;
    if i == |text| then ("", 0)
    else
      var s := StepAt(p, text, i);
      var r := SubFrom(p, text, s.next);
      assert text[i..] == text[i..s.next] + text[s.next..];
      (s.kept + r.0, s.removed + r.1)
  }

  function Excised(p: Shape, text: string): (string, nat) {
    SubFrom(p, text, 0)
  }

  method AcceptMatch(p: Shape, found: string) returns (accepted: bool)
    ensures accepted <==> Accepts(p, found)
  {
    if p.SessionToken? || p.SecretKey? {
      accepted := MixesClasses(found);
    } else {
      accepted := true;
    }
  }

  method TakeStep(p: Shape, text: string, i: nat) returns (s: Step)
    requires i < |text|
    ensures s == StepAt(p, text, i)
  {
    hide MatchLength, Accepts;
    var n := MatchLength(p, text, i);
    if n == 0 {
      return Step([text[i]], i + 1, 0);
    }
    var accepted := AcceptMatch(p, text[i..i + n]);
    s := if accepted then Step(Replacement(p), i + n, 1) else Step(text[i..i + n], i + n, 0);
  }

  lemma OneStep(p: Shape, text: string, i: nat)
    requires i < |text|
    ensures SubFrom(p, text, i).0 == StepAt(p, text, i).kept + SubFrom(p, text, StepAt(p, text, i).next).0
    ensures SubFrom(p, text, i).1 == StepAt(p, text, i).removed + SubFrom(p, text, StepAt(p, text, i).next).1
  {
    hide StepAt;
  }

  lemma EmptyRest(p: Shape, text: string)
    ensures SubFrom(p, text, |text|) == ("", 0)
  {
  }

  method Excise(p: Shape, text: string) returns (out: string, removed: nat)
    ensures (out, removed) == Excised(p, text)
  {
    hide StepAt, SubFrom, MatchLength, Accepts;
    out, removed := "", 0;
    var i := 0;
    while i < |text|
      invariant i <= |text|
      invariant Excised(p, text).0 == out + SubFrom(p, text, i).0
      invariant Excised(p, text).1 == removed + SubFrom(p, text, i).1
    {
      var s := TakeStep(p, text, i);
      OneStep(p, text, i);
      assert out + (s.kept + SubFrom(p, text, s.next).0) == (out + s.kept) + SubFrom(p, text, s.next).0;
      out, removed, i := out + s.kept, removed + s.removed, s.next;
    }
    EmptyRest(p, text);
    assert out + "" == out;
  }

  /** What the four passes leave and how many matches they removed, before any tidying. */
  function FourPasses(text: string): (string, nat) {
    var a := Excised(SigV4Param, text);
    var b := Excised(SessionToken, a.0);
    var c := Excised(SecretKey, b.0);
    var d := Excised(AccessKeyId, c.0);
    (d.0, a.1 + b.1 + c.1 + d.1)
  }

  function Tidied(text: string): string {
    Excised(TrailingSeparators, Excised(CollapseSeparators, text).0).0
  }

  function ScrubbedText(text: string): (string, nat) {
    var r := FourPasses(text);
    (if r.1 > 0 then Tidied(r.0) else r.0, r.1)
  }

  method ScrubText(original: string) returns (text: string, removed: nat)
    ensures (text, removed) == ScrubbedText(original)
  {
    hide Excised;
    var count: nat;
    text, count := Excise(SigV4Param, original);
    removed := count;
    text, count := Excise(SessionToken, text);
    removed := removed + count;
    text, count := Excise(SecretKey, text);
    removed := removed + count;
    text, count := Excise(AccessKeyId, text);
    removed := removed + count;
    if removed > 0 {
      text, count := Excise(CollapseSeparators, text);
      text, count := Excise(TrailingSeparators, text);
    }
  }

  predicate HasCredentialShape(text: string) {
    ScrubbedText(text).1 > 0
  }

  // ----- counting: a removal is exactly a change ------------------------------------------

  /** No match of `p` that its filter accepts starts anywhere in `text`. */
  ghost predicate Free(p: Shape, text: string) {
    FreeFrom(p, text, 0)
  }

  ghost predicate FreeFrom(p: Shape, text: string, i: nat) {
    forall k | i <= k < |text| :: MatchLength(p, text, k) > 0 ==>
        Accepts(p, text[k..k + MatchLength(p, text, k)]) == false
  }

  /** Inside a run that begins at `i` neither long-run pattern can match again. */
  lemma NoMatchInsideRun(p: Shape, text: string, i: nat, k: nat)
    requires p.SessionToken? || p.SecretKey?
    requires i <= |text| && i < k < i + MatchLength(p, text, i)
    ensures MatchLength(p, text, k) == 0
  {
    var n := MatchLength(p, text, i);
    assert text[i..i + n][k - 1 - i] == text[k - 1];
  }

  lemma {:induction false} CountIsZeroIffFree(p: Shape, text: string, i: nat)
    requires i <= |text|
    ensures SubFrom(p, text, i).1 == 0 <==> FreeFrom(p, text, i)
    decreases |text| - i
  {
    hide MatchLength, Accepts, StepAt, SubFrom, FreeFrom;
    if i < |text| {
      OneStep(p, text, i);
      if StepAt(p, text, i).removed == 0 {
        CountIsZeroIffFree(p, text, StepAt(p, text, i).next);
        RejectedStepHidesNothing(p, text, i);
      } else {
        AcceptedIsNotFree(p, text, i);
      }
    } else {
      EmptyRest(p, text);
      EmptyIsFree(p, text);
    }
  }

  lemma EmptyIsFree(p: Shape, text: string)
    ensures FreeFrom(p, text, |text|)
  {
  }

  lemma AcceptedIsNotFree(p: Shape, text: string, i: nat)
    requires i < |text| && StepAt(p, text, i).removed == 1
    ensures !FreeFrom(p, text, i)
  {
    hide MatchLength, Accepts;
  }

  lemma RejectedStepHidesNothing(p: Shape, text: string, i: nat)
    requires i < |text| && StepAt(p, text, i).removed == 0
    ensures FreeFrom(p, text, i) <==> FreeFrom(p, text, StepAt(p, text, i).next)
  {
    hide MatchLength, Accepts;
    var n := MatchLength(p, text, i);
    if n > 0 {
      forall k | i < k < i + n ensures MatchLength(p, text, k) == 0 {
        FilteredShapesAreRuns(p, text[i..i + n]);
        NoMatchInsideRun(p, text, i, k);
      }
    }
  }

  lemma FilteredShapesAreRuns(p: Shape, found: string)
    requires !Accepts(p, found)
    ensures p.SessionToken? || p.SecretKey?
  {
  }

  /** A text is reported credential-shaped exactly when one of the four shapes occurs in the text
      as it was given, whatever the order of the passes. */
  lemma ShapeReportedIffPresent(text: string)
    ensures HasCredentialShape(text) <==>
            !(Free(SigV4Param, text) && Free(SessionToken, text) && Free(SecretKey, text) && Free(AccessKeyId, text))
  {
    hide SubFrom, FreeFrom;
    CountIsZeroIffFree(SigV4Param, text, 0);
    var a := Excised(SigV4Param, text).0;
    CountIsZeroIffFree(SessionToken, a, 0);
    var b := Excised(SessionToken, a).0;
    CountIsZeroIffFree(SecretKey, b, 0);
    CountIsZeroIffFree(AccessKeyId, Excised(SecretKey, b).0, 0);
  }

  /** Every removal costs the text at least one character, and without removals the text comes
      back as it was: the count is 0 exactly when nothing changed. */
  lemma TextShrinksByItsRemovals(text: string)
    ensures |ScrubbedText(text).0| + ScrubbedText(text).1 <= |text|
    ensures ScrubbedText(text).1 == 0 <==> ScrubbedText(text).0 == text
  {
    hide SubFrom;
    var a := Excised(SigV4Param, text);
    var b := Excised(SessionToken, a.0);
    var c := Excised(SecretKey, b.0);
    var d := Excised(AccessKeyId, c.0);
    var e := Excised(CollapseSeparators, d.0);
    assert |Excised(TrailingSeparators, e.0).0| <= |e.0| <= |d.0|;
  }
}
