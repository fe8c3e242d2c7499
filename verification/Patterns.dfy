/** The four credential patterns as they read, without the scanners that find them. */
module Patterns {
  import opened Text
  import opened CredentialShapes

  /** What the patterns repeat: base64 with and without padding, and the value of a parameter. */
  datatype Kind = Padded | Base64 | Value
  {
    predicate Has(c: char) {
      match this
      case Padded => 'a' <= c <= 'z' || 'A' <= c <= 'Z' || '0' <= c <= '9' || c in "+/="
      case Base64 => 'a' <= c <= 'z' || 'A' <= c <= 'Z' || '0' <= c <= '9' || c in "+/"
      case Value => !IsSpace(c) && c !in "&\"'<>"
    }

    function Class(): CharClass {
      match this
      case Padded => TokenChars
      case Base64 => SecretChars
      case Value => ParamValueChars
    }
  }

  /** The characters from `i` on that are of the kind, and no fewer. */
  predicate IsWholeRun(kind: Kind, text: string, i: nat, n: nat) {
    && i + n <= |text|
    && (forall k | i <= k < i + n :: kind.Has(text[k]))
    && (i + n == |text| || !kind.Has(text[i + n]))
  }

  /** A whole run with nothing of its kind before it. */
  predicate IsBoundedRun(kind: Kind, text: string, i: nat, n: nat)
    requires i <= |text|
  {
    (i == 0 || !kind.Has(text[i - 1])) && IsWholeRun(kind, text, i, n)
  }

  /** The name, up to the case folding of the pattern, its `=`, a value and the `&` behind it. */
  predicate IsParam(text: string, i: nat, n: nat, name: string)
    requires i <= |text|
  {
    && HasFolded(text, i, name + "=")
    && (var from, length := i + |name| + 1, n - |name| - 1;
        exists v: nat | v <= n :: IsValue(text, from, v, length))
  }

  predicate IsValue(text: string, from: nat, v: nat, n: int) {
    && IsWholeRun(Value, text, from, v)
    && n == if from + v < |text| && text[from + v] == '&' then v + 1 else v
  }

  /** The pattern matches the `n` characters at `i`. */
  predicate IsMatch(p: Shape, text: string, i: nat, n: nat)
    requires i <= |text|
  {
    match p
    case SigV4Param =>
      && i > 0 && (text[i - 1] == '?' || text[i - 1] == '&')
      && (|| IsParam(text, i, n, "x-amz-credential")
          || IsParam(text, i, n, "x-amz-signature")
          || IsParam(text, i, n, "x-amz-security-token"))
    case SessionToken => n >= 300 && IsBoundedRun(Padded, text, i, n)
    case SecretKey => n == 40 && IsBoundedRun(Base64, text, i, n)
    case AccessKeyId =>
      && n == 20 && i + 20 <= |text|
      && (text[i..i + 4] == "ASIA" || text[i..i + 4] == "AKIA")
      && forall k | i + 4 <= k < i + 20 :: IsUpper(text[k]) || IsDigit(text[k])
    case _ => false
  }

  lemma KindIsClass(kind: Kind, c: char)
    ensures kind.Has(c) <==> kind.Class().Has(c)
  {
  }

  lemma RunIsWhole(kind: Kind, text: string, i: nat, n: nat)
    requires i <= |text|
    ensures IsWholeRun(kind, text, i, n) <==> n == kind.Class().Run(text, i)
  {
    hide Kind.Has, CharClass.Has, Kind.Class, CharClass.Run;
    forall c ensures kind.Has(c) <==> kind.Class().Has(c) {
      KindIsClass(kind, c);
    }
    var m := kind.Class().Run(text, i);
    assert forall k | i <= k < i + m :: text[k] == text[i..i + m][k - i];
  }

  lemma NamesExclude(text: string, i: nat)
    ensures HasFolded(text, i, "x-amz-credential=") ==>
      !HasFolded(text, i, "x-amz-signature=") && !HasFolded(text, i, "x-amz-security-token=")
    ensures HasFolded(text, i, "x-amz-signature=") ==> !HasFolded(text, i, "x-amz-security-token=")
  {
    hide FoldChar;
    assert "x-amz-credential="[6] == 'c' && "x-amz-signature="[6] == 's' && "x-amz-security-token="[6] == 's';
    assert "x-amz-signature="[8] == 'g' && "x-amz-security-token="[8] == 'c';
  }

  lemma NameLength(text: string, i: nat)
    requires i <= |text|
    ensures SigV4NameLength(text, i) ==
      if HasFolded(text, i, "x-amz-credential=") then 17
      else if HasFolded(text, i, "x-amz-signature=") then 16
      else if HasFolded(text, i, "x-amz-security-token=") then 21 else 0
  {
    hide HasFolded;
    assert SIGV4_NAMES[0] + "=" == "x-amz-credential=" && SIGV4_NAMES[1] + "=" == "x-amz-signature="
        && SIGV4_NAMES[2] + "=" == "x-amz-security-token=";
    assert HasFolded(text, i, "x-amz-credential=") ==> HasFolded(text, i, SIGV4_NAMES[0] + "=");
    assert HasFolded(text, i, "x-amz-signature=") ==> HasFolded(text, i, SIGV4_NAMES[1] + "=");
    assert HasFolded(text, i, "x-amz-security-token=") ==> HasFolded(text, i, SIGV4_NAMES[2] + "=");
  }

  lemma ValueIff(text: string, from: nat, v: nat, n: int)
    requires from <= |text|
    ensures var end := from + ParamValueChars.Run(text, from);
      IsValue(text, from, v, n) <==>
        && from + v == end
        && n == if end < |text| && text[end] == '&' then end + 1 - from else end - from
  {
    hide CharClass.Run, IsWholeRun;
    RunIsWhole(Value, text, from, v);
    assert Value.Class() == ParamValueChars;
  }

  lemma ParamIff(text: string, i: nat, n: nat, name: string)
    requires HasFolded(text, i, name + "=") && i + |name| + 1 <= |text|
    ensures var from := i + |name| + 1;
      var end := from + ParamValueChars.Run(text, from);
      IsParam(text, i, n, name) <==> n == if end < |text| && text[end] == '&' then end + 1 - i else end - i
  {
    hide CharClass.Run, IsValue, HasFolded;
    var from, length := i + |name| + 1, n - |name| - 1;
    var run := ParamValueChars.Run(text, from);
    ValueIff(text, from, run, length);
    if IsParam(text, i, n, name) {
      var v: nat :| v <= n && IsValue(text, from, v, length);
      ValueIff(text, from, v, length);
    }
    if IsValue(text, from, run, length) {
      assert IsParam(text, i, n, name);
    }
  }

  lemma ParamMatch(text: string, i: nat, n: nat)
    requires i <= |text| && n > 0
    ensures MatchLength(SigV4Param, text, i) == n <==> IsMatch(SigV4Param, text, i, n)
  {
    hide CharClass.Run, IsParam, SigV4NameLength, HasFolded;
    NameLength(text, i);
    NamesExclude(text, i);
    ParamNeedsItsName(text, i, n);
    assert "x-amz-credential" + "=" == "x-amz-credential=" && "x-amz-signature" + "=" == "x-amz-signature="
        && "x-amz-security-token" + "=" == "x-amz-security-token=";
    if HasFolded(text, i, "x-amz-credential=") {
      ParamIff(text, i, n, "x-amz-credential");
    } else if HasFolded(text, i, "x-amz-signature=") {
      ParamIff(text, i, n, "x-amz-signature");
    } else if HasFolded(text, i, "x-amz-security-token=") {
      ParamIff(text, i, n, "x-amz-security-token");
    }
  }

  lemma ParamNeedsItsName(text: string, i: nat, n: nat)
    requires i <= |text|
    ensures IsParam(text, i, n, "x-amz-credential") ==> HasFolded(text, i, "x-amz-credential=")
    ensures IsParam(text, i, n, "x-amz-signature") ==> HasFolded(text, i, "x-amz-signature=")
    ensures IsParam(text, i, n, "x-amz-security-token") ==> HasFolded(text, i, "x-amz-security-token=")
  {
    hide HasFolded, IsValue;
    assert "x-amz-credential" + "=" == "x-amz-credential=" && "x-amz-signature" + "=" == "x-amz-signature="
        && "x-amz-security-token" + "=" == "x-amz-security-token=";
  }

  lemma RunMatch(p: Shape, text: string, i: nat, n: nat)
    requires i <= |text| && n > 0 && (p.SessionToken? || p.SecretKey?)
    ensures MatchLength(p, text, i) == n <==> IsMatch(p, text, i, n)
  {
    hide IsWholeRun, CharClass.Run, Kind.Has, CharClass.Has;
    if i > 0 {
      KindIsClass(Padded, text[i - 1]);
      KindIsClass(Base64, text[i - 1]);
    }
    RunIsWhole(Padded, text, i, n);
    RunIsWhole(Base64, text, i, n);
  }

  lemma KeyIdMatch(text: string, i: nat, n: nat)
    requires i <= |text| && n > 0
    ensures MatchLength(AccessKeyId, text, i) == n <==> IsMatch(AccessKeyId, text, i, n)
  {
    if i + 20 <= |text| {
      var rest := text[i + 4..i + 20];
      assert forall k | i + 4 <= k < i + 20 :: text[k] == rest[k - i - 4];
      if IsMatch(AccessKeyId, text, i, 20) {
        forall k | 0 <= k < |rest| ensures KeyIdChars.Has(rest[k]) {
          assert rest[k] == text[i + 4 + k];
        }
      }
    }
  }

  /** The scanners find exactly what the patterns match. */
  lemma ScannersMatchThePatterns(p: Shape, text: string, i: nat, n: nat)
    requires i <= |text| && n > 0
    requires p.SigV4Param? || p.SessionToken? || p.SecretKey? || p.AccessKeyId?
    ensures MatchLength(p, text, i) == n <==> IsMatch(p, text, i, n)
  {
    hide *;
    match p
    case SigV4Param => ParamMatch(text, i, n);
    case SessionToken => RunMatch(p, text, i, n);
    case SecretKey => RunMatch(p, text, i, n);
    case AccessKeyId => KeyIdMatch(text, i, n);
  }

  /** Somewhere in the text the pattern matches, and a long run has both cases and a digit in it. */
  ghost predicate Occurs(p: Shape, text: string) {
    exists i: nat, n: nat | i + n <= |text| && n > 0 :: IsMatch(p, text, i, n) && IsCredentialLike(p, text[i..i + n])
  }

  predicate IsCredentialLike(p: Shape, found: string) {
    p.SessionToken? || p.SecretKey? ==>
      && (exists i | 0 <= i < |found| :: 'a' <= found[i] <= 'z')
      && (exists i | 0 <= i < |found| :: 'A' <= found[i] <= 'Z')
      && (exists i | 0 <= i < |found| :: '0' <= found[i] <= '9')
  }

  lemma LikeIsAccepted(p: Shape, found: string)
    ensures IsCredentialLike(p, found) <==> Accepts(p, found)
  {
  }

  lemma OccursUnlessFree(p: Shape, text: string)
    requires p.SigV4Param? || p.SessionToken? || p.SecretKey? || p.AccessKeyId?
    ensures Occurs(p, text) <==> !Free(p, text)
  {
    hide MatchLength, IsMatch, Accepts, IsCredentialLike;
    if Occurs(p, text) {
      var i: nat, n: nat :| i + n <= |text| && n > 0 && IsMatch(p, text, i, n) && IsCredentialLike(p, text[i..i + n]);
      ScannersMatchThePatterns(p, text, i, n);
      LikeIsAccepted(p, text[i..i + n]);
    }
    if !Free(p, text) {
      var k: nat :| k < |text| && MatchLength(p, text, k) > 0 && Accepts(p, text[k..k + MatchLength(p, text, k)]);
      var n := MatchLength(p, text, k);
      ScannersMatchThePatterns(p, text, k, n);
      LikeIsAccepted(p, text[k..k + n]);
    }
  }

  /** A text is reported credential-shaped exactly when one of the four patterns occurs in it as it
      was given, whatever the order of the passes. */
  lemma ReportedIffOneOccurs(text: string)
    ensures HasCredentialShape(text) <==>
      Occurs(SigV4Param, text) || Occurs(SessionToken, text) || Occurs(SecretKey, text) || Occurs(AccessKeyId, text)
  {
    hide HasCredentialShape, Occurs, Free;
    ShapeReportedIffPresent(text);
    OccursUnlessFree(SigV4Param, text);
    OccursUnlessFree(SessionToken, text);
    OccursUnlessFree(SecretKey, text);
    OccursUnlessFree(AccessKeyId, text);
  }
}
