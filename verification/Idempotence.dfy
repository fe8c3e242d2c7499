/** When scrubbing a text again finds nothing more. */
module Idempotence {
  import opened Text
  import opened CredentialShapes
  import opened SurvivingRuns

  // ----- SigV4 parameters -----------------------------------------------------------------

  predicate NameAt(s: string, i: nat) {
    i <= |s| && SigV4NameLength(s, i) > 0
  }

  predicate ParamAt(s: string, i: nat) {
    0 < i <= |s| && Separators.Has(s[i - 1]) && NameAt(s, i)
  }

  ghost predicate NoParam(s: string) {
    forall i: nat :: !ParamAt(s, i)
  }

  lemma ParamsAreFilterless(s: string)
    ensures Free(SigV4Param, s) <==> NoParam(s)
  {
    hide SigV4NameLength;
    forall i: nat | i <= |s| ensures MatchLength(SigV4Param, s, i) > 0 <==> ParamAt(s, i) {
    }
    if NoParam(s) {
      forall k | 0 <= k < |s| ensures MatchLength(SigV4Param, s, k) == 0 {
        assert !ParamAt(s, k);
      }
    } else {
      var i: nat :| ParamAt(s, i);
      NameShape(s, i);
      assert MatchLength(SigV4Param, s, i) > 0;
    }
  }

  /** A code point outside ASCII that the engine folds onto a letter of the names. */
  predicate FoldsIn(c: char) {
    c == '\U{130}' || c == '\U{131}' || c == '\U{17F}' || c == '\U{212A}'
  }

  predicate Plain(s: string) {
    forall i | 0 <= i < |s| :: !FoldsIn(s[i])
  }

  predicate IsNameChar(c: char) {
    IsLower(FoldChar(c)) || c == '-' || c == '='
  }

  /** Word `k` with its `=`. */
  function Word(k: nat): string
    requires k < 3
  {
    SIGV4_NAMES[k] + "="
  }

  lemma WordShape(k: nat)
    requires k < 3
    ensures var w := Word(k);
      && |w| > 2 && w[0] == 'x'
      && (forall j | 0 <= j < |w| :: IsLower(w[j]) || w[j] == '-' || w[j] == '=')
      && (forall j | 0 <= j < |w| - 1 :: IsLower(w[j]) || IsLower(w[j + 1]))
  {
    assert Word(0) == "x-amz-credential=" && Word(1) == "x-amz-signature=" && Word(2) == "x-amz-security-token=";
  }

  lemma WordOf(s: string, i: nat) returns (k: nat)
    requires NameAt(s, i)
    ensures k < 3 && HasFolded(s, i, Word(k)) && SigV4NameLength(s, i) == |Word(k)|
  {
    hide HasFolded;
    k := if HasFolded(s, i, Word(0)) then 0 else if HasFolded(s, i, Word(1)) then 1 else 2;
  }

  /** A name is made of name characters, begins with an `x`, and has no two neighbours that are both
      no letters. */
  lemma NameShape(s: string, i: nat)
    requires NameAt(s, i)
    ensures var n := SigV4NameLength(s, i);
      && n > 2 && i + n <= |s| && FoldChar(s[i]) == 'x'
      && (forall j | i <= j < i + n :: IsNameChar(s[j]))
      && (forall j | i <= j < i + n - 1 :: IsLower(FoldChar(s[j])) || IsLower(FoldChar(s[j + 1])))
  {
    hide SigV4NameLength, NameAt;
    var k := WordOf(s, i);
    WordShape(k);
    var w := Word(k);
    assert forall j | 0 <= j < |w| :: FoldChar(s[i + j]) == w[j];
    forall j | i <= j < i + |w| ensures FoldChar(s[j]) == w[j - i] {
      assert FoldChar(s[i + (j - i)]) == w[j - i];
    }
  }

  lemma NameIsLocal(s: string, i: nat, t: string, k: nat)
    requires NameAt(s, i) && i + SigV4NameLength(s, i) <= |s| && k + SigV4NameLength(s, i) <= |t|
    requires t[k..k + SigV4NameLength(s, i)] == s[i..i + SigV4NameLength(s, i)]
    ensures NameAt(t, k)
  {
    var word := WordOf(s, i);
    var n := |Word(word)|;
    forall j | 0 <= j < n ensures FoldChar(t[k + j]) == Word(word)[j] {
      assert t[k..k + n][j] == s[i..i + n][j] && FoldChar(s[i + j]) == Word(word)[j];
    }
    assert HasFolded(t, k, Word(word));
  }

  // ----- cuts that complete no parameter --------------------------------------------------

  /** The two ends a cut brings together cannot lie next to each other within a parameter. */
  predicate Unjoinable(a: string, b: string) {
    || a == "" || b == ""
    || (!SecretChars.Has(a[|a| - 1]) && !SecretChars.Has(b[0]) && !FoldsIn(a[|a| - 1]) && !FoldsIn(b[0]))
    || Delimits(b[0])
  }

  lemma LettersAcross(a: string, b: string, i: nat)
    requires ParamAt(a + b, i) && a != "" && b != "" && i <= |a| < i + SigV4NameLength(a + b, i)
    ensures IsNameChar(b[0])
    ensures IsLower(FoldChar(a[|a| - 1])) || IsLower(FoldChar(b[0]))
  {
    hide SigV4NameLength, NameAt;
    var s := a + b;
    NameShape(s, i);
    assert s[|a| - 1] == a[|a| - 1] && s[|a| - 1 + 1] == b[0];
  }

  lemma NoParamAcross(a: string, b: string, i: nat)
    requires ParamAt(a + b, i) && Unjoinable(a, b)
    ensures i + SigV4NameLength(a + b, i) <= |a| || i > |a|
  {
    hide SigV4NameLength, NameAt;
    NameShape(a + b, i);
    if a != "" && b != "" && i <= |a| < i + SigV4NameLength(a + b, i) {
      LettersAcross(a, b, i);
    }
  }

  lemma ParamMoves(a: string, m: string, b: string, i: nat)
    requires ParamAt(a + b, i) && Unjoinable(a, b)
    ensures ParamAt(a + m + b, if i > |a| then i + |m| else i)
  {
    hide NameAt, SigV4NameLength, Unjoinable;
    NoParamAcross(a, b, i);
    NameShape(a + b, i);
    BesideCut(a, m, b, if i > |a| then i + |m| else i, SigV4NameLength(a + b, i));
    NameIsLocal(a + b, i, a + m + b, if i > |a| then i + |m| else i);
  }

  lemma CutCompletesNoParam(a: string, m: string, b: string)
    requires NoParam(a + m + b) && Unjoinable(a, b)
    ensures NoParam(a + b)
  {
    hide ParamAt, Unjoinable;
    forall i: nat ensures !ParamAt(a + b, i) {
      if ParamAt(a + b, i) {
        ParamMoves(a, m, b, i);
      }
    }
  }

  lemma ParamAfterSeparator(a: string, m: string, b: string, i: nat)
    requires ParamAt(a + b, i) && a != "" && Separators.Has(a[|a| - 1])
    requires m != "" && Separators.Has(m[|m| - 1])
    ensures ParamAt(a + m + b, if i >= |a| then i + |m| else i)
  {
    hide NameAt, SigV4NameLength;
    var s, t := a + b, a + m + b;
    NameShape(s, i);
    assert s[|a| - 1] == a[|a| - 1];
    var i' := if i >= |a| then i + |m| else i;
    assert t[i' - 1] == if i == |a| then m[|m| - 1] else s[i - 1];
    BesideCut(a, m, b, i', SigV4NameLength(s, i));
    NameIsLocal(s, i, t, i');
  }

  /** Collapsing: separators after a separator. */
  lemma CollapseCompletesNoParam(a: string, m: string, b: string)
    requires NoParam(a + m + b) && a != "" && Separators.Has(a[|a| - 1])
    requires m != "" && Separators.Has(m[|m| - 1])
    ensures NoParam(a + b)
  {
    hide ParamAt;
    forall i: nat ensures !ParamAt(a + b, i) {
      if ParamAt(a + b, i) {
        ParamAfterSeparator(a, m, b, i);
      }
    }
  }

  // ----- the first pass leaves no parameter -----------------------------------------------

  /** Without a match at `i`, the pass leaves everything up to the next separator as it stands. */
  lemma CopyToSeparator(text: string, i: nat) returns (j: nat)
    requires i < |text| && MatchLength(SigV4Param, text, i) == 0
    ensures i < j <= |text| && (forall k | i <= k < j - 1 :: !Separators.Has(text[k]))
    ensures j == |text| || Separators.Has(text[j - 1])
    ensures SubFrom(SigV4Param, text, i).0 == text[i..j] + SubFrom(SigV4Param, text, j).0
  {
    hide SigV4NameLength, SubFrom;
    j := i + 1;
    while j < |text| && !Separators.Has(text[j - 1])
      invariant i < j <= |text|
      invariant forall k | i <= k < j - 1 :: !Separators.Has(text[k])
      invariant forall k | i <= k < j :: MatchLength(SigV4Param, text, k) == 0
    {
      j := j + 1;
    }
    CopyWithoutMatches(SigV4Param, text, i, j);
  }

  lemma NameWasThere(text: string, i: nat)
    requires i < |text| && MatchLength(SigV4Param, text, i) == 0 && NameAt(SubFrom(SigV4Param, text, i).0, 0)
    ensures NameAt(text, i)
  {
    hide SubFrom;
    var j := CopyToSeparator(text, i);
    hide SigV4NameLength, NameAt, MatchLength;
    var out := SubFrom(SigV4Param, text, i).0;
    NameShape(out, 0);
    EmptyRest(SigV4Param, text);
    assert forall k | 0 <= k < j - i :: out[k] == text[i + k];
    assert out[j - 1 - i] == text[j - 1];
    NameIsLocal(out, 0, text, i);
  }

  lemma NothingBeforeAName(text: string, i: nat)
    requires i < |text| && i > 0 && Separators.Has(text[i - 1]) && MatchLength(SigV4Param, text, i) == 0
    ensures !NameAt(SubFrom(SigV4Param, text, i).0, 0)
  {
    hide SubFrom, MatchLength, NameAt, SigV4NameLength;
    if NameAt(SubFrom(SigV4Param, text, i).0, 0) {
      NameWasThere(text, i);
      MatchesNames(text, i);
    }
  }

  lemma MatchesNames(text: string, i: nat)
    requires ParamAt(text, i)
    ensures MatchLength(SigV4Param, text, i) > 0
  {
    hide SigV4NameLength;
  }

  /** Behind a match stands a separator, or a delimiter, or nothing. */
  lemma BehindAParam(text: string, i: nat)
    requires i < |text| && MatchLength(SigV4Param, text, i) > 0
    ensures var end := i + MatchLength(SigV4Param, text, i);
      end == |text| || Separators.Has(text[end - 1]) || Delimits(text[end])
  {
    hide SigV4NameLength;
  }

  lemma {:induction false} FirstPassLeavesNoParam(text: string, i: nat)
    requires i <= |text|
    ensures var out := SubFrom(SigV4Param, text, i).0;
      NoParam(out) && (i > 0 && Separators.Has(text[i - 1]) ==> !NameAt(out, 0))
    decreases |text| - i
  {
    hide *;
    if i == |text| {
      EmptyRest(SigV4Param, text);
      NoParamInNothing();
    } else {
      var n := MatchLength(SigV4Param, text, i);
      OneStep(SigV4Param, text, i);
      if n == 0 {
        StepWithoutMatch(SigV4Param, text, i);
        FirstPassLeavesNoParam(text, i + 1);
        OneMoreCharacter(text[i], SubFrom(SigV4Param, text, i + 1).0);
        if i > 0 && Separators.Has(text[i - 1]) {
          NothingBeforeAName(text, i);
        }
      } else {
        StepOverParam(text, i);
        FirstPassLeavesNoParam(text, i + n);
        BehindAParam(text, i);
        if i + n == |text| || !Separators.Has(text[i + n - 1]) {
          DelimiterIsNoName(text, i + n);
        }
      }
    }
  }

  lemma StepOverParam(text: string, i: nat)
    requires i < |text| && MatchLength(SigV4Param, text, i) > 0
    ensures SubFrom(SigV4Param, text, i).0 == SubFrom(SigV4Param, text, i + MatchLength(SigV4Param, text, i)).0
  {
    hide MatchLength;
    var rest := SubFrom(SigV4Param, text, i + MatchLength(SigV4Param, text, i)).0;
    assert "" + rest == rest;
  }

  lemma NoParamInNothing()
    ensures NoParam("") && !NameAt("", 0)
  {
  }

  lemma ParamOfTheRest(c: char, rest: string, i: nat)
    requires ParamAt([c] + rest, i)
    ensures if i == 1 then Separators.Has(c) && NameAt(rest, 0) else i > 1 && ParamAt(rest, i - 1)
  {
    hide SigV4NameLength, NameAt;
    NameShape([c] + rest, i);
    NameIsLocal([c] + rest, i, rest, i - 1);
  }

  lemma OneMoreCharacter(c: char, rest: string)
    requires NoParam(rest) && (Separators.Has(c) ==> !NameAt(rest, 0))
    ensures NoParam([c] + rest)
  {
    hide NameAt, ParamAt;
    forall i: nat ensures !ParamAt([c] + rest, i) {
      if ParamAt([c] + rest, i) {
        ParamOfTheRest(c, rest, i);
      }
    }
  }

  /** What is left from a delimiter on does not begin with a name. */
  lemma DelimiterIsNoName(text: string, i: nat)
    requires i == |text| || (i < |text| && Delimits(text[i]))
    ensures !NameAt(SubFrom(SigV4Param, text, i).0, 0)
  {
    hide SigV4NameLength, NameAt;
    var out := SubFrom(SigV4Param, text, i).0;
    if i == |text| {
      EmptyRest(SigV4Param, text);
      NoParamInNothing();
    } else if NameAt(out, 0) {
      NameShape(out, 0);
      DelimiterIsCopied(text, i);
    }
  }

  lemma DelimiterIsCopied(text: string, i: nat)
    requires i < |text| && Delimits(text[i])
    ensures SubFrom(SigV4Param, text, i).0 != "" && SubFrom(SigV4Param, text, i).0[0] == text[i]
  {
    hide SigV4NameLength;
    if MatchLength(SigV4Param, text, i) > 0 {
      NameShape(text, i);
    }
  }

  // ----- the other passes and the tidying complete none -----------------------------------

  /** A run that is cut out is cut out whole. */
  lemma WholeRunIsCut(p: Shape, text: string, i: nat)
    requires IsLongRun(p) && i < |text| && StepAt(p, text, i).removed == 1
    ensures StepAt(p, text, i).kept == "" && RunClass(p).Has(text[i])
    ensures i == 0 || !RunClass(p).Has(text[i - 1])
    ensures var end := StepAt(p, text, i).next;
      end == |text| || !RunClass(p).Has(text[end])
  {
    hide Accepts;
    WindowCharacters(RunClass(p), text, i, i + RunClass(p).Run(text, i));
  }

  lemma RunClassHasSecretChars(p: Shape, c: char)
    requires IsLongRun(p) && !RunClass(p).Has(c)
    ensures !SecretChars.Has(c)
  {
  }

  lemma {:induction false} RunPassCompletesNoParam(p: Shape, text: string, i: nat, pre: string)
    requires IsLongRun(p) && i <= |text| && Plain(text) && NoParam(pre + text[i..])
    requires pre == "" || i == |text| || !RunClass(p).Has(text[i]) || (i > 0 && pre[|pre| - 1] == text[i - 1])
    ensures NoParam(pre + SubFrom(p, text, i).0)
    decreases |text| - i
  {
    hide StepAt, NoParam, RunClass, CharClass.Has, SubFrom;
    if i == |text| {
      EmptyRest(p, text);
      assert text[i..] == "";
    } else {
      OneStep(p, text, i);
      var s := StepAt(p, text, i);
      assert text[i..] == text[i..s.next] + text[s.next..];
      if s.removed == 1 {
        WholeRunIsCut(p, text, i);
        assert pre + text[i..] == pre + text[i..s.next] + text[s.next..];
        assert Unjoinable(pre, text[s.next..]) by {
          if i > 0 { RunClassHasSecretChars(p, text[i - 1]); }
          if s.next < |text| { RunClassHasSecretChars(p, text[s.next]); }
        }
        CutCompletesNoParam(pre, text[i..s.next], text[s.next..]);
        assert pre + "" == pre;
      } else {
        assert pre + text[i..] == (pre + s.kept) + text[s.next..];
        assert (pre + s.kept)[|pre + s.kept| - 1] == text[s.next - 1];
      }
      RunPassCompletesNoParam(p, text, s.next, pre + s.kept);
      assert (pre + s.kept) + SubFrom(p, text, s.next).0 == pre + SubFrom(p, text, i).0;
    }
  }

  lemma TidyingCut(p: Shape, text: string, i: nat) returns (cut: string)
    requires IsTidying(p) && i < |text| && StepAt(p, text, i).removed == 1
    ensures var s := StepAt(p, text, i);
      && text[i..s.next] == s.kept + cut && cut != "" && (forall k | 0 <= k < |cut| :: Separators.Has(cut[k]))
      && (if p == CollapseSeparators then s.kept == "?"
          else s.kept == "" && (s.next == |text| || Delimits(text[s.next])))
  {
    var s := StepAt(p, text, i);
    cut := text[i + |s.kept|..s.next];
    if p == CollapseSeparators {
      WindowCharacters(Ampersand, text, i + 1, s.next);
    } else {
      WindowCharacters(Separators, text, i, s.next);
    }
  }

  lemma {:induction false} TidyingCompletesNoParam(p: Shape, text: string, i: nat, pre: string)
    requires IsTidying(p) && i <= |text| && NoParam(pre + text[i..])
    ensures NoParam(pre + SubFrom(p, text, i).0)
    decreases |text| - i
  {
    hide StepAt, NoParam, CharClass.Has, SubFrom;
    if i == |text| {
      EmptyRest(p, text);
      assert text[i..] == "";
    } else {
      OneStep(p, text, i);
      var s := StepAt(p, text, i);
      if s.removed == 1 {
        var cut := TidyingCut(p, text, i);
        assert text[i..] == text[i..s.next] + text[s.next..];
        assert pre + text[i..] == (pre + s.kept) + cut + text[s.next..];
        if p == CollapseSeparators {
          QuestionMarkSeparates();
          CollapseCompletesNoParam(pre + s.kept, cut, text[s.next..]);
        } else {
          CutCompletesNoParam(pre + s.kept, cut, text[s.next..]);
        }
      } else {
        assert pre + text[i..] == (pre + s.kept) + text[s.next..];
      }
      TidyingCompletesNoParam(p, text, s.next, pre + s.kept);
      assert (pre + s.kept) + SubFrom(p, text, s.next).0 == pre + SubFrom(p, text, i).0;
    }
  }

  lemma QuestionMarkSeparates()
    ensures Separators.Has('?')
  {
  }

  lemma {:induction false} PassesStayPlain(p: Shape, text: string, i: nat)
    requires i <= |text| && Plain(text)
    ensures Plain(SubFrom(p, text, i).0)
    decreases |text| - i
  {
    hide StepAt, SubFrom;
    if i == |text| {
      EmptyRest(p, text);
    } else {
      OneStep(p, text, i);
      StepStaysPlain(p, text, i);
      PassesStayPlain(p, text, StepAt(p, text, i).next);
    }
  }

  lemma StepStaysPlain(p: Shape, text: string, i: nat)
    requires i < |text| && Plain(text)
    ensures Plain(StepAt(p, text, i).kept)
  {
    hide MatchLength, Accepts;
  }

  lemma OnePass(p: Shape, text: string)
    requires NoParam(text) && (IsTidying(p) || (IsLongRun(p) && Plain(text)))
    ensures NoParam(Excised(p, text).0)
    ensures Plain(text) ==> Plain(Excised(p, text).0)
  {
    hide NoParam, SubFrom, Plain;
    assert "" + text[0..] == text;
    assert "" + Excised(p, text).0 == Excised(p, text).0;
    if IsTidying(p) {
      TidyingCompletesNoParam(p, text, 0, "");
    } else {
      RunPassCompletesNoParam(p, text, 0, "");
    }
    if Plain(text) {
      PassesStayPlain(p, text, 0);
    }
  }

  /** No SigV4 parameter is left when the last pass cuts nothing. */
  lemma NoParamSurvives(text: string)
    requires Plain(text) && Free(AccessKeyId, BeforeLastPass(text))
    ensures Free(SigV4Param, ScrubbedText(text).0)
  {
    hide SubFrom, Free, NoParam, Plain;
    FirstPassLeavesNoParam(text, 0);
    PassesStayPlain(SigV4Param, text, 0);
    var a := Excised(SigV4Param, text).0;
    OnePass(SessionToken, a);
    OnePass(SecretKey, Excised(SessionToken, a).0);
    var c := BeforeLastPass(text);
    CountIsZeroIffFree(AccessKeyId, c, 0);
    NothingExcised(AccessKeyId, c);
    OnePass(CollapseSeparators, c);
    OnePass(TrailingSeparators, Excised(CollapseSeparators, c).0);
    ParamsAreFilterless(ScrubbedText(text).0);
  }

  lemma NothingExcised(p: Shape, text: string)
    requires Free(p, text)
    ensures Excised(p, text) == (text, 0)
  {
    hide SubFrom, FreeFrom;
    CountIsZeroIffFree(p, text, 0);
    assert text[0..] == text;
  }

  /** Scrubbing a scrubbed text changes nothing and reports nothing, provided the last pass cut
      nothing out the first time and no code point folds into ASCII. */
  lemma IdempotentWithoutAKeyIdCut(text: string)
    requires Plain(text) && Free(AccessKeyId, BeforeLastPass(text))
    ensures !HasCredentialShape(ScrubbedText(text).0)
    ensures ScrubbedText(ScrubbedText(text).0) == (ScrubbedText(text).0, 0)
  {
    hide SubFrom, Free;
    var out := ScrubbedText(text).0;
    NoParamSurvives(text);
    NoSessionTokenSurvives(text);
    KeysSurviveOnlyAKeyIdCut(text);
    ShapeReportedIffPresent(out);
    TextShrinksByItsRemovals(out);
  }

  // ----- conditions on the text as given --------------------------------------------------

  /** What is left of a cut of the first pass ends in the separator the parameter follows. */
  lemma ParamFollowsSeparator(text: string, i: nat)
    requires i < |text| && StepAt(SigV4Param, text, i).removed == 1
    ensures i > 0 && Separators.Has(text[i - 1]) && StepAt(SigV4Param, text, i).kept == ""
  {
    hide SigV4NameLength;
  }

  lemma SeparatorsKeepApart(a: string, b: string)
    requires a != "" && Separators.Has(a[|a| - 1])
    ensures Apart(SecretChars, a, b)
  {
  }

  lemma {:induction false} FirstPassJoinsNoKeyId(text: string, i: nat, pre: string)
    requires i <= |text| && NoKeyId(pre + text[i..])
    requires i > 0 && Separators.Has(text[i - 1]) ==> pre != "" && Separators.Has(pre[|pre| - 1])
    ensures NoKeyId(pre + SubFrom(SigV4Param, text, i).0)
    decreases |text| - i
  {
    hide StepAt, NoKeyId, SubFrom, CharClass.Has, Apart;
    if i == |text| {
      EmptyRest(SigV4Param, text);
      assert text[i..] == "";
    } else {
      OneStep(SigV4Param, text, i);
      var s := StepAt(SigV4Param, text, i);
      assert text[i..] == text[i..s.next] + text[s.next..];
      if s.removed == 1 {
        ParamFollowsSeparator(text, i);
        SeparatorsKeepApart(pre, text[s.next..]);
        assert pre + text[i..] == pre + text[i..s.next] + text[s.next..];
        CutKeepsNoKeyId(pre, text[i..s.next], text[s.next..]);
        assert pre + "" == pre;
      } else {
        assert pre + text[i..] == (pre + s.kept) + text[s.next..];
        assert (pre + s.kept)[|pre + s.kept| - 1] == text[s.next - 1];
      }
      FirstPassJoinsNoKeyId(text, s.next, pre + s.kept);
      assert (pre + s.kept) + SubFrom(SigV4Param, text, s.next).0 == pre + SubFrom(SigV4Param, text, i).0;
    }
  }

  lemma {:induction false} RunPassJoinsNoKeyId(p: Shape, text: string, i: nat, pre: string)
    requires IsLongRun(p) && i <= |text| && NoKeyId(pre + text[i..])
    requires pre == "" || i == |text| || !RunClass(p).Has(text[i]) || (i > 0 && pre[|pre| - 1] == text[i - 1])
    ensures NoKeyId(pre + SubFrom(p, text, i).0)
    decreases |text| - i
  {
    hide StepAt, NoKeyId, RunClass, CharClass.Has, SubFrom;
    if i == |text| {
      EmptyRest(p, text);
      assert text[i..] == "";
    } else {
      OneStep(p, text, i);
      var s := StepAt(p, text, i);
      assert text[i..] == text[i..s.next] + text[s.next..];
      if s.removed == 1 {
        WholeRunIsCut(p, text, i);
        assert pre + text[i..] == pre + text[i..s.next] + text[s.next..];
        assert Apart(SecretChars, pre, text[s.next..]) by {
          if i > 0 { RunClassHasSecretChars(p, text[i - 1]); }
        }
        CutKeepsNoKeyId(pre, text[i..s.next], text[s.next..]);
        assert pre + "" == pre;
      } else {
        assert pre + text[i..] == (pre + s.kept) + text[s.next..];
        assert (pre + s.kept)[|pre + s.kept| - 1] == text[s.next - 1];
      }
      RunPassJoinsNoKeyId(p, text, s.next, pre + s.kept);
      assert (pre + s.kept) + SubFrom(p, text, s.next).0 == pre + SubFrom(p, text, i).0;
    }
  }

  /** The first three passes never join an access key id: whatever id the last pass finds, the text
      came with one. */
  lemma OnlyGivenKeyIdsAreCut(text: string)
    requires Free(AccessKeyId, text)
    ensures Free(AccessKeyId, BeforeLastPass(text))
  {
    hide SubFrom, Free, NoKeyId;
    KeyIdsAreFilterless(text);
    assert "" + text[0..] == text;
    FirstPassJoinsNoKeyId(text, 0, "");
    var a := Excised(SigV4Param, text).0;
    assert "" + a == a && "" + a[0..] == a;
    RunPassJoinsNoKeyId(SessionToken, a, 0, "");
    var b := Excised(SessionToken, a).0;
    assert "" + b == b && "" + b[0..] == b;
    RunPassJoinsNoKeyId(SecretKey, b, 0, "");
    var c := BeforeLastPass(text);
    assert "" + c == c;
    KeyIdsAreFilterless(c);
  }

  /** A text that comes without an access key id leaves without a session token, a secret-key run and
      an access key id, and without a SigV4 parameter too when no code point folds into ASCII. */
  lemma NoShapeSurvives(text: string)
    requires Free(AccessKeyId, text)
    ensures var out := ScrubbedText(text).0;
      && Free(SessionToken, out) && Free(SecretKey, out) && Free(AccessKeyId, out)
      && (Plain(text) ==> Free(SigV4Param, out))
  {
    hide SubFrom, Free, Plain;
    OnlyGivenKeyIdsAreCut(text);
    NoSessionTokenSurvives(text);
    KeysSurviveOnlyAKeyIdCut(text);
    if Plain(text) {
      NoParamSurvives(text);
    }
  }

  /** For a text without an access key id, and without the four code points outside ASCII that case
      folding turns into letters of a parameter name, one scrub is enough: another changes nothing
      and reports nothing. */
  lemma TextScrubIsIdempotent(text: string)
    requires Plain(text) && Free(AccessKeyId, text)
    ensures !HasCredentialShape(ScrubbedText(text).0)
    ensures ScrubbedText(ScrubbedText(text).0) == (ScrubbedText(text).0, 0)
  {
    hide SubFrom, Free, Plain, HasCredentialShape;
    OnlyGivenKeyIdsAreCut(text);
    IdempotentWithoutAKeyIdCut(text);
  }

  // ----- the second condition matters -----------------------------------------------------

  const HEAD := "?x-amz-"
  const TAIL := "\U{17F}ignature="

  predicate IsSecret(r: string) {
    |r| == SECRET_LENGTH && SecretChars.All(r) && MixesCharacterClasses(r) && r[0] == 'A'
  }

  lemma RunStopsAt(c: CharClass, s: string, i: nat, stop: nat)
    requires i <= stop < |s| && !c.Has(s[stop])
    ensures i + c.Run(s, i) <= stop
  {
    WindowCharacters(c, s, i, i + c.Run(s, i));
  }

  lemma HalvesAreNoParam(r: string)
    requires IsSecret(r)
    ensures NoParam(HEAD + r + TAIL)
  {
    hide NameAt, SigV4NameLength, IsSecret;
    HalvesAreNoName(r);
    OneSeparator(r);
  }

  lemma OneSeparator(r: string)
    requires IsSecret(r)
    ensures forall i | 0 < i < |HEAD + r + TAIL| :: !Separators.Has((HEAD + r + TAIL)[i])
  {
    var s := HEAD + r + TAIL;
    forall i | 0 < i < |s| ensures !Separators.Has(s[i]) {
      if i < |HEAD| {
        assert s[i] == HEAD[i];
      } else if i < |HEAD| + |r| {
        assert s[i] == r[i - |HEAD|];
      } else {
        assert s[i] == TAIL[i - |HEAD| - |r|];
      }
    }
  }

  lemma SeventhOfAName(s: string, i: nat)
    requires NameAt(s, i)
    ensures i + 6 < |s| && FoldChar(s[i + 6]) in "cs"
  {
    hide SigV4NameLength, NameAt;
    var k := WordOf(s, i);
    assert Word(0)[6] == 'c' && Word(1)[6] == 's' && Word(2)[6] == 's';
    assert FoldChar(s[i + 6]) == Word(k)[6];
  }

  lemma HalvesAreNoName(r: string)
    requires IsSecret(r)
    ensures !NameAt(HEAD + r + TAIL, 1)
  {
    hide NameAt;
    var s := HEAD + r + TAIL;
    assert s[7] == r[0] && FoldChar(r[0]) == 'a';
    if NameAt(s, 1) {
      SeventhOfAName(s, 1);
    }
  }

  lemma HeadHasNoSecret(r: string, k: nat)
    requires k < |HEAD|
    ensures MatchLength(SecretKey, HEAD + r + TAIL, k) == 0
  {
    var s := HEAD + r + TAIL;
    assert s[6] == HEAD[6];
    RunStopsAt(SecretChars, s, k, 6);
  }

  lemma {:induction false} RunOfAll(c: CharClass, s: string, i: nat, stop: nat)
    requires i <= stop <= |s| && (stop == |s| || !c.Has(s[stop])) && forall k | i <= k < stop :: c.Has(s[k])
    ensures c.Run(s, i) == stop - i
    decreases stop - i
  {
    if i < stop {
      RunOfAll(c, s, i + 1, stop);
    }
  }

  lemma SecretInTheMiddle(r: string)
    requires IsSecret(r)
    ensures StepAt(SecretKey, HEAD + r + TAIL, |HEAD|) == Step("", |HEAD| + SECRET_LENGTH, 1)
  {
    var s := HEAD + r + TAIL;
    var at, end := |HEAD|, |HEAD| + SECRET_LENGTH;
    assert s[at - 1] == HEAD[at - 1] && s[end] == TAIL[0];
    assert forall k | at <= k < end :: s[k] == r[k - at];
    RunOfAll(SecretChars, s, at, end);
    assert s[at..end] == r;
    SecretMatches(s, at, r);
  }

  lemma SecretIsCut(r: string)
    requires IsSecret(r)
    ensures Excised(SecretKey, HEAD + r + TAIL) == (HEAD + TAIL, 1)
  {
    hide SubFrom, MatchLength, StepAt, IsSecret;
    var s := HEAD + r + TAIL;
    var at, end := |HEAD|, |HEAD| + SECRET_LENGTH;
    SecretLength(r);
    forall k: nat | k < at ensures MatchLength(SecretKey, s, k) == 0 {
      HeadHasNoSecret(r, k);
    }
    SecretInTheMiddle(r);
    CopyWithoutMatches(SecretKey, s, 0, at);
    CountUpTo(SecretKey, s, 0, at);
    OneStep(SecretKey, s, at);
    ShortRest(s, end);
    assert s[0..at] == HEAD && s[end..] == TAIL && HEAD + ("" + TAIL) == HEAD + TAIL;
  }

  lemma SecretMatches(s: string, at: nat, r: string)
    requires IsSecret(r) && 0 < at <= at + SECRET_LENGTH <= |s| && s[at..at + SECRET_LENGTH] == r
    requires !SecretChars.Has(s[at - 1]) && SecretChars.Run(s, at) == SECRET_LENGTH
    ensures StepAt(SecretKey, s, at) == Step("", at + SECRET_LENGTH, 1)
  {
  }

  lemma {:induction false} CountUpTo(p: Shape, text: string, i: nat, j: nat)
    requires i <= j <= |text|
    requires forall k | i <= k < j :: MatchLength(p, text, k) == 0
    ensures SubFrom(p, text, i).1 == SubFrom(p, text, j).1
    decreases j - i
  {
    hide MatchLength, StepAt;
    if i < j {
      StepWithoutMatch(p, text, i);
      CountUpTo(p, text, i + 1, j);
    }
  }

  lemma ShortRest(s: string, i: nat)
    requires i <= |s| < i + SECRET_LENGTH
    ensures SubFrom(SecretKey, s, i) == (s[i..], 0)
  {
    assert FreeFrom(SecretKey, s, i);
    CountIsZeroIffFree(SecretKey, s, i);
  }

  lemma ShortTextHasNoToken(s: string)
    requires |s| < TOKEN_MIN_LENGTH
    ensures Free(SessionToken, s)
  {
  }

  lemma JoinedHalvesAreTidy()
    ensures Free(AccessKeyId, HEAD + TAIL) && Free(CollapseSeparators, HEAD + TAIL)
        && Free(TrailingSeparators, HEAD + TAIL)
  {
    var s := HEAD + TAIL;
    assert |s| < KEY_ID_LENGTH;
    assert s == "?x-amz-\U{17F}ignature=";
    assert forall k | 0 < k < |s| :: !Separators.Has(s[k]);
    assert !Delimits(s[1]);
    RunStopsAt(Separators, s, 0, 1);
    RunStopsAt(Ampersand, s, 1, 1);
    forall k | 0 <= k < |s|
      ensures MatchLength(TrailingSeparators, s, k) == 0 && MatchLength(CollapseSeparators, s, k) == 0
    {
    }
  }

  lemma JoinedHalvesAreAParam()
    ensures ParamAt(HEAD + TAIL, 1)
  {
    var s := HEAD + TAIL;
    var w := Word(1);
    assert s == "?x-amz-\U{17F}ignature=" && w == "x-amz-signature=";
    assert HasFolded(s, 1, w);
  }

  /** A secret between `x-amz-` and a name that goes on with the long s, which the engine folds to
      `s`: cutting the secret out leaves a parameter. */
  lemma SecretPassCanJoinAParam(r: string)
    requires IsSecret(r)
    ensures var text := HEAD + r + TAIL;
      Free(AccessKeyId, BeforeLastPass(text)) && HasCredentialShape(ScrubbedText(text).0)
  {
    hide SubFrom, Free, NoParam, ParamAt, IsSecret;
    var text, out := HEAD + r + TAIL, HEAD + TAIL;
    HalvesAreNoParam(r);
    ParamsAreFilterless(text);
    NothingExcised(SigV4Param, text);
    assert |text| < TOKEN_MIN_LENGTH by { SecretLength(r); }
    ShortTextHasNoToken(text);
    NothingExcised(SessionToken, text);
    SecretIsCut(r);
    JoinedHalvesAreTidy();
    NothingExcised(AccessKeyId, out);
    NothingExcised(CollapseSeparators, out);
    NothingExcised(TrailingSeparators, out);
    assert ScrubbedText(text) == (out, 1);
    JoinedHalvesAreAParam();
    ParamsAreFilterless(out);
    ParamIsSeen(out, 1);
    ShapeReportedIffPresent(out);
  }

  lemma SecretLength(r: string)
    requires IsSecret(r)
    ensures |r| == SECRET_LENGTH
  {
  }

  lemma ParamIsSeen(s: string, i: nat)
    requires ParamAt(s, i)
    ensures !NoParam(s)
  {
  }
}
