/** What the text passes leave behind: no session-token-shaped run ever, and a secret-key-shaped
    run only when the last pass cut something out. */
module SurvivingRuns {
  import opened Text
  import opened CredentialShapes

  /** Every stretch of 300 or more token characters stays within two character classes. */
  ghost predicate LongRunsAreUnmixed(s: string) {
    forall i, j | 0 <= i <= j <= |s| :: j - i >= TOKEN_MIN_LENGTH && TokenChars.All(s[i..j]) ==>
        !MixesCharacterClasses(s[i..j])
  }

  lemma UnmixedIsTokenFree(s: string)
    requires LongRunsAreUnmixed(s)
    ensures Free(SessionToken, s)
  {
    forall k | 0 <= k < |s| && MatchLength(SessionToken, s, k) > 0
      ensures !Accepts(SessionToken, s[k..k + MatchLength(SessionToken, s, k)])
    {
      var n := MatchLength(SessionToken, s, k);
      assert TokenChars.All(s[k..k + n]);
    }
  }

  lemma MixingIsMonotone(small: string, big: string)
    requires forall i | 0 <= i < |small| :: small[i] in big
    ensures MixesCharacterClasses(small) ==> MixesCharacterClasses(big)
  {
  }

  predicate Apart(c: CharClass, a: string, b: string) {
    a == "" || b == "" || !c.Has(a[|a| - 1]) || !c.Has(b[0])
  }

  lemma WindowCharacters(c: CharClass, s: string, i: nat, j: nat)
    requires i <= j <= |s| && c.All(s[i..j])
    ensures forall k | i <= k < j :: c.Has(s[k])
  {
    assert forall k | i <= k < j :: s[i..j][k - i] == s[k];
  }

  lemma JoinApart(a: string, b: string)
    requires LongRunsAreUnmixed(a) && LongRunsAreUnmixed(b) && Apart(TokenChars, a, b)
    ensures LongRunsAreUnmixed(a + b)
  {
    hide MixesCharacterClasses, CharClass.All;
    var s := a + b;
    assert a != "" ==> s[|a| - 1] == a[|a| - 1];
    assert b != "" ==> s[|a|] == b[0];
    forall i, j | 0 <= i <= j <= |s| && j - i >= TOKEN_MIN_LENGTH && TokenChars.All(s[i..j])
      ensures !MixesCharacterClasses(s[i..j])
    {
      assert forall k | i <= k < j :: TokenChars.Has(s[k]) by { WindowCharacters(TokenChars, s, i, j); }
      if j <= |a| {
        BesideJoin(a, b, i, j);
      } else if i >= |a| {
        BesideJoin(a, b, i, j);
      } else {
        assert false;
      }
    }
  }

  /** Cutting `m` out of `a + m + b` cannot create a long mixed run when `m` lies inside one run of
      token characters or when the two ends it brings together are not both token characters. */
  lemma CutKeepsRunsUnmixed(a: string, m: string, b: string)
    requires LongRunsAreUnmixed(a + m + b)
    requires TokenChars.All(m) || Apart(TokenChars, a, b)
    ensures LongRunsAreUnmixed(a + b)
  {
    hide MixesCharacterClasses, CharClass.All;
    var s, t := a + b, a + m + b;
    assert a != "" ==> s[|a| - 1] == a[|a| - 1];
    assert b != "" ==> s[|a|] == b[0];
    forall i, j | 0 <= i <= j <= |s| && j - i >= TOKEN_MIN_LENGTH && TokenChars.All(s[i..j])
      ensures !MixesCharacterClasses(s[i..j])
    {
      assert forall k | i <= k < j :: TokenChars.Has(s[k]) by { WindowCharacters(TokenChars, s, i, j); }
      if j <= |a| {
        BesideCut(a, m, b, i, j - i);
      } else if i >= |a| {
        BesideCut(a, m, b, i + |m|, j - i);
      } else {
        AcrossCut(a, m, b, i, j);
        MixingSurvivesInsertion(a[i..], m, b[..j - |a|]);
      }
    }
  }

  lemma MixingSurvivesInsertion(x: string, m: string, y: string)
    requires TokenChars.All(x + y) && TokenChars.All(m)
    ensures TokenChars.All(x + m + y)
    ensures MixesCharacterClasses(x + y) ==> MixesCharacterClasses(x + m + y)
  {
    forall i | 0 <= i < |x + m + y| ensures TokenChars.Has((x + m + y)[i]) {
      if i < |x| { assert (x + m + y)[i] == (x + y)[i]; }
      else if i >= |x| + |m| { assert (x + m + y)[i] == (x + y)[i - |m|]; }
    }
    forall i | 0 <= i < |x + y| ensures (x + y)[i] in x + m + y {
      if i < |x| { assert (x + m + y)[i] == (x + y)[i]; }
      else { assert (x + m + y)[i + |m|] == (x + y)[i]; }
    }
    MixingIsMonotone(x + y, x + m + y);
  }

  predicate IsLaterPass(p: Shape) {
    p != SigV4Param && p != SessionToken
  }

  /** An accepted match of a later pass: the part it keeps, and the part it cuts out, which either
      lies inside a run or leaves ends that are not both token characters. */
  lemma MatchIsSafeToCut(p: Shape, text: string, i: nat, pre: string) returns (cut: string)
    requires IsLaterPass(p) && i < |text| && StepAt(p, text, i).removed == 1
    ensures text[i..StepAt(p, text, i).next] == StepAt(p, text, i).kept + cut
    ensures TokenChars.All(cut) || Apart(TokenChars, pre + StepAt(p, text, i).kept, text[StepAt(p, text, i).next..])
  {
    hide MatchLength, Accepts;
    var s := StepAt(p, text, i);
    cut := text[i + |s.kept|..s.next];
    if p == SecretKey || p == AccessKeyId {
      KeyMatchesAreTokens(p, text, i);
      assert cut == text[i..s.next];
    } else if p == CollapseSeparators {
      CollapseKeepsAQuestionMark(text, i);
      assert (pre + s.kept)[|pre|] == '?';
    } else {
      TrailingEndsAtADelimiter(text, i);
    }
  }

  lemma KeyMatchesAreTokens(p: Shape, text: string, i: nat)
    requires (p == SecretKey || p == AccessKeyId) && i < |text|
    ensures TokenChars.All(text[i..i + MatchLength(p, text, i)])
  {
    var found := text[i..i + MatchLength(p, text, i)];
    if p == AccessKeyId && found != "" {
      assert found == text[i..i + 4] + text[i + 4..i + KEY_ID_LENGTH];
    }
  }

  lemma CollapseKeepsAQuestionMark(text: string, i: nat)
    requires i < |text| && MatchLength(CollapseSeparators, text, i) > 0
    ensures text[i] == '?'
  {
  }

  lemma TrailingEndsAtADelimiter(text: string, i: nat)
    requires i < |text| && MatchLength(TrailingSeparators, text, i) > 0
    ensures var end := i + MatchLength(TrailingSeparators, text, i);
      end == |text| || !TokenChars.Has(text[end])
  {
  }

  lemma {:induction false} LaterPassKeepsRunsUnmixed(p: Shape, text: string, i: nat, pre: string)
    requires IsLaterPass(p) && i <= |text|
    requires LongRunsAreUnmixed(pre + text[i..])
    ensures LongRunsAreUnmixed(pre + SubFrom(p, text, i).0)
    decreases |text| - i
  {
    hide StepAt, LongRunsAreUnmixed, Apart;
    if i == |text| {
      assert text[i..] == "";
    } else {
      var s := StepAt(p, text, i);
      if s.removed == 1 {
        var cut := MatchIsSafeToCut(p, text, i, pre);
        assert text[i..] == text[i..s.next] + text[s.next..];
        assert pre + text[i..] == (pre + s.kept) + cut + text[s.next..];
        CutKeepsRunsUnmixed(pre + s.kept, cut, text[s.next..]);
      } else {
        assert pre + text[i..] == (pre + s.kept) + text[s.next..];
      }
      LaterPassKeepsRunsUnmixed(p, text, s.next, pre + s.kept);
      assert (pre + s.kept) + SubFrom(p, text, s.next).0 == pre + SubFrom(p, text, i).0;
    }
  }

  // ----- the passes that cut whole runs ---------------------------------------------------

  predicate IsLongRun(p: Shape) {
    p == SessionToken || p == SecretKey
  }

  function RunClass(p: Shape): CharClass
    requires IsLongRun(p)
  {
    if p == SessionToken then TokenChars else SecretChars
  }

  predicate WholeLength(p: Shape, n: nat) {
    if p == SessionToken then n >= TOKEN_MIN_LENGTH else n == SECRET_LENGTH
  }

  lemma StepWithoutMatch(p: Shape, text: string, i: nat)
    requires i < |text| && MatchLength(p, text, i) == 0
    ensures StepAt(p, text, i) == Step([text[i]], i + 1, 0)
  {
  }

  /** Without matches in between, a stretch is copied as it stands. */
  lemma {:induction false} CopyWithoutMatches(p: Shape, text: string, i: nat, j: nat)
    requires i <= j <= |text|
    requires forall k | i <= k < j :: MatchLength(p, text, k) == 0
    ensures SubFrom(p, text, i).0 == text[i..j] + SubFrom(p, text, j).0
    decreases j - i
  {
    hide MatchLength, StepAt;
    if i < j {
      StepWithoutMatch(p, text, i);
      CopyWithoutMatches(p, text, i + 1, j);
      assert text[i..j] == [text[i]] + text[i + 1..j];
    } else {
      assert text[i..j] == "";
    }
  }

  /** A long-run pattern matches a whole run from its first character or none of it. */
  lemma MatchesOnlyAtRunStart(p: Shape, text: string, i: nat, k: nat)
    requires IsLongRun(p) && i <= |text|
    requires i < k < i + RunClass(p).Run(text, i)
    ensures MatchLength(p, text, k) == 0
  {
    assert text[i..i + RunClass(p).Run(text, i)][k - 1 - i] == text[k - 1];
  }

  predicate AtRunBoundary(c: CharClass, text: string, i: nat)
    requires i <= |text|
  {
    i == 0 || i == |text| || !c.Has(text[i - 1]) || !c.Has(text[i])
  }

  /** One step over a whole run: what the pass leaves of it. */
  lemma RunStep(p: Shape, text: string, i: nat) returns (next: nat, piece: string)
    requires IsLongRun(p) && i < |text| && AtRunBoundary(RunClass(p), text, i) && RunClass(p).Has(text[i])
    ensures next == i + RunClass(p).Run(text, i) && next > i
    ensures SubFrom(p, text, i).0 == piece + SubFrom(p, text, next).0
    ensures piece == "" || (piece == text[i..next] && (WholeLength(p, |piece|) ==> !MixesCharacterClasses(piece)))
  {
    hide MatchLength, StepAt, SubFrom, Accepts, MixesCharacterClasses;
    next := i + RunClass(p).Run(text, i);
    if WholeLength(p, next - i) {
      piece := WholeRunStep(p, text, i);
    } else {
      forall k | i <= k < next ensures MatchLength(p, text, k) == 0 {
        if k > i { MatchesOnlyAtRunStart(p, text, i, k); } else { OtherRunsDoNotMatch(p, text, i); }
      }
      CopyWithoutMatches(p, text, i, next);
      piece := text[i..next];
    }
  }

  lemma WholeRunMatches(p: Shape, text: string, i: nat)
    requires IsLongRun(p) && i < |text| && AtRunBoundary(RunClass(p), text, i) && RunClass(p).Has(text[i])
    requires WholeLength(p, RunClass(p).Run(text, i))
    ensures MatchLength(p, text, i) == RunClass(p).Run(text, i) > 0
  {
  }

  lemma OtherRunsDoNotMatch(p: Shape, text: string, i: nat)
    requires IsLongRun(p) && i < |text| && !WholeLength(p, RunClass(p).Run(text, i))
    ensures MatchLength(p, text, i) == 0
  {
  }

  lemma WholeRunStep(p: Shape, text: string, i: nat) returns (piece: string)
    requires IsLongRun(p) && i < |text| && AtRunBoundary(RunClass(p), text, i) && RunClass(p).Has(text[i])
    requires WholeLength(p, RunClass(p).Run(text, i))
    ensures var next := i + RunClass(p).Run(text, i);
      && SubFrom(p, text, i).0 == piece + SubFrom(p, text, next).0
      && (piece == "" || (piece == text[i..next] && !MixesCharacterClasses(piece)))
  {
    hide SubFrom, MatchLength, MixesCharacterClasses, CharClass.Run, CharClass.Has, CharClass.All, AtRunBoundary;
    OneStep(p, text, i);
    WholeRunMatches(p, text, i);
    piece := StepAt(p, text, i).kept;
  }

  /** A character outside the run class is copied, and begins what the pass leaves from there on. */
  lemma OutsideIsCopied(p: Shape, text: string, i: nat)
    requires IsLongRun(p) && i < |text| && !RunClass(p).Has(text[i])
    ensures SubFrom(p, text, i).0 == [text[i]] + SubFrom(p, text, i + 1).0
  {
  }

  lemma PieceIsUnmixed(piece: string)
    requires |piece| >= TOKEN_MIN_LENGTH ==> !MixesCharacterClasses(piece)
    ensures LongRunsAreUnmixed(piece)
  {
    forall i, j | 0 <= i <= j <= |piece| && j - i >= TOKEN_MIN_LENGTH
      ensures !MixesCharacterClasses(piece[i..j])
    {
      MixingIsMonotone(piece[i..j], piece);
    }
  }

  lemma {:induction false} TokenPassLeavesNoLongRun(text: string, i: nat)
    requires i <= |text| && AtRunBoundary(TokenChars, text, i)
    ensures LongRunsAreUnmixed(SubFrom(SessionToken, text, i).0)
    decreases |text| - i
  {
    hide StepAt, LongRunsAreUnmixed, SubFrom, CharClass.All, MixesCharacterClasses;
    if i == |text| {
      EmptyRest(SessionToken, text);
      PieceIsUnmixed("");
    } else if !TokenChars.Has(text[i]) {
      OutsideIsCopied(SessionToken, text, i);
      TokenPassLeavesNoLongRun(text, i + 1);
      PieceIsUnmixed([text[i]]);
      JoinApart([text[i]], SubFrom(SessionToken, text, i + 1).0);
    } else {
      var next, piece := RunStep(SessionToken, text, i);
      TokenPassLeavesNoLongRun(text, next);
      if next < |text| {
        OutsideIsCopied(SessionToken, text, next);
      }
      PieceIsUnmixed(piece);
      JoinApart(piece, SubFrom(SessionToken, text, next).0);
    }
  }

  /** No mixed-class maximal run of 300 or more token characters is left by the whole text scrub:
      the later passes and the tidying only delete, and never complete such a run again. */
  lemma NoSessionTokenSurvives(text: string)
    ensures Free(SessionToken, ScrubbedText(text).0)
  {
    hide SubFrom, Free;
    var a := Excised(SigV4Param, text).0;
    TokenPassLeavesNoLongRun(a, 0);
    var b := Excised(SessionToken, a).0;
    LaterPass(SecretKey, b);
    var c := Excised(SecretKey, b).0;
    LaterPass(AccessKeyId, c);
    var d := Excised(AccessKeyId, c).0;
    LaterPass(CollapseSeparators, d);
    var e := Excised(CollapseSeparators, d).0;
    LaterPass(TrailingSeparators, e);
    UnmixedIsTokenFree(ScrubbedText(text).0);
  }

  lemma LaterPass(p: Shape, text: string)
    requires IsLaterPass(p) && LongRunsAreUnmixed(text)
    ensures LongRunsAreUnmixed(Excised(p, text).0)
  {
    assert "" + text[0..] == text;
    LaterPassKeepsRunsUnmixed(p, text, 0, "");
    assert "" + Excised(p, text).0 == Excised(p, text).0;
  }

  // ----- secret-key-shaped runs -----------------------------------------------------------

  /** No maximal run of exactly 40 secret-key characters mixes the character classes. */
  ghost predicate NoSecretRun(s: string) {
    forall i, j | 0 <= i <= j <= |s| ::
      j - i == SECRET_LENGTH && SecretChars.All(s[i..j]) && Maximal(s, i, j) ==> !MixesCharacterClasses(s[i..j])
  }

  predicate Maximal(s: string, i: nat, j: nat)
    requires i <= j <= |s|
  {
    (i == 0 || !SecretChars.Has(s[i - 1])) && (j == |s| || !SecretChars.Has(s[j]))
  }

  lemma NoSecretRunIsSecretFree(s: string)
    requires NoSecretRun(s)
    ensures Free(SecretKey, s)
  {
    forall k | 0 <= k < |s| && MatchLength(SecretKey, s, k) > 0
      ensures !Accepts(SecretKey, s[k..k + MatchLength(SecretKey, s, k)])
    {
      var n := MatchLength(SecretKey, s, k);
      assert SecretChars.All(s[k..k + n]) && Maximal(s, k, k + n);
    }
  }

  /** Joining `a` and `b` where not both ends are secret characters, with only non-secret
      characters `m` having stood between them, makes no new maximal run. */
  lemma CutSeparators(a: string, m: string, b: string)
    requires NoSecretRun(a + m + b)
    requires Apart(SecretChars, a, b)
    requires forall k | 0 <= k < |m| :: !SecretChars.Has(m[k])
    ensures NoSecretRun(a + b)
  {
    hide MixesCharacterClasses, CharClass.All;
    var s, t := a + b, a + m + b;
    assert a != "" ==> s[|a| - 1] == a[|a| - 1];
    assert b != "" ==> s[|a|] == b[0];
    forall i, j | 0 <= i <= j <= |s| && j - i == SECRET_LENGTH && SecretChars.All(s[i..j]) && Maximal(s, i, j)
      ensures !MixesCharacterClasses(s[i..j])
    {
      assert forall k | i <= k < j :: SecretChars.Has(s[k]) by { WindowCharacters(SecretChars, s, i, j); }
      if j <= |a| {
        BesideCut(a, m, b, i, j - i);
        assert j < |t| ==> t[j] == if j < |a| then s[j] else if m != "" then m[0] else s[j];
        assert Maximal(t, i, j);
      } else if i >= |a| {
        var i', j' := i + |m|, j + |m|;
        BesideCut(a, m, b, i', j - i);
        assert i' > 0 ==> t[i' - 1] == if i > |a| then s[i - 1] else if m != "" then m[|m| - 1] else s[i - 1];
        assert j' < |t| ==> t[j'] == s[j];
        assert Maximal(t, i', j');
      } else {
        assert false;
      }
    }
  }

  lemma JoinSecretApart(a: string, b: string)
    requires NoSecretRun(a) && NoSecretRun(b) && Apart(SecretChars, a, b)
    ensures NoSecretRun(a + b)
  {
    hide MixesCharacterClasses, CharClass.All;
    var s := a + b;
    assert a != "" ==> s[|a| - 1] == a[|a| - 1];
    assert b != "" ==> s[|a|] == b[0];
    forall i, j | 0 <= i <= j <= |s| && j - i == SECRET_LENGTH && SecretChars.All(s[i..j]) && Maximal(s, i, j)
      ensures !MixesCharacterClasses(s[i..j])
    {
      assert forall k | i <= k < j :: SecretChars.Has(s[k]) by { WindowCharacters(SecretChars, s, i, j); }
      if j <= |a| {
        BesideJoin(a, b, i, j);
        assert j < |a| ==> a[j] == s[j];
        assert Maximal(a, i, j);
      } else if i >= |a| {
        BesideJoin(a, b, i, j);
        assert i > |a| ==> b[i - |a| - 1] == s[i - 1];
        assert j < |s| ==> b[j - |a|] == s[j];
        assert Maximal(b, i - |a|, j - |a|);
      } else {
        assert false;
      }
    }
  }

  lemma PieceHasNoSecretRun(piece: string)
    requires || |piece| < SECRET_LENGTH
             || (SecretChars.All(piece) && (WholeLength(SecretKey, |piece|) ==> !MixesCharacterClasses(piece)))
    ensures NoSecretRun(piece)
  {
    forall i, j | 0 <= i <= j <= |piece| && j - i == SECRET_LENGTH && Maximal(piece, i, j)
      ensures !MixesCharacterClasses(piece[i..j])
    {
      assert piece[i..j] == piece;
    }
  }

  lemma {:induction false} SecretPassLeavesNoSecretRun(text: string, i: nat)
    requires i <= |text| && AtRunBoundary(SecretChars, text, i)
    ensures NoSecretRun(SubFrom(SecretKey, text, i).0)
    decreases |text| - i
  {
    hide StepAt, NoSecretRun, SubFrom, CharClass.All, MixesCharacterClasses;
    if i == |text| {
      EmptyRest(SecretKey, text);
      PieceHasNoSecretRun("");
    } else if !SecretChars.Has(text[i]) {
      OutsideIsCopied(SecretKey, text, i);
      SecretPassLeavesNoSecretRun(text, i + 1);
      PieceHasNoSecretRun([text[i]]);
      JoinSecretApart([text[i]], SubFrom(SecretKey, text, i + 1).0);
    } else {
      var next, piece := RunStep(SecretKey, text, i);
      SecretPassLeavesNoSecretRun(text, next);
      if next < |text| {
        OutsideIsCopied(SecretKey, text, next);
      }
      PieceHasNoSecretRun(piece);
      JoinSecretApart(piece, SubFrom(SecretKey, text, next).0);
    }
  }

  predicate IsTidying(p: Shape) {
    p == CollapseSeparators || p == TrailingSeparators
  }

  lemma CollapseCutsAmpersands(text: string, i: nat)
    requires i < |text| && MatchLength(CollapseSeparators, text, i) > 0
    ensures forall k | i + 1 <= k < i + MatchLength(CollapseSeparators, text, i) :: !SecretChars.Has(text[k])
  {
    WindowCharacters(Ampersand, text, i + 1, i + MatchLength(CollapseSeparators, text, i));
  }

  lemma TrailingCutsSeparators(text: string, i: nat)
    requires i < |text| && MatchLength(TrailingSeparators, text, i) > 0
    ensures forall k | i <= k < i + MatchLength(TrailingSeparators, text, i) :: !SecretChars.Has(text[k])
    ensures var end := i + MatchLength(TrailingSeparators, text, i);
      end == |text| || !SecretChars.Has(text[end])
  {
    WindowCharacters(Separators, text, i, i + MatchLength(TrailingSeparators, text, i));
  }

  lemma TidyingCutsSeparators(p: Shape, text: string, i: nat, pre: string) returns (cut: string)
    requires IsTidying(p) && i < |text| && StepAt(p, text, i).removed == 1
    ensures text[i..StepAt(p, text, i).next] == StepAt(p, text, i).kept + cut
    ensures forall k | 0 <= k < |cut| :: !SecretChars.Has(cut[k])
    ensures Apart(SecretChars, pre + StepAt(p, text, i).kept, text[StepAt(p, text, i).next..])
  {
    hide Accepts, MatchLength;
    var s := StepAt(p, text, i);
    cut := text[i + |s.kept|..s.next];
    if p == CollapseSeparators {
      CollapseKeepsAQuestionMark(text, i);
      CollapseCutsAmpersands(text, i);
      assert (pre + s.kept)[|pre|] == '?';
    } else {
      TrailingCutsSeparators(text, i);
    }
  }

  lemma {:induction false} TidyingKeepsNoSecretRun(p: Shape, text: string, i: nat, pre: string)
    requires IsTidying(p) && i <= |text|
    requires NoSecretRun(pre + text[i..])
    ensures NoSecretRun(pre + SubFrom(p, text, i).0)
    decreases |text| - i
  {
    hide StepAt, NoSecretRun, Apart;
    if i == |text| {
      assert text[i..] == "";
    } else {
      var s := StepAt(p, text, i);
      if s.removed == 1 {
        var cut := TidyingCutsSeparators(p, text, i, pre);
        assert text[i..] == text[i..s.next] + text[s.next..];
        assert pre + text[i..] == (pre + s.kept) + cut + text[s.next..];
        CutSeparators(pre + s.kept, cut, text[s.next..]);
      } else {
        assert pre + text[i..] == (pre + s.kept) + text[s.next..];
      }
      TidyingKeepsNoSecretRun(p, text, s.next, pre + s.kept);
      assert (pre + s.kept) + SubFrom(p, text, s.next).0 == pre + SubFrom(p, text, i).0;
    }
  }

  // ----- access key ids -------------------------------------------------------------------

  predicate KeyIdAt(s: string, i: nat) {
    i <= |s| && MatchLength(AccessKeyId, s, i) > 0
  }

  ghost predicate NoKeyId(s: string) {
    forall i: nat :: !KeyIdAt(s, i)
  }

  lemma KeyIdIsLocal(s: string, i: nat, t: string, k: nat)
    requires i + KEY_ID_LENGTH <= |s| && k + KEY_ID_LENGTH <= |t|
    requires s[i..i + KEY_ID_LENGTH] == t[k..k + KEY_ID_LENGTH]
    ensures KeyIdAt(s, i) ==> KeyIdAt(t, k)
  {
    var w := s[i..i + KEY_ID_LENGTH];
    assert s[i..i + 4] == w[..4] == t[k..k + 4];
    assert s[i + 4..i + KEY_ID_LENGTH] == w[4..] == t[k + 4..k + KEY_ID_LENGTH];
  }

  lemma KeyIdCharacters(s: string, i: nat)
    requires KeyIdAt(s, i)
    ensures i + KEY_ID_LENGTH <= |s| && forall k | i <= k < i + KEY_ID_LENGTH :: SecretChars.Has(s[k])
  {
    assert s[i..i + 4] == "ASIA" || s[i..i + 4] == "AKIA";
    assert forall k | i <= k < i + 4 :: s[k] == s[i..i + 4][k - i];
    assert forall k | i + 4 <= k < i + KEY_ID_LENGTH :: s[k] == s[i + 4..i + KEY_ID_LENGTH][k - i - 4];
  }

  lemma CutKeepsNoKeyId(a: string, m: string, b: string)
    requires NoKeyId(a + m + b) && Apart(SecretChars, a, b)
    ensures NoKeyId(a + b)
  {
    hide MatchLength;
    var s, t := a + b, a + m + b;
    assert a != "" ==> s[|a| - 1] == a[|a| - 1];
    assert b != "" ==> s[|a|] == b[0];
    forall i: nat ensures !KeyIdAt(s, i) {
      if KeyIdAt(s, i) {
        KeyIdCharacters(s, i);
        assert i + KEY_ID_LENGTH <= |a| || i >= |a|;
        var i' := if i + KEY_ID_LENGTH <= |a| then i else i + |m|;
        BesideCut(a, m, b, i', KEY_ID_LENGTH);
        KeyIdIsLocal(s, i, t, i');
      }
    }
  }

  lemma {:induction false} TidyingKeepsNoKeyId(p: Shape, text: string, i: nat, pre: string)
    requires IsTidying(p) && i <= |text|
    requires NoKeyId(pre + text[i..])
    ensures NoKeyId(pre + SubFrom(p, text, i).0)
    decreases |text| - i
  {
    hide StepAt, NoKeyId, Apart;
    if i == |text| {
      assert text[i..] == "";
    } else {
      var s := StepAt(p, text, i);
      if s.removed == 1 {
        var cut := TidyingCutsSeparators(p, text, i, pre);
        assert text[i..] == text[i..s.next] + text[s.next..];
        assert pre + text[i..] == (pre + s.kept) + cut + text[s.next..];
        CutKeepsNoKeyId(pre + s.kept, cut, text[s.next..]);
      } else {
        assert pre + text[i..] == (pre + s.kept) + text[s.next..];
      }
      TidyingKeepsNoKeyId(p, text, s.next, pre + s.kept);
      assert (pre + s.kept) + SubFrom(p, text, s.next).0 == pre + SubFrom(p, text, i).0;
    }
  }

  // ----- what is left of the other two shapes ---------------------------------------------

  lemma Tidying(p: Shape, text: string)
    requires IsTidying(p) && NoSecretRun(text) && NoKeyId(text)
    ensures NoSecretRun(Excised(p, text).0) && NoKeyId(Excised(p, text).0)
  {
    hide NoSecretRun, NoKeyId;
    assert "" + text[0..] == text;
    TidyingKeepsNoSecretRun(p, text, 0, "");
    TidyingKeepsNoKeyId(p, text, 0, "");
    assert "" + Excised(p, text).0 == Excised(p, text).0;
  }

  /** What the first three passes leave, the text the access-key-id pass works on. */
  function BeforeLastPass(text: string): string {
    Excised(SecretKey, Excised(SessionToken, Excised(SigV4Param, text).0).0).0
  }

  /** When the access-key-id pass finds nothing to cut, no secret-key-shaped run and no access key
      id is left. */
  lemma KeysSurviveOnlyAKeyIdCut(text: string)
    requires Free(AccessKeyId, BeforeLastPass(text))
    ensures Free(SecretKey, ScrubbedText(text).0)
    ensures Free(AccessKeyId, ScrubbedText(text).0)
  {
    hide SubFrom, MatchLength, Accepts, NoSecretRun;
    SecretPassLeavesNoSecretRun(Excised(SessionToken, Excised(SigV4Param, text).0).0, 0);
    var c := BeforeLastPass(text);
    CountIsZeroIffFree(AccessKeyId, c, 0);
    KeyIdsAreFilterless(c);
    assert Excised(AccessKeyId, c).0 == c;
    Tidying(CollapseSeparators, c);
    Tidying(TrailingSeparators, Excised(CollapseSeparators, c).0);
    NoSecretRunIsSecretFree(ScrubbedText(text).0);
    KeyIdsAreFilterless(ScrubbedText(text).0);
  }

  lemma KeyIdsAreFilterless(s: string)
    ensures Free(AccessKeyId, s) <==> NoKeyId(s)
  {
    if NoKeyId(s) {
      forall k | 0 <= k < |s| ensures MatchLength(AccessKeyId, s, k) == 0 {
        assert !KeyIdAt(s, k);
      }
    }
  }

  /** Text without lower-case letters and without `?` and `&` can only hold access key ids. */
  lemma OnlyKeyIdsMatchUpperCase(p: Shape, text: string)
    requires p != AccessKeyId
    requires forall c | c in text :: !IsLower(c) && !Separators.Has(c)
    ensures Excised(p, text) == (text, 0)
  {
    forall k | 0 <= k < |text| && MatchLength(p, text, k) > 0
      ensures !Accepts(p, text[k..k + MatchLength(p, text, k)])
    {
      var found := text[k..k + MatchLength(p, text, k)];
      assert forall i | 0 <= i < |found| :: found[i] in text;
    }
    CountIsZeroIffFree(p, text, 0);
  }

  /** Cutting one access key id out can bring the halves of another together. */
  lemma KeyIdPassCanJoinAKeyId(digits: string)
    requires |digits| == 16 && KeyIdChars.All(digits)
    ensures var text := "AK" + ("AKIA" + digits) + ("IA" + digits);
      HasCredentialShape(text) && !Free(AccessKeyId, ScrubbedText(text).0)
  {
    hide MatchLength, SubFrom, Free, Accepts, CharClass.All;
    var text := "AK" + ("AKIA" + digits) + ("IA" + digits);
    var joined := "AK" + ("IA" + digits);
    JoinedByThePass(digits);
    UpperCaseOnly(digits);
    OnlyKeyIdsMatchUpperCase(SigV4Param, text);
    OnlyKeyIdsMatchUpperCase(SessionToken, text);
    OnlyKeyIdsMatchUpperCase(SecretKey, text);
    OnlyKeyIdsMatchUpperCase(CollapseSeparators, joined);
    OnlyKeyIdsMatchUpperCase(TrailingSeparators, joined);
    assert ScrubbedText(text) == (joined, 1);
    KeyIdsAreFilterless(joined);
    assert KeyIdAt(joined, 0);
  }

  lemma UpperCaseOnly(digits: string)
    requires KeyIdChars.All(digits)
    ensures forall c | c in "AK" + ("AKIA" + digits) + ("IA" + digits) :: !IsLower(c) && !Separators.Has(c)
    ensures forall c | c in "AK" + ("IA" + digits) :: !IsLower(c) && !Separators.Has(c)
  {
  }

  lemma StartOfTheJoinedText(digits: string, text: string)
    requires |digits| == 16 && KeyIdChars.All(digits)
    requires text == "AK" + ("AKIA" + digits) + ("IA" + digits)
    ensures MatchLength(AccessKeyId, text, 0) == 0 && MatchLength(AccessKeyId, text, 1) == 0
    ensures MatchLength(AccessKeyId, text, 2) == KEY_ID_LENGTH
  {
    assert text[0..4] == "AKAK" && text[1..5][0] == 'K';
    assert "AKAK"[2] != "AKIA"[2] && "AKAK"[2] != "ASIA"[2];
    assert text[2..6] == "AKIA" && text[6..22] == digits;
  }

  lemma JoinedByThePass(digits: string)
    requires |digits| == 16 && KeyIdChars.All(digits)
    ensures Excised(AccessKeyId, "AK" + ("AKIA" + digits) + ("IA" + digits)) == ("AK" + ("IA" + digits), 1)
    ensures KeyIdAt("AK" + ("IA" + digits), 0)
  {
    hide SubFrom, MatchLength;
    var text := "AK" + ("AKIA" + digits) + ("IA" + digits);
    StartOfTheJoinedText(digits, text);
    ShortRestHasNoKeyId(text, 22);
    assert text[22..] == "IA" + digits;
    OneStep(AccessKeyId, text, 0);
    OneStep(AccessKeyId, text, 1);
    OneStep(AccessKeyId, text, 2);
    var joined := "AK" + ("IA" + digits);
    assert [text[0]] + ([text[1]] + ("" + ("IA" + digits))) == joined;
    WholeKeyId(joined, digits);
  }

  lemma ShortRestHasNoKeyId(text: string, i: nat)
    requires i <= |text| < i + KEY_ID_LENGTH
    ensures SubFrom(AccessKeyId, text, i) == (text[i..], 0)
  {
    assert FreeFrom(AccessKeyId, text, i);
    CountIsZeroIffFree(AccessKeyId, text, i);
  }

  lemma WholeKeyId(s: string, digits: string)
    requires |digits| == 16 && KeyIdChars.All(digits) && s == "AK" + ("IA" + digits)
    ensures KeyIdAt(s, 0)
  {
    assert s[0..4] == "AKIA" && s[4..20] == digits;
  }

}
