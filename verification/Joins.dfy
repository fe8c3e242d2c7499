/** Exactly which texts still show a credential shape after the scrub: those where a cut joins one. */
module Joins {
  import opened Text
  import opened CredentialShapes
  import opened SurvivingRuns
  import opened Idempotence

  // ----- occurrences ----------------------------------------------------------------------

  predicate SecretAt(s: string, x: nat, y: nat) {
    && x <= y <= |s| && y - x == SECRET_LENGTH
    && SecretChars.All(s[x..y]) && Maximal(s, x, y) && MixesCharacterClasses(s[x..y])
  }

  /** `q` occurs in `s`, and a cut joins it when it lies at a position from `x` to `y`: inside an
      access key id or a parameter, or inside a secret-key run or at one of its ends. */
  predicate Occurs(q: Shape, s: string, x: nat, y: nat) {
    match q
    case AccessKeyId => x > 0 && y == x + KEY_ID_LENGTH - 2 && KeyIdAt(s, x - 1)
    case SecretKey => SecretAt(s, x, y)
    case SigV4Param => ParamAt(s, x) && y == x + SigV4NameLength(s, x) - 1
    case _ => false
  }

  ghost predicate Present(q: Shape, s: string) {
    exists x: nat, y: nat :: Occurs(q, s, x, y)
  }

  /** Where `a` and `b` meet, they make up an occurrence of `q`. */
  ghost predicate Across(q: Shape, a: string, b: string) {
    exists x: nat, y: nat :: x <= |a| <= y && Occurs(q, a + b, x, y)
  }

  lemma OccursWithin(q: Shape, s: string, x: nat, y: nat)
    requires Occurs(q, s, x, y)
    ensures x < y <= |s| && (q != SecretKey ==> 0 < x && y < |s|)
  {
    hide MatchLength, SigV4NameLength, NameAt;
    match q
    case AccessKeyId => KeyIdCharacters(s, x - 1);
    case SigV4Param => NameShape(s, x);
    case _ =>
  }

  lemma PresentKeyId(s: string)
    ensures Present(AccessKeyId, s) <==> !Free(AccessKeyId, s)
    ensures Present(AccessKeyId, s) <==> !NoKeyId(s)
  {
    hide MatchLength;
    KeyIdsAreFilterless(s);
    if !NoKeyId(s) {
      var i: nat :| KeyIdAt(s, i);
      assert Occurs(AccessKeyId, s, i + 1, i + KEY_ID_LENGTH - 1);
    }
  }

  lemma PresentParam(s: string)
    ensures Present(SigV4Param, s) <==> !Free(SigV4Param, s)
    ensures Present(SigV4Param, s) <==> !NoParam(s)
  {
    hide SigV4NameLength, NameAt;
    ParamsAreFilterless(s);
    if !NoParam(s) {
      var i: nat :| ParamAt(s, i);
      NameShape(s, i);
      assert Occurs(SigV4Param, s, i, i + SigV4NameLength(s, i) - 1);
    }
  }

  lemma SecretMatchesAt(s: string, x: nat, y: nat)
    requires SecretAt(s, x, y)
    ensures x < |s| && MatchLength(SecretKey, s, x) == SECRET_LENGTH
  {
    WindowCharacters(SecretChars, s, x, y);
    RunOfAll(SecretChars, s, x, y);
  }

  lemma PresentSecret(s: string)
    ensures Present(SecretKey, s) <==> !Free(SecretKey, s)
    ensures Present(SecretKey, s) <==> !NoSecretRun(s)
  {
    hide MatchLength, MixesCharacterClasses, Maximal, CharClass.All;
    if !NoSecretRun(s) {
      var i, j :| 0 <= i <= j <= |s| && j - i == SECRET_LENGTH && SecretChars.All(s[i..j]) && Maximal(s, i, j)
                  && MixesCharacterClasses(s[i..j]);
      assert Occurs(SecretKey, s, i, j);
    } else {
      NoSecretRunIsSecretFree(s);
    }
    if Present(SecretKey, s) {
      var x: nat, y: nat :| Occurs(SecretKey, s, x, y);
      SecretMatchesAt(s, x, y);
      assert Accepts(SecretKey, s[x..x + MatchLength(SecretKey, s, x)]);
    }
  }

  // ----- the passes that cut --------------------------------------------------------------

  predicate IsCutting(p: Shape) {
    p == SessionToken || p == SecretKey || p == AccessKeyId
  }

  /** From `i` on, with `out` left of it, the pass makes a cut where the text it leaves makes up an
      occurrence of `q`. */
  ghost predicate SomeCutJoins(q: Shape, p: Shape, text: string, i: nat, out: string)
    decreases |text| - i
  {
    i < |text| &&
    var s := StepAt(p, text, i);
    || (s.removed == 1 && Across(q, out + s.kept, SubFrom(p, text, s.next).0))
    || SomeCutJoins(q, p, text, s.next, out + s.kept)
  }

  ghost predicate Touched(p: Shape, text: string, i: nat, out: string, x: nat, y: nat)
    decreases |text| - i
  {
    i < |text| &&
    var s := StepAt(p, text, i);
    || (s.removed == 1 && x <= |out + s.kept| <= y)
    || Touched(p, text, s.next, out + s.kept, x, y)
  }

  /** The window of `d` is a copy of one of `text`, together with its neighbours. */
  predicate CopiedFrom(p: Shape, text: string, k: nat, d: string, x: nat, y: nat) {
    && x <= y <= |d| && k + (y - x) <= |text| && text[k..k + (y - x)] == d[x..y]
    && (if x == 0 then k == 0
        else k > 0 && text[k - 1] == d[x - 1] && (p == AccessKeyId ==> MatchLength(p, text, k - 1) == 0))
    && (if y == |d| then k + (y - x) == |text| else k + (y - x) < |text| && text[k + (y - x)] == d[y])
  }

  lemma PassStep(p: Shape, text: string, i: nat, out: string)
    requires i < |text|
    ensures var s := StepAt(p, text, i);
      && out + SubFrom(p, text, i).0 == (out + s.kept) + SubFrom(p, text, s.next).0
      && (s.removed == 1 && IsCutting(p) ==> s.kept == "")
      && (s.removed == 0 ==> s.kept == text[i..s.next])
      && (s.removed == 0 && p == AccessKeyId ==> s.next == i + 1 && MatchLength(p, text, i) == 0)
  {
    hide MatchLength;
    OneStep(p, text, i);
  }

  lemma CopiedPiece(p: Shape, text: string, s: nat, i: nat, pre: string, rest: string, x: nat, y: nat) returns (k: nat)
    requires s <= i <= |text|
    requires p == AccessKeyId ==> forall j | s <= j < i :: MatchLength(p, text, j) == 0
    requires x > |pre| || (pre == "" && s == 0)
    requires x <= y && (y < |pre| + (i - s) || (y == |pre| + (i - s) && i == |text| && rest == ""))
    ensures CopiedFrom(p, text, k, pre + text[s..i] + rest, x, y)
  {
    hide MatchLength;
    k := s + (x - |pre|);
    var d := pre + text[s..i] + rest;
    assert forall j | |pre| <= j < |pre| + (i - s) :: d[j] == text[s + (j - |pre|)];
  }

  /** A window of what the pass leaves was in the text as it stands, or a cut touches it. `pre` ends
      at the last cut so far, and `text[s..i]` was copied since. */
  lemma {:induction false} CopiedOrTouched(p: Shape, text: string, s: nat, i: nat, pre: string, x: nat, y: nat)
    requires IsCutting(p) && s <= i <= |text|
    requires p == AccessKeyId ==> forall j | s <= j < i :: MatchLength(p, text, j) == 0
    requires x > |pre| || (pre == "" && s == 0)
    requires x <= y <= |pre + text[s..i] + SubFrom(p, text, i).0|
    ensures || Touched(p, text, i, pre + text[s..i], x, y)
            || exists k :: CopiedFrom(p, text, k, pre + text[s..i] + SubFrom(p, text, i).0, x, y)
    decreases |text| - i
  {
    hide StepAt, SubFrom, MatchLength, CopiedFrom;
    var out, rest := pre + text[s..i], SubFrom(p, text, i).0;
    EmptyRest(p, text);
    if y < |out| || i == |text| {
      var k := CopiedPiece(p, text, s, i, pre, rest, x, y);
    } else {
      PassStep(p, text, i, out);
      var step := StepAt(p, text, i);
      if step.removed == 0 {
        assert text[s..i] + text[i..step.next] == text[s..step.next];
        assert pre + text[s..step.next] == out + step.kept;
        CopiedOrTouched(p, text, s, step.next, pre, x, y);
      } else if x > |out| {
        assert out + step.kept == out + text[step.next..step.next] == out;
        CopiedOrTouched(p, text, step.next, step.next, out, x, y);
      }
    }
  }

  lemma {:induction false} TouchedIsJoined(q: Shape, p: Shape, text: string, i: nat, out: string, x: nat, y: nat)
    requires i <= |text| && Touched(p, text, i, out, x, y) && Occurs(q, out + SubFrom(p, text, i).0, x, y)
    ensures SomeCutJoins(q, p, text, i, out)
    decreases |text| - i
  {
    hide StepAt, SubFrom, Occurs;
    PassStep(p, text, i, out);
    var s := StepAt(p, text, i);
    if !(s.removed == 1 && x <= |out + s.kept| <= y) {
      TouchedIsJoined(q, p, text, s.next, out + s.kept, x, y);
    }
  }

  lemma {:induction false} JoinedIsPresent(q: Shape, p: Shape, text: string, i: nat, out: string)
    requires i <= |text| && SomeCutJoins(q, p, text, i, out)
    ensures Present(q, out + SubFrom(p, text, i).0)
    decreases |text| - i
  {
    hide StepAt, SubFrom, Occurs;
    PassStep(p, text, i, out);
    var s := StepAt(p, text, i);
    if !(s.removed == 1 && Across(q, out + s.kept, SubFrom(p, text, s.next).0)) {
      JoinedIsPresent(q, p, text, s.next, out + s.kept);
    }
  }

  lemma CopiedKeyId(p: Shape, text: string, k: nat, d: string, x: nat, y: nat)
    requires CopiedFrom(p, text, k, d, x, y) && Occurs(AccessKeyId, d, x, y)
    ensures KeyIdAt(text, k - 1) && Occurs(AccessKeyId, text, k, k + (y - x))
  {
    hide MatchLength;
    KeyIdCharacters(d, x - 1);
    var n := KEY_ID_LENGTH;
    assert d[x - 1..x - 1 + n] == [d[x - 1]] + d[x..y] + [d[y]];
    assert text[k - 1..k - 1 + n] == [text[k - 1]] + text[k..k + (y - x)] + [text[k + (y - x)]];
    KeyIdIsLocal(d, x - 1, text, k - 1);
  }

  lemma CopiedParam(p: Shape, text: string, k: nat, d: string, x: nat, y: nat)
    requires CopiedFrom(p, text, k, d, x, y) && Occurs(SigV4Param, d, x, y)
    ensures ParamAt(text, k)
  {
    hide MatchLength, SigV4NameLength, NameAt;
    NameShape(d, x);
    var n := SigV4NameLength(d, x);
    assert d[x..x + n] == d[x..y] + [d[y]];
    assert text[k..k + n] == text[k..k + (y - x)] + [text[k + (y - x)]];
    NameIsLocal(d, x, text, k);
  }

  lemma CopiedOccurs(q: Shape, p: Shape, text: string, k: nat, d: string, x: nat, y: nat)
    requires CopiedFrom(p, text, k, d, x, y) && Occurs(q, d, x, y)
    ensures Present(q, text) && !(q == AccessKeyId && p == AccessKeyId)
  {
    hide MatchLength, SigV4NameLength, NameAt;
    match q
    case AccessKeyId => CopiedKeyId(p, text, k, d, x, y);
    case SigV4Param =>
      CopiedParam(p, text, k, d, x, y);
      PresentParam(text);
      assert !NoParam(text);
    case SecretKey => assert Occurs(SecretKey, text, k, k + (y - x));
    case _ =>
  }

  /** What a pass leaves shows `q` exactly when one of its cuts joins one, provided the text had none
      or the pass itself cuts them out. */
  lemma LeftIffJoined(q: Shape, p: Shape, text: string)
    requires IsCutting(p) && (!Present(q, text) || (q == AccessKeyId && p == AccessKeyId))
    ensures Present(q, Excised(p, text).0) <==> SomeCutJoins(q, p, text, 0, "")
  {
    hide SubFrom, Occurs, CopiedFrom, Touched, SomeCutJoins;
    var d := Excised(p, text).0;
    assert "" + d == d && "" + text[0..0] + d == d && "" + text[0..0] == "";
    if SomeCutJoins(q, p, text, 0, "") {
      JoinedIsPresent(q, p, text, 0, "");
    } else if Present(q, d) {
      var x: nat, y: nat :| Occurs(q, d, x, y);
      OccursWithin(q, d, x, y);
      CopiedOrTouched(p, text, 0, 0, "", x, y);
      if Touched(p, text, 0, "", x, y) {
        TouchedIsJoined(q, p, text, 0, "", x, y);
      } else {
        var k :| CopiedFrom(p, text, k, d, x, y);
        CopiedOccurs(q, p, text, k, d, x, y);
      }
    }
  }

  // ----- the tidying neither completes nor hides an occurrence ----------------------------

  predicate IsKept(q: Shape) {
    q == SigV4Param || q == SecretKey || q == AccessKeyId
  }

  /** What the tidying cuts: separators after a separator, or before a delimiter or the end. */
  predicate TidyCut(a: string, m: string, b: string) {
    && m != "" && (forall k | 0 <= k < |m| :: Separators.Has(m[k]))
    && ((a != "" && Separators.Has(a[|a| - 1])) || b == "" || Delimits(b[0]))
  }

  lemma KeyIdOutlivesTidying(a: string, m: string, b: string, i: nat)
    requires KeyIdAt(a + m + b, i) && TidyCut(a, m, b)
    ensures !NoKeyId(a + b)
  {
    hide MatchLength;
    var s, t := a + m + b, a + b;
    KeyIdCharacters(s, i);
    assert s[|a|] == m[0];
    assert forall k | |a| <= k < |a| + |m| :: s[k] == m[k - |a|] && !SecretChars.Has(s[k]);
    var n := KEY_ID_LENGTH;
    assert SecretChars.Has(s[i]) && !SecretChars.Has(s[|a|]);
    assert i + n <= |a| || i >= |a| + |m|;
    var k := if i + n <= |a| then i else i - |m|;
    BesideCut(a, m, b, i, n);
    KeyIdIsLocal(s, i, t, k);
  }

  lemma SecretOutlivesTidying(a: string, m: string, b: string, i: nat, j: nat)
    requires SecretAt(a + m + b, i, j) && TidyCut(a, m, b)
    ensures Present(SecretKey, a + b)
  {
    hide MixesCharacterClasses, CharClass.All;
    var s, t := a + m + b, a + b;
    WindowCharacters(SecretChars, s, i, j);
    assert s[|a|] == m[0];
    assert forall k | |a| <= k < |a| + |m| :: s[k] == m[k - |a|] && !SecretChars.Has(s[k]);
    assert SecretChars.Has(s[i]) && !SecretChars.Has(s[|a|]);
    assert j <= |a| || i >= |a| + |m|;
    var d := if j <= |a| then 0 else |m|;
    BesideCut(a, m, b, i, j - i);
    assert a != "" ==> s[|a| - 1] == t[|a| - 1] == a[|a| - 1];
    assert b != "" ==> s[|a| + |m|] == t[|a|] == b[0];
    assert Maximal(t, i - d, j - d);
    assert Occurs(SecretKey, t, i - d, j - d);
  }

  lemma ParamOutlivesTidying(a: string, m: string, b: string, i: nat)
    requires ParamAt(a + m + b, i) && TidyCut(a, m, b)
    ensures !NoParam(a + b)
  {
    hide SigV4NameLength, NameAt;
    var s, t := a + m + b, a + b;
    NameShape(s, i);
    var n := SigV4NameLength(s, i);
    assert s[|a|] == m[0];
    assert forall k | |a| <= k < |a| + |m| :: s[k] == m[k - |a|] && !IsNameChar(s[k]);
    assert i + n <= |a| || i >= |a| + |m|;
    assert b != "" ==> s[|a| + |m|] == b[0];
    var k := if i + n <= |a| then i else i - |m|;
    assert k > 0 && t[k - 1] == if i == |a| + |m| then a[|a| - 1] else s[i - 1];
    BesideCut(a, m, b, i, n);
    NameIsLocal(s, i, t, k);
    assert ParamAt(t, k);
  }

  lemma OutlivesTidying(q: Shape, a: string, m: string, b: string)
    requires IsKept(q) && Present(q, a + m + b) && TidyCut(a, m, b)
    ensures Present(q, a + b)
  {
    hide MatchLength, SigV4NameLength, NameAt, TidyCut;
    var x: nat, y: nat :| Occurs(q, a + m + b, x, y);
    match q
    case AccessKeyId =>
      KeyIdOutlivesTidying(a, m, b, x - 1);
      PresentKeyId(a + b);
    case SecretKey => SecretOutlivesTidying(a, m, b, x, y);
    case SigV4Param =>
      ParamOutlivesTidying(a, m, b, x);
      PresentParam(a + b);
    case _ =>
  }

  lemma TidyingCutIsTidy(p: Shape, text: string, i: nat, out: string) returns (cut: string)
    requires IsTidying(p) && i < |text| && StepAt(p, text, i).removed == 1
    ensures var s := StepAt(p, text, i);
      text[i..s.next] == s.kept + cut && TidyCut(out + s.kept, cut, text[s.next..])
  {
    hide MatchLength, Accepts;
    var s := StepAt(p, text, i);
    cut := TidyingCut(p, text, i);
  }

  lemma {:induction false} TidyingKeeps(q: Shape, p: Shape, text: string, i: nat, out: string)
    requires IsKept(q) && IsTidying(p) && i <= |text| && Present(q, out + text[i..])
    ensures Present(q, out + SubFrom(p, text, i).0)
    decreases |text| - i
  {
    hide StepAt, SubFrom, Present, TidyCut;
    if i == |text| {
      EmptyRest(p, text);
      assert text[i..] == "";
    } else {
      PassStep(p, text, i, out);
      var s := StepAt(p, text, i);
      assert text[i..] == text[i..s.next] + text[s.next..];
      if s.removed == 1 {
        var cut := TidyingCutIsTidy(p, text, i, out);
        assert out + text[i..] == (out + s.kept) + cut + text[s.next..];
        OutlivesTidying(q, out + s.kept, cut, text[s.next..]);
      } else {
        assert out + text[i..] == (out + s.kept) + text[s.next..];
      }
      TidyingKeeps(q, p, text, s.next, out + s.kept);
    }
  }

  lemma TidyingAddsNothing(q: Shape, p: Shape, text: string)
    requires IsKept(q) && IsTidying(p) && !Present(q, text)
    ensures !Present(q, Excised(p, text).0)
  {
    hide SubFrom, Present;
    var d := Excised(p, text).0;
    assert "" + text[0..] == text && "" + d == d;
    match q
    case AccessKeyId =>
      PresentKeyId(text);
      PresentKeyId(d);
      TidyingKeepsNoKeyId(p, text, 0, "");
    case SecretKey =>
      PresentSecret(text);
      PresentSecret(d);
      TidyingKeepsNoSecretRun(p, text, 0, "");
    case SigV4Param =>
      PresentParam(text);
      PresentParam(d);
      TidyingCompletesNoParam(p, text, 0, "");
    case _ =>
  }

  lemma TidyingIsNeutral(q: Shape, p: Shape, text: string)
    requires IsKept(q) && IsTidying(p)
    ensures Present(q, Excised(p, text).0) <==> Present(q, text)
  {
    hide SubFrom, Present;
    var d := Excised(p, text).0;
    assert "" + text[0..] == text && "" + d == d;
    if Present(q, text) {
      TidyingKeeps(q, p, text, 0, "");
    } else {
      TidyingAddsNothing(q, p, text);
    }
  }

  /** The scrub leaves an occurrence exactly when its four passes do. */
  lemma OnlyThePassesMatter(q: Shape, text: string)
    requires IsKept(q)
    ensures Present(q, ScrubbedText(text).0) <==> Present(q, FourPasses(text).0)
  {
    hide SubFrom, Present, Excised;
    var d := FourPasses(text).0;
    TidyingIsNeutral(q, CollapseSeparators, d);
    TidyingIsNeutral(q, TrailingSeparators, Excised(CollapseSeparators, d).0);
  }

  // ----- a parameter outlives the later passes --------------------------------------------

  lemma NameEnds(s: string, i: nat)
    requires NameAt(s, i)
    ensures var n := SigV4NameLength(s, i);
      2 < n <= 21 && i + n <= |s| && s[i + 1] == '-' && s[i + n - 1] == '='
  {
    hide SigV4NameLength, NameAt;
    var k := WordOf(s, i);
    var w := Word(k);
    assert Word(0) == "x-amz-credential=" && Word(1) == "x-amz-signature=" && Word(2) == "x-amz-security-token=";
    assert FoldChar(s[i + 1]) == w[1] && FoldChar(s[i + (|w| - 1)]) == w[|w| - 1];
  }

  /** Twenty secret characters in a row do not fit into a parameter name. */
  lemma ParamOutlivesCut(a: string, m: string, b: string, i: nat)
    requires ParamAt(a + m + b, i) && |m| >= KEY_ID_LENGTH && forall k | 0 <= k < |m| :: SecretChars.Has(m[k])
    ensures !NoParam(a + b)
  {
    hide SigV4NameLength, NameAt;
    var s, t := a + m + b, a + b;
    NameEnds(s, i);
    var n := SigV4NameLength(s, i);
    assert forall k | |a| <= k < |a| + |m| :: s[k] == m[k - |a|] && SecretChars.Has(s[k]);
    assert !SecretChars.Has(s[i - 1]) && !SecretChars.Has(s[i + 1]) && !SecretChars.Has(s[i + n - 1]);
    assert i + n <= |a| || i - 1 >= |a| + |m|;
    var k := if i + n <= |a| then i else i - |m|;
    assert t[k - 1] == s[i - 1];
    BesideCut(a, m, b, i, n);
    NameIsLocal(s, i, t, k);
    assert ParamAt(t, k);
  }

  lemma CutIsSecret(p: Shape, text: string, i: nat)
    requires (p == SecretKey || p == AccessKeyId) && i < |text| && StepAt(p, text, i).removed == 1
    ensures var s := StepAt(p, text, i);
      s.next - i >= KEY_ID_LENGTH && forall k | i <= k < s.next :: SecretChars.Has(text[k])
  {
    hide Accepts;
    if p == SecretKey {
      WindowCharacters(SecretChars, text, i, i + SecretChars.Run(text, i));
    } else {
      KeyIdCharacters(text, i);
    }
  }

  lemma {:induction false} PassKeepsParam(p: Shape, text: string, i: nat, out: string)
    requires (p == SecretKey || p == AccessKeyId) && i <= |text| && !NoParam(out + text[i..])
    ensures !NoParam(out + SubFrom(p, text, i).0)
    decreases |text| - i
  {
    hide StepAt, SubFrom, NameAt, SigV4NameLength, CharClass.Has;
    if i == |text| {
      EmptyRest(p, text);
      assert text[i..] == "";
    } else {
      PassStep(p, text, i, out);
      var s := StepAt(p, text, i);
      assert text[i..] == text[i..s.next] + text[s.next..];
      if s.removed == 1 {
        CutIsSecret(p, text, i);
        assert out + text[i..] == (out + s.kept) + text[i..s.next] + text[s.next..];
        var x: nat :| ParamAt(out + text[i..], x);
        ParamOutlivesCut(out + s.kept, text[i..s.next], text[s.next..], x);
      } else {
        assert out + text[i..] == (out + s.kept) + text[s.next..];
      }
      PassKeepsParam(p, text, s.next, out + s.kept);
    }
  }

  lemma ParamAfterPass(p: Shape, text: string)
    requires p == SecretKey || p == AccessKeyId
    ensures Present(SigV4Param, Excised(p, text).0) <==>
            Present(SigV4Param, text) || SomeCutJoins(SigV4Param, p, text, 0, "")
  {
    hide SubFrom, Present, SomeCutJoins;
    var d := Excised(p, text).0;
    assert "" + text[0..] == text && "" + d == d;
    if SomeCutJoins(SigV4Param, p, text, 0, "") {
      JoinedIsPresent(SigV4Param, p, text, 0, "");
    } else if Present(SigV4Param, text) {
      PresentParam(text);
      PassKeepsParam(p, text, 0, "");
      PresentParam(d);
    } else {
      LeftIffJoined(SigV4Param, p, text);
    }
  }

  // ----- exactly what is left -------------------------------------------------------------

  function AfterFirst(text: string): string {
    Excised(SigV4Param, text).0
  }

  function AfterSecond(text: string): string {
    Excised(SessionToken, AfterFirst(text)).0
  }

  /** An access key id is left exactly when the last pass brings two pieces together that make up
      one. */
  lemma KeyIdLeftIffJoined(text: string)
    ensures !Free(AccessKeyId, ScrubbedText(text).0) <==>
            SomeCutJoins(AccessKeyId, AccessKeyId, BeforeLastPass(text), 0, "")
  {
    hide SubFrom, Present, SomeCutJoins, Free, Excised;
    OnlyThePassesMatter(AccessKeyId, text);
    LeftIffJoined(AccessKeyId, AccessKeyId, BeforeLastPass(text));
    PresentKeyId(ScrubbedText(text).0);
  }

  /** A secret-key run is left exactly when the last pass shortens or joins a run to one. */
  lemma SecretLeftIffJoined(text: string)
    ensures !Free(SecretKey, ScrubbedText(text).0) <==>
            SomeCutJoins(SecretKey, AccessKeyId, BeforeLastPass(text), 0, "")
  {
    hide SubFrom, Present, SomeCutJoins, Free, NoSecretRun;
    SecretPassLeavesNoSecretRun(AfterSecond(text), 0);
    PresentSecret(BeforeLastPass(text));
    OnlyThePassesMatter(SecretKey, text);
    LeftIffJoined(SecretKey, AccessKeyId, BeforeLastPass(text));
    PresentSecret(ScrubbedText(text).0);
  }

  /** A SigV4 parameter is left exactly when one of the three later passes joins one. */
  lemma ParamLeftIffJoined(text: string)
    ensures !Free(SigV4Param, ScrubbedText(text).0) <==>
            || SomeCutJoins(SigV4Param, SessionToken, AfterFirst(text), 0, "")
            || SomeCutJoins(SigV4Param, SecretKey, AfterSecond(text), 0, "")
            || SomeCutJoins(SigV4Param, AccessKeyId, BeforeLastPass(text), 0, "")
  {
    hide SubFrom, Present, SomeCutJoins, Free, NoParam;
    FirstPassLeavesNoParam(text, 0);
    PresentParam(AfterFirst(text));
    LeftIffJoined(SigV4Param, SessionToken, AfterFirst(text));
    ParamAfterPass(SecretKey, AfterSecond(text));
    ParamAfterPass(AccessKeyId, BeforeLastPass(text));
    OnlyThePassesMatter(SigV4Param, text);
    PresentParam(ScrubbedText(text).0);
  }

  /** Some cut of the scrub joins a credential shape. */
  ghost predicate SomethingJoined(text: string) {
    || SomeCutJoins(AccessKeyId, AccessKeyId, BeforeLastPass(text), 0, "")
    || SomeCutJoins(SecretKey, AccessKeyId, BeforeLastPass(text), 0, "")
    || SomeCutJoins(SigV4Param, SessionToken, AfterFirst(text), 0, "")
    || SomeCutJoins(SigV4Param, SecretKey, AfterSecond(text), 0, "")
    || SomeCutJoins(SigV4Param, AccessKeyId, BeforeLastPass(text), 0, "")
  }

  /** Scrubbing a scrubbed text changes nothing and reports nothing, exactly when no cut joined a
      shape the first time. */
  lemma IdempotentIffNothingJoined(text: string)
    ensures HasCredentialShape(ScrubbedText(text).0) <==> SomethingJoined(text)
    ensures ScrubbedText(ScrubbedText(text).0) == (ScrubbedText(text).0, 0) <==> !SomethingJoined(text)
  {
    hide SubFrom, Free, SomeCutJoins;
    var out := ScrubbedText(text).0;
    NoSessionTokenSurvives(text);
    KeyIdLeftIffJoined(text);
    SecretLeftIffJoined(text);
    ParamLeftIffJoined(text);
    ShapeReportedIffPresent(out);
    TextShrinksByItsRemovals(out);
  }

  // ----- the last pass can leave a secret -------------------------------------------------

  /** Two parts of one secret: lower-case letters, then a part with an upper-case letter and a digit. */
  predicate AreSecretParts(u: string, v: string) {
    && |u| > KEY_ID_LENGTH && |u| + |v| == SECRET_LENGTH
    && (forall k | 0 <= k < |u| :: IsLower(u[k])) && SecretChars.All(v)
    && (exists k | 0 <= k < |v| :: IsUpper(v[k])) && (exists k | 0 <= k < |v| :: IsDigit(v[k]))
  }

  predicate IsKeyId(id: string) {
    |id| == KEY_ID_LENGTH && KeyIdAt(id, 0)
  }

  lemma RunOfSixty(u: string, id: string, v: string)
    requires AreSecretParts(u, v) && IsKeyId(id)
    ensures var s := u + id + v; |s| == 60 && forall k | 0 <= k < 60 :: SecretChars.Has(s[k])
  {
    hide MatchLength;
    KeyIdCharacters(id, 0);
    var s := u + id + v;
    assert forall k | 0 <= k < |u| :: s[k] == u[k];
    assert forall k | 0 <= k < |id| :: s[|u| + k] == id[k];
    assert forall k | 0 <= k < |v| :: s[|u| + |id| + k] == v[k];
    forall k | 0 <= k < |s| ensures SecretChars.Has(s[k]) {
      if k < |u| {
        assert s[k] == u[k];
      } else if k < |u| + |id| {
        assert s[k] == id[k - |u|];
      } else {
        assert s[k] == v[k - |u| - |id|];
      }
    }
  }

  lemma LongRunIsNoSecret(s: string)
    requires |s| == 60 && forall k | 0 <= k < 60 :: SecretChars.Has(s[k])
    ensures Free(SecretKey, s) && Free(SessionToken, s) && NoParam(s)
  {
    hide SigV4NameLength, NameAt;
    RunOfAll(SecretChars, s, 0, 60);
    ShortTextHasNoToken(s);
    forall k | 0 <= k < 60 ensures MatchLength(SecretKey, s, k) == 0 {
      assert k > 0 ==> SecretChars.Has(s[k - 1]);
    }
  }

  lemma NoIdInTheFirstPart(u: string, id: string, v: string, k: nat)
    requires AreSecretParts(u, v) && k < |u|
    ensures MatchLength(AccessKeyId, u + id + v, k) == 0
  {
    var s := u + id + v;
    assert IsLower(s[k]) by { assert s[k] == u[k]; }
    assert k + 4 <= |s| ==> s[k..k + 4][0] == s[k];
  }

  lemma IdInTheMiddle(u: string, id: string, v: string)
    requires IsKeyId(id)
    ensures KeyIdAt(u + id + v, |u|)
  {
    hide MatchLength;
    var s := u + id + v;
    assert s[|u|..|u| + KEY_ID_LENGTH] == id == id[0..0 + KEY_ID_LENGTH];
    KeyIdIsLocal(id, 0, s, |u|);
  }

  lemma IdIsCut(u: string, id: string, v: string)
    requires AreSecretParts(u, v) && IsKeyId(id)
    ensures Excised(AccessKeyId, u + id + v).0 == u + v
  {
    hide SubFrom, MatchLength, StepAt, KeyIdAt;
    var s := u + id + v;
    forall k: nat | k < |u| ensures MatchLength(AccessKeyId, s, k) == 0 {
      NoIdInTheFirstPart(u, id, v, k);
    }
    IdInTheMiddle(u, id, v);
    CopyWithoutMatches(AccessKeyId, s, 0, |u|);
    KeyIdStep(s, |u|);
    OneStep(AccessKeyId, s, |u|);
    ShortRestHasNoKeyId(s, |u| + KEY_ID_LENGTH);
    assert s[0..|u|] == u && s[|u| + KEY_ID_LENGTH..] == v && u + ("" + v) == u + v;
  }

  lemma KeyIdStep(s: string, i: nat)
    requires i < |s| && KeyIdAt(s, i)
    ensures StepAt(AccessKeyId, s, i) == Step("", i + KEY_ID_LENGTH, 1)
  {
  }

  lemma PartsAreASecret(u: string, v: string)
    requires AreSecretParts(u, v)
    ensures SecretAt(u + v, 0, SECRET_LENGTH)
  {
    var s := u + v;
    assert s[0..SECRET_LENGTH] == s;
    assert IsLower(s[0]) by { assert s[0] == u[0]; }
    var i :| 0 <= i < |v| && IsUpper(v[i]);
    var j :| 0 <= j < |v| && IsDigit(v[j]);
    assert s[|u| + i] == v[i] && s[|u| + j] == v[j];
    forall k | 0 <= k < |s| ensures SecretChars.Has(s[k]) {
      assert s[k] == if k < |u| then u[k] else v[k - |u|];
    }
  }

  /** A run of 60 that mixes the classes and holds an access key id is no secret key, until the id is
      cut out: what is left of it is one. */
  lemma LastPassCanLeaveASecret(u: string, id: string, v: string)
    requires AreSecretParts(u, v) && IsKeyId(id)
    ensures !Free(SecretKey, ScrubbedText(u + id + v).0)
  {
    hide SubFrom, Free, NoParam, Present, AreSecretParts, IsKeyId, SecretAt;
    var text := u + id + v;
    RunOfSixty(u, id, v);
    LongRunIsNoSecret(text);
    ParamsAreFilterless(text);
    NothingExcised(SigV4Param, text);
    NothingExcised(SessionToken, text);
    NothingExcised(SecretKey, text);
    IdIsCut(u, id, v);
    PartsAreASecret(u, v);
    SecretIsPresent(u + v);
    OnlyThePassesMatter(SecretKey, text);
    PresentSecret(ScrubbedText(text).0);
  }

  lemma SecretIsPresent(s: string)
    requires SecretAt(s, 0, SECRET_LENGTH)
    ensures Present(SecretKey, s)
  {
    assert Occurs(SecretKey, s, 0, SECRET_LENGTH);
  }
}
