/** What the two tidying passes leave of the separators around an excised query parameter. */
module Tidying {
  import opened Text
  import opened CredentialShapes

  predicate IsSeparator(c: char) {
    c == '?' || c == '&'
  }

  /** The white space, quotes and angle brackets that end a URL in a text. */
  predicate EndsUrl(c: char) {
    IsSpace(c) || c in "\"'<>"
  }

  /** No `&` stands behind a `?`, and no separator at the end of a URL. */
  predicate IsTidy(s: string) {
    && (forall i | 0 <= i < |s| - 1 :: !(s[i] == '?' && s[i + 1] == '&'))
    && (forall i | 0 <= i < |s| && IsSeparator(s[i]) :: i + 1 < |s| && !EndsUrl(s[i + 1]))
  }

  /** The text without any separator. */
  function Content(s: string): string {
    if s == "" then "" else if IsSeparator(s[0]) then Content(s[1..]) else [s[0]] + Content(s[1..])
  }

  // ----- the two passes, from the right ---------------------------------------------------

  function WithoutLeadingAmpersands(s: string): (r: string)
    ensures |r| <= |s|
    ensures r == "" || r[0] != '&'
  {
    if s != "" && s[0] == '&' then WithoutLeadingAmpersands(s[1..]) else s
  }

  /** Every `&` behind a `?` gone. */
  function Collapsed(s: string): string
    decreases |s|
  {
    if s == "" then ""
    else if s[0] == '?' then "?" + Collapsed(WithoutLeadingAmpersands(s[1..]))
    else [s[0]] + Collapsed(s[1..])
  }

  /** Every separator at the end of a URL gone, from the last one back. */
  function Trimmed(s: string): string {
    if s == "" then ""
    else
      var rest := Trimmed(s[1..]);
      if IsSeparator(s[0]) && (rest == "" || EndsUrl(rest[0])) then rest else [s[0]] + rest
  }

  lemma SameClasses(c: char)
    ensures Separators.Has(c) <==> IsSeparator(c)
    ensures Delimits(c) <==> EndsUrl(c)
    ensures Ampersand.Has(c) <==> c == '&'
  {
  }

  lemma {:induction false} AmpersandRun(text: string, i: nat)
    requires i <= |text|
    ensures WithoutLeadingAmpersands(text[i..]) == text[i + Ampersand.Run(text, i)..]
    decreases |text| - i
  {
    if i < |text| && text[i] == '&' {
      assert text[i..][1..] == text[i + 1..];
      AmpersandRun(text, i + 1);
    }
  }

  lemma CollapseStep(text: string, i: nat)
    requires i < |text|
    ensures var s := StepAt(CollapseSeparators, text, i);
      s.kept == [text[i]] && s.next == if text[i] == '?' then i + 1 + Ampersand.Run(text, i + 1) else i + 1
  {
  }

  lemma {:induction false} CollapsePass(text: string, i: nat)
    requires i <= |text|
    ensures SubFrom(CollapseSeparators, text, i).0 == Collapsed(text[i..])
    decreases |text| - i
  {
    hide StepAt, SubFrom, CharClass.Run;
    if i == |text| {
      EmptyRest(CollapseSeparators, text);
    } else {
      OneStep(CollapseSeparators, text, i);
      CollapseStep(text, i);
      assert text[i..][1..] == text[i + 1..] && text[i..][0] == text[i];
      AmpersandRun(text, i + 1);
      CollapsePass(text, StepAt(CollapseSeparators, text, i).next);
    }
  }

  lemma RunStep(text: string, i: nat)
    requires i < |text|
    ensures Separators.Run(text, i) == if IsSeparator(text[i]) then 1 + Separators.Run(text, i + 1) else 0
  {
  }

  lemma TrimmedStep(text: string, i: nat)
    requires i < |text|
    ensures var rest := Trimmed(text[i + 1..]);
      Trimmed(text[i..]) ==
      if IsSeparator(text[i]) && (rest == "" || EndsUrl(rest[0])) then rest else [text[i]] + rest
    ensures EndsUrl(text[i]) ==> !IsSeparator(text[i])
  {
    assert text[i..][1..] == text[i + 1..] && text[i..][0] == text[i];
  }

  lemma NothingToTrim(text: string)
    ensures Trimmed(text[|text|..]) == "" && Separators.Run(text, |text|) == 0
  {
  }

  /** A separator goes exactly when its run ends a URL. */
  lemma {:induction false} RunBeforeEnd(text: string, i: nat)
    requires i <= |text|
    ensures var end := i + Separators.Run(text, i);
      var ends := end == |text| || EndsUrl(text[end]);
      && (ends ==> Trimmed(text[i..]) == Trimmed(text[end..]))
      && (!ends && i < end ==> Trimmed(text[i..]) == [text[i]] + Trimmed(text[i + 1..]))
      && (!ends ==> Trimmed(text[i..]) != "" && Trimmed(text[i..])[0] == text[i])
      && (ends ==> Trimmed(text[end..]) == "" || EndsUrl(Trimmed(text[end..])[0]))
    decreases |text| - i
  {
    hide Trimmed, CharClass.Run, CharClass.Has, CharClass.All, EndsUrl, IsSeparator;
    if i == |text| {
      NothingToTrim(text);
    } else {
      RunStep(text, i);
      TrimmedStep(text, i);
      if IsSeparator(text[i]) {
        RunBeforeEnd(text, i + 1);
        var end := i + Separators.Run(text, i);
        if end < |text| && !EndsUrl(text[end]) {
          NeitherEnds(text, i + 1, end);
        }
      }
    }
  }

  lemma NeitherEnds(text: string, i: nat, end: nat)
    requires i <= end < |text| && end == i + Separators.Run(text, i) && !EndsUrl(text[end])
    ensures !EndsUrl(text[i])
  {
    if i < end {
      RunStep(text, i);
    }
  }

  lemma TrailingStep(text: string, i: nat)
    requires i < |text|
    ensures var s, end := StepAt(TrailingSeparators, text, i), i + Separators.Run(text, i);
      if i < end && (end == |text| || EndsUrl(text[end])) then s.kept == "" && s.next == end
      else s.kept == [text[i]] && s.next == i + 1
  {
    hide CharClass.Run;
    var end := i + Separators.Run(text, i);
    if end < |text| {
      SameClasses(text[end]);
    }
  }

  lemma {:induction false} TrailingPass(text: string, i: nat)
    requires i <= |text|
    ensures SubFrom(TrailingSeparators, text, i).0 == Trimmed(text[i..])
    decreases |text| - i
  {
    hide StepAt, SubFrom, CharClass.Run;
    if i == |text| {
      EmptyRest(TrailingSeparators, text);
    } else {
      OneStep(TrailingSeparators, text, i);
      TrailingStep(text, i);
      RunBeforeEnd(text, i);
      assert text[i..][1..] == text[i + 1..] && text[i..][0] == text[i];
      TrailingPass(text, StepAt(TrailingSeparators, text, i).next);
      SameClasses(text[i]);
    }
  }

  /** The two passes as the code runs them are the two functions. */
  lemma PassesTidy(text: string)
    ensures Tidied(text) == Trimmed(Collapsed(text))
  {
    hide SubFrom, Trimmed, Collapsed;
    CollapsePass(text, 0);
    assert text[0..] == text;
    var collapsed := Excised(CollapseSeparators, text).0;
    TrailingPass(collapsed, 0);
    assert collapsed[0..] == collapsed;
  }

  // ----- what is left ---------------------------------------------------------------------

  predicate NoPair(s: string) {
    forall i | 0 <= i < |s| - 1 :: !(s[i] == '?' && s[i + 1] == '&')
  }

  predicate NoEnd(s: string) {
    forall i | 0 <= i < |s| && IsSeparator(s[i]) :: i + 1 < |s| && !EndsUrl(s[i + 1])
  }

  lemma InFront(c: char, rest: string)
    requires NoPair(rest)
    ensures NoPair([c] + rest) <==> !(c == '?' && rest != "" && rest[0] == '&')
    ensures NoEnd(rest) ==> (NoEnd([c] + rest) <==> (IsSeparator(c) ==> rest != "" && !EndsUrl(rest[0])))
  {
    var s := [c] + rest;
    assert forall i | 1 <= i < |s| :: s[i] == rest[i - 1];
    if c == '?' && rest != "" && rest[0] == '&' {
      assert s[0] == '?' && s[1] == '&';
    }
    if NoEnd(rest) && (IsSeparator(c) ==> rest != "" && !EndsUrl(rest[0])) {
      forall i | 0 <= i < |s| && IsSeparator(s[i]) ensures i + 1 < |s| && !EndsUrl(s[i + 1]) {
        assert i > 0 ==> IsSeparator(rest[i - 1]) && !EndsUrl(rest[i]);
        assert i == 0 ==> s[1] == rest[0];
      }
    }
    if NoEnd(s) && IsSeparator(c) {
      assert IsSeparator(s[0]) && !EndsUrl(s[1]) && s[1] == rest[0];
    }
  }

  lemma {:induction false} CollapsedHasNoPair(s: string)
    ensures NoPair(Collapsed(s))
    ensures if s == "" then Collapsed(s) == "" else Collapsed(s) != "" && Collapsed(s)[0] == s[0]
    decreases |s|
  {
    hide NoPair, WithoutLeadingAmpersands;
    if s == "" {
      EmptyIsTidy();
    } else {
      var after := if s[0] == '?' then WithoutLeadingAmpersands(s[1..]) else s[1..];
      CollapsedHasNoPair(after);
      InFront(s[0], Collapsed(after));
    }
  }

  lemma EmptyIsTidy()
    ensures NoPair("") && NoEnd("")
  {
  }

  lemma {:induction false} TrimmedIsTidy(s: string)
    requires NoPair(s)
    ensures NoPair(Trimmed(s)) && NoEnd(Trimmed(s))
    ensures Trimmed(s) == "" || (s != "" && Trimmed(s)[0] == s[0]) || EndsUrl(Trimmed(s)[0])
    decreases |s|
  {
    hide NoEnd;
    if s == "" {
      EmptyIsTidy();
    } else {
      assert NoPair(s[1..]) by {
        forall i | 0 <= i < |s[1..]| - 1 ensures !(s[1..][i] == '?' && s[1..][i + 1] == '&') {
          assert s[1..][i] == s[i + 1] && s[1..][i + 1] == s[i + 1 + 1];
        }
      }
      TrimmedIsTidy(s[1..]);
      InFront(s[0], Trimmed(s[1..]));
    }
  }

  lemma {:induction false} ContentOfCons(c: char, rest: string)
    ensures Content([c] + rest) == if IsSeparator(c) then Content(rest) else [c] + Content(rest)
  {
    assert ([c] + rest)[1..] == rest;
  }

  lemma {:induction false} AmpersandsAreNoContent(s: string)
    ensures Content(WithoutLeadingAmpersands(s)) == Content(s)
    decreases |s|
  {
    if s != "" && s[0] == '&' {
      AmpersandsAreNoContent(s[1..]);
    }
  }

  lemma {:induction false} CollapsedKeepsContent(s: string)
    ensures Content(Collapsed(s)) == Content(s)
    decreases |s|
  {
    hide WithoutLeadingAmpersands;
    if s != "" {
      var after := if s[0] == '?' then WithoutLeadingAmpersands(s[1..]) else s[1..];
      AmpersandsAreNoContent(s[1..]);
      CollapsedKeepsContent(after);
      ContentOfCons(s[0], Collapsed(after));
    }
  }

  lemma {:induction false} TrimmedKeepsContent(s: string)
    ensures Content(Trimmed(s)) == Content(s)
    decreases |s|
  {
    if s != "" {
      TrimmedKeepsContent(s[1..]);
      ContentOfCons(s[0], Trimmed(s[1..]));
    }
  }

  lemma {:induction false} TidyStays(s: string)
    requires NoPair(s) && NoEnd(s)
    ensures Collapsed(s) == s && Trimmed(s) == s
    decreases |s|
  {
    if s != "" {
      var rest := s[1..];
      assert s == [s[0]] + rest;
      assert forall i | 0 <= i < |rest| :: rest[i] == s[i + 1];
      TidyStays(rest);
      if IsSeparator(s[0]) {
        assert rest[0] == s[1];
      }
    }
  }

  /** Tidying leaves no debris of an excised parameter, keeps every other character in its place in
      the text, and leaves a tidy text alone. */
  lemma TidyingTidies(text: string)
    ensures IsTidy(Tidied(text)) && Content(Tidied(text)) == Content(text)
    ensures IsTidy(text) ==> Tidied(text) == text
  {
    hide Tidied, Trimmed, Collapsed, Content, IsSeparator, EndsUrl;
    PassesTidy(text);
    CollapsedHasNoPair(text);
    TrimmedIsTidy(Collapsed(text));
    CollapsedKeepsContent(text);
    TrimmedKeepsContent(Collapsed(text));
    if IsTidy(text) {
      TidyStays(text);
    }
  }

  /** A text from which something was excised carries no separator debris. */
  lemma ScrubbedTextIsTidy(text: string)
    ensures HasCredentialShape(text) ==> IsTidy(ScrubbedText(text).0)
    ensures Content(ScrubbedText(text).0) == Content(FourPasses(text).0)
  {
    hide Tidied, FourPasses, IsTidy, Content;
    TidyingTidies(FourPasses(text).0);
  }
}
