/** From the `Authorization` header to one scope and one subject, or to nothing. */
module Identity {
  import opened Text
  import opened Wrappers
  import opened Json

  const DEFAULT_KNOWN_SCOPES: set<string> := {"payments-core", "billing-internal"}

  /** `text.split(",")` */
  function SplitCommas(text: string): (parts: seq<string>)
    ensures parts != []
  {
    if text == "" then [""]
    else
      var rest := SplitCommas(text[1..]);
      if text[0] == ',' then [""] + rest else [[text[0]] + rest[0]] + rest[1..]
  }

  /** `",".join(parts)` */
  function JoinCommas(parts: seq<string>): string
    requires parts != []
  {
    if |parts| == 1 then parts[0] else parts[0] + "," + JoinCommas(parts[1..])
  }

  /** The parts are the ones the setting was joined from: none holds a comma. */
  lemma {:induction false} SplitUndoesJoin(text: string)
    ensures var parts := SplitCommas(text);
      JoinCommas(parts) == text && forall i | 0 <= i < |parts| :: ',' !in parts[i]
    decreases |text|
  {
    if text != "" {
      var rest := SplitCommas(text[1..]);
      SplitUndoesJoin(text[1..]);
      var parts := SplitCommas(text);
      if text[0] == ',' {
        assert parts[1..] == rest;
      } else {
        assert parts[1..] == rest[1..];
        if |rest| > 1 {
          var first, tail := [text[0]], JoinCommas(rest[1..]);
          assert first + (rest[0] + "," + tail) == (first + rest[0]) + "," + tail;
        }
      }
      assert text == [text[0]] + text[1..];
    }
  }

  /** The non-blank parts of a comma-separated setting, stripped. */
  function CommaSet(raw: string): set<string> {
    set i | 0 <= i < |SplitCommas(raw)| && Strip(SplitCommas(raw)[i]) != "" :: Strip(SplitCommas(raw)[i])
  }

  /** The operator's scope list, or the built-in one when it names none. */
  function KnownScopes(raw: string): set<string> {
    if CommaSet(raw) == {} then DEFAULT_KNOWN_SCOPES else CommaSet(raw)
  }

  /** A scope is known exactly when the operator lists it, or lists nothing and it is one of the two
      built-in ones. */
  lemma KnownScopeIff(raw: string, scope: string)
    ensures scope in KnownScopes(raw) <==>
      var parts := SplitCommas(raw);
      || (exists i | 0 <= i < |parts| :: !Blank(parts[i]) && Strip(parts[i]) == scope)
      || ((forall i | 0 <= i < |parts| :: Blank(parts[i])) && (scope == "payments-core" || scope == "billing-internal"))
  {
    hide Strip, SplitCommas, Blank;
    var parts := SplitCommas(raw);
    forall i | 0 <= i < |parts| && !Blank(parts[i]) ensures Strip(parts[i]) in CommaSet(raw) {
    }
  }

  /** Every known scope is a text that stripping leaves alone, whatever the operator wrote. */
  lemma KnownScopesAreStripped(raw: string, scope: string)
    requires scope in KnownScopes(raw)
    ensures Strip(scope) == scope && !Blank(scope)
  {
    if CommaSet(raw) != {} {
      var i :| 0 <= i < |SplitCommas(raw)| && scope == Strip(SplitCommas(raw)[i]) && scope != "";
      StripIsIdempotent(SplitCommas(raw)[i]);
    } else {
      assert scope == "payments-core" || scope == "billing-internal";
      assert !IsSpace(scope[0]) && !IsSpace(scope[|scope| - 1]);
    }
  }

  /** The known scopes among the group names of the claim. */
  function Matches(groups: seq<Json>, known: set<string>): set<string> {
    set i | 0 <= i < |groups| && groups[i].Str? && groups[i].s in known :: groups[i].s
  }

  lemma OnlyElement(s: set<string>, a: string, b: string)
    requires |s| == 1 && a in s && b in s
    ensures a == b
  {
    if a != b {
      assert {a, b} <= s;
      CardinalityIsMonotone({a, b}, s);
    }
  }

  lemma {:induction false} CardinalityIsMonotone(small: set<string>, big: set<string>)
    requires small <= big
    ensures |small| <= |big|
    decreases |small|
  {
    if small != {} {
      var x :| x in small;
      CardinalityIsMonotone(small - {x}, big - {x});
    }
  }

  function TheElement(s: set<string>): (e: string)
    requires |s| == 1
    ensures s == {e}
  {
    assert forall a, b | a in s && b in s :: a == b by {
      forall a, b | a in s && b in s ensures a == b { OnlyElement(s, a, b); }
    }
    assert s != {};
    var e :| e in s;
    e
  }

  function ScopeFromGroups(groups: Json, known: set<string>): Option<string> {
    if !groups.Arr? || groups.items == [] then None
    else if |Matches(groups.items, known)| != 1 then None
    else Some(TheElement(Matches(groups.items, known)))
  }

  /** The groups are a list in which `scope` occurs, wherever and however often, and no other known
      scope does. */
  predicate OnlyKnownGroup(groups: Json, known: set<string>, scope: string) {
    && groups.Arr? && scope in known
    && (exists i | 0 <= i < |groups.items| :: groups.items[i] == Str(scope))
    && forall i, other | 0 <= i < |groups.items| && other in known && groups.items[i] == Str(other) :: other == scope
  }

  lemma MatchesAre(items: seq<Json>, known: set<string>, scope: string)
    ensures scope in Matches(items, known) <==>
      scope in known && exists i | 0 <= i < |items| :: items[i] == Str(scope)
  {
    if scope in known && exists i | 0 <= i < |items| :: items[i] == Str(scope) {
      var i :| 0 <= i < |items| && items[i] == Str(scope);
      assert items[i].Str? && items[i].s in known;
    }
  }

  lemma OnlyMatchIff(groups: Json, known: set<string>, scope: string)
    ensures OnlyKnownGroup(groups, known, scope) <==> groups.Arr? && Matches(groups.items, known) == {scope}
  {
    if groups.Arr? {
      MatchesAre(groups.items, known, scope);
      if OnlyKnownGroup(groups, known, scope) {
        forall other | other in Matches(groups.items, known) ensures other == scope {
          MatchesAre(groups.items, known, other);
        }
      }
      if Matches(groups.items, known) == {scope} {
        assert scope in Matches(groups.items, known);
        forall i, other | 0 <= i < |groups.items| && other in known && groups.items[i] == Str(other)
          ensures other == scope
        {
          MatchesAre(groups.items, known, other);
        }
      }
    }
  }

  /** A scope is served exactly when it is the one known scope among the groups. */
  lemma ScopeIffOnlyKnownGroup(groups: Json, known: set<string>, scope: string)
    ensures ScopeFromGroups(groups, known) == Some(scope) <==> OnlyKnownGroup(groups, known, scope)
  {
    hide OnlyKnownGroup, Matches;
    OnlyMatchIff(groups, known, scope);
    if groups.Arr? && Matches(groups.items, known) == {scope} {
      assert |{scope}| == 1;
      NoItemsNoMatches(groups.items, known, scope);
      assert TheElement(Matches(groups.items, known)) in {scope};
    }
  }

  lemma NoItemsNoMatches(items: seq<Json>, known: set<string>, scope: string)
    requires Matches(items, known) == {scope}
    ensures items != []
  {
    assert scope in Matches(items, known);
  }

  function SubjectFromClaims(claims: seq<Entry>): Option<string> {
    var subject := Get(claims, "sub", Null);
    if !subject.Str? || Strip(subject.s) == "" then None else Some(Strip(subject.s))
  }

  predicate ClaimsAcceptable(claims: seq<Entry>, allowedClients: set<string>) {
    && Get(claims, "token_use", Null) == Str("access")
    && Get(claims, "client_id", Null).Str?
    && Get(claims, "client_id", Null).s in allowedClients
  }

  /** `"bearer <token>"` in any letter case. */
  function BearerToken(authorization: Json): Option<string> {
    if !authorization.Str? then None
    else
      var stripped := Strip(authorization.s);
      if !("bearer " <= Lower(stripped)) then None
      else
        var token := Strip(stripped[7..]);
        if token == "" then None else Some(token)
  }

  /** A token is found exactly behind the word "bearer", in any letter case, and a space. */
  lemma BearerTokenIff(authorization: Json, token: string)
    ensures BearerToken(authorization) == Some(token) <==>
      && authorization.Str?
      && (var text := Strip(authorization.s);
          && |text| > 7 && SameButCase(text[..7], "bearer ")
          && token == Strip(text[7..]) && token != "")
  {
    hide Strip, Lower, SameButCase;
    if authorization.Str? {
      BearerPrefix(Strip(authorization.s));
    }
  }

  lemma BearerPrefix(text: string)
    ensures "bearer " <= Lower(text) <==> |text| >= 7 && SameButCase(text[..7], "bearer ")
    ensures |text| == 7 ==> Strip(text[7..]) == ""
  {
    hide SameButCase, LowerChar, Strip;
    assert Blank("");
    if |text| >= 7 {
      assert Lower(text)[..7] == Lower(text[..7]);
      SameButCaseIffSameLower(text[..7], "bearer ");
      BearerIsLower();
    }
  }

  lemma BearerIsLower()
    ensures Lower("bearer ") == "bearer "
  {
    assert forall i | 0 <= i < |"bearer "| :: !IsUpper("bearer "[i]);
  }

  /** What the signature, issuer and expiry checks say about a token at a time. */
  type Verifier = (string, nat) -> Option<Json>

  datatype VerifiedIdentity = VerifiedIdentity(servedScope: string, subject: string)

  /** The claims of an accepted token. */
  function AcceptedClaims(verify: Verifier, allowedClients: set<string>, authorization: Json, now: nat)
    : Option<seq<Entry>>
  {
    var token := BearerToken(authorization);
    if token.None? then None
    else
      var claims := verify(token.value, now);
      if claims.Some? && claims.value.Obj? && ClaimsAcceptable(claims.value.entries, allowedClients) then
          Some(claims.value.entries)
      else None
  }

  function IdentityFrom(verify: Verifier, knownRaw: string, clientsRaw: string, authorization: Json, now: nat)
    : Option<VerifiedIdentity>
  {
    var claims := AcceptedClaims(verify, CommaSet(clientsRaw), authorization, now);
    if claims.None? then None
    else
      var scope := ScopeFromGroups(Get(claims.value, "cognito:groups", Null), KnownScopes(knownRaw));
      var subject := SubjectFromClaims(claims.value);
      if scope.None? || scope.value == "" || subject.None? then None
      else Some(VerifiedIdentity(scope.value, subject.value))
  }

  /** What a verified set of claims must say for an identity: an access token, of a listed client,
      for one known scope and a subject with content. */
  predicate Grants(claims: seq<Entry>, known: set<string>, clients: set<string>, id: VerifiedIdentity) {
    && Get(claims, "token_use", Null) == Str("access")
    && (exists client | client in clients :: Get(claims, "client_id", Null) == Str(client))
    && OnlyKnownGroup(Get(claims, "cognito:groups", Null), known, id.servedScope)
    && (var subject := Get(claims, "sub", Null);
        subject.Str? && !Blank(subject.s) && id.subject == Strip(subject.s))
  }

  lemma GrantsAreAccepted(claims: seq<Entry>, known: set<string>, clients: set<string>, id: VerifiedIdentity)
    ensures Grants(claims, known, clients, id) <==>
      && ClaimsAcceptable(claims, clients)
      && ScopeFromGroups(Get(claims, "cognito:groups", Null), known) == Some(id.servedScope)
      && SubjectFromClaims(claims) == Some(id.subject)
  {
    hide Strip, Blank, Get, OnlyKnownGroup, ScopeFromGroups;
    ScopeIffOnlyKnownGroup(Get(claims, "cognito:groups", Null), known, id.servedScope);
  }

  /** An identity is granted exactly when the header holds a token that verifies to claims which
      grant it, so both halves come from that one set of claims. */
  lemma IdentityIff(verify: Verifier, knownRaw: string, clientsRaw: string, authorization: Json, now: nat,
      id: VerifiedIdentity)
    ensures IdentityFrom(verify, knownRaw, clientsRaw, authorization, now) == Some(id) <==>
      var token := BearerToken(authorization);
      && token.Some?
      && verify(token.value, now).Some? && verify(token.value, now).value.Obj?
      && Grants(verify(token.value, now).value.entries, KnownScopes(knownRaw), CommaSet(clientsRaw), id)
  {
    hide *;
    var token := BearerToken(authorization);
    IdentityFromClaims(verify, knownRaw, clientsRaw, authorization, now, id);
    if token.Some? && verify(token.value, now).Some? && verify(token.value, now).value.Obj? {
      GrantsAreAccepted(verify(token.value, now).value.entries, KnownScopes(knownRaw), CommaSet(clientsRaw), id);
    }
  }

  lemma IdentityFromClaims(verify: Verifier, knownRaw: string, clientsRaw: string, authorization: Json, now: nat,
      id: VerifiedIdentity)
    ensures IdentityFrom(verify, knownRaw, clientsRaw, authorization, now) == Some(id) <==>
      var token := BearerToken(authorization);
      && token.Some?
      && verify(token.value, now).Some? && verify(token.value, now).value.Obj?
      && (var claims := verify(token.value, now).value.entries;
          && ClaimsAcceptable(claims, CommaSet(clientsRaw))
          && ScopeFromGroups(Get(claims, "cognito:groups", Null), KnownScopes(knownRaw)) == Some(id.servedScope)
          && SubjectFromClaims(claims) == Some(id.subject))
  {
    hide ClaimsAcceptable, ScopeFromGroups, SubjectFromClaims, BearerToken, Get, KnownScopes, CommaSet;
    var accepted := AcceptedClaims(verify, CommaSet(clientsRaw), authorization, now);
    if accepted.Some? {
      var groups := Get(accepted.value, "cognito:groups", Null);
      if ScopeFromGroups(groups, KnownScopes(knownRaw)).Some? {
        ScopesHaveContent(groups, knownRaw);
      }
    }
  }

  lemma ScopesHaveContent(groups: Json, knownRaw: string)
    requires ScopeFromGroups(groups, KnownScopes(knownRaw)).Some?
    ensures ScopeFromGroups(groups, KnownScopes(knownRaw)).value in KnownScopes(knownRaw)
    ensures ScopeFromGroups(groups, KnownScopes(knownRaw)).value != ""
  {
    hide KnownScopes, ScopeFromGroups;
    var scope := ScopeFromGroups(groups, KnownScopes(knownRaw)).value;
    ScopeIffOnlyKnownGroup(groups, KnownScopes(knownRaw), scope);
    KnownScopesAreStripped(knownRaw, scope);
  }

  lemma ServedScopeIsKnown(verify: Verifier, knownRaw: string, clientsRaw: string, authorization: Json, now: nat)
    ensures var id := IdentityFrom(verify, knownRaw, clientsRaw, authorization, now);
      id.Some? ==> id.value.servedScope in KnownScopes(knownRaw)
  {
    hide *;
    var id := IdentityFrom(verify, knownRaw, clientsRaw, authorization, now);
    if id.Some? {
      IdentityIff(verify, knownRaw, clientsRaw, authorization, now, id.value);
      GrantsKnownScopes(verify(BearerToken(authorization).value, now).value.entries, KnownScopes(knownRaw),
          CommaSet(clientsRaw), id.value);
    }
  }

  lemma GrantsKnownScopes(claims: seq<Entry>, known: set<string>, clients: set<string>, id: VerifiedIdentity)
    requires Grants(claims, known, clients, id)
    ensures id.servedScope in known
  {
  }

  /** Without a client allow-list no token is accepted. */
  lemma NoClientsNoIdentity(verify: Verifier, knownRaw: string, clientsRaw: string, authorization: Json, now: nat)
    requires CommaSet(clientsRaw) == {}
    ensures IdentityFrom(verify, knownRaw, clientsRaw, authorization, now).None?
  {
  }
}
