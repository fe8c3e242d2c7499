/** The session policy, the two role policies and the trust policy, and what each alone confines. */
module ScopedPolicies {
  import opened Iam

  const LEADING_KEYS := "dynamodb:LeadingKeys"
  const PRINCIPAL_TAG := "aws:PrincipalTag/scope"
  const REQUEST_TAG := "aws:RequestTag/scope"
  const CURRENT_TIME := "aws:CurrentTime"

  const GET_ITEM := "dynamodb:GetItem"
  const QUERY := "dynamodb:Query"
  const UPDATE_ITEM := "dynamodb:UpdateItem"
  const READ_ACTIONS := [GET_ITEM, QUERY]
  const WRITE_ACTIONS := [UPDATE_ITEM]

  const ASSUME_ROLE := "sts:AssumeRole"
  const TAG_SESSION := "sts:TagSession"
  const SET_SOURCE_IDENTITY := "sts:SetSourceIdentity"

  function SessionPolicy(scope: string, tableArn: string, actions: seq<string>, expiresAt: int): Policy {
    [Statement(Allow, [], actions, [tableArn],
       [ForAllStringEquals(LEADING_KEYS, [Literal(scope)]),
        NullCheck(LEADING_KEYS, false),
        DateLessThan(CURRENT_TIME, expiresAt)])]
  }

  function ScopeTagConditions(): seq<Condition> {
    [ForAllStringLike(LEADING_KEYS, [Variable(PRINCIPAL_TAG)]),
     NullCheck(LEADING_KEYS, false),
     NullCheck(PRINCIPAL_TAG, false)]
  }

  function ReadRolePolicy(tableArn: string): Policy {
    [Statement(Allow, [], READ_ACTIONS, [tableArn], ScopeTagConditions()),
     Statement(Deny, [], [QUERY], [tableArn + "/index/*"], [])]
  }

  function WriteRolePolicy(tableArn: string): Policy {
    [Statement(Allow, [], WRITE_ACTIONS, [tableArn], ScopeTagConditions())]
  }

  function TrustPolicy(execRoleArns: seq<string>): Policy {
    [Statement(Allow, execRoleArns, [ASSUME_ROLE, TAG_SESSION], [], [StringLike(REQUEST_TAG, Literal("*"))]),
     Statement(Allow, execRoleArns, [SET_SOURCE_IDENTITY], [], [])]
  }

  /** The leading keys of the request are present and all equal `scope`. */
  predicate KeyedTo(r: Request, scope: string) {
    r.Values(LEADING_KEYS) != [] && forall i | 0 <= i < |r.Values(LEADING_KEYS)| :: r.Values(LEADING_KEYS)[i] == scope
  }

  lemma OneAllow(p: Policy, r: Request)
    requires |p| == 1 && p[0].effect == Allow
    ensures Allows(p, r) <==> Applies(p[0], r)
  {
  }

  /** The first gate: the session policy alone lets through exactly the unexpired requests of its
      actions on the table that are keyed to the scope. */
  lemma SessionGate(scope: string, tableArn: string, actions: seq<string>, expiresAt: int, r: Request)
    requires WildcardFree(tableArn)
    ensures Allows(SessionPolicy(scope, tableArn, actions, expiresAt), r) <==>
            r.action in actions && r.resource == tableArn && KeyedTo(r, scope) && r.now < expiresAt
  {
    var p := SessionPolicy(scope, tableArn, actions, expiresAt);
    OneAllow(p, r);
    WildcardFreeIsEquality(tableArn, r.resource);
    var cs := p[0].conditions;
    assert |cs| == 3 && cs[0].ForAllStringEquals? && cs[1].NullCheck? && cs[2].DateLessThan?;
    assert forall s :: EqualsSome(s, [Literal(scope)], r) <==> s == scope by {
      assert Resolve([Literal(scope)][0], r) == [scope];
    }
    assert Applies(p[0], r) <==>
      r.action in actions && GlobMatch(p[0].resources[0], r.resource) && Holds(cs[0], r) && Holds(cs[1], r)
          && Holds(cs[2], r);
  }

  /** The tag condition by itself: with a wildcard-free tag value the leading keys are exactly the tag. */
  lemma TagConditionsConfine(tag: string, r: Request)
    requires WildcardFree(tag) && r.Values(PRINCIPAL_TAG) == [tag]
    ensures (forall i | 0 <= i < |ScopeTagConditions()| :: Holds(ScopeTagConditions()[i], r)) <==> KeyedTo(r, tag)
  {
    var cs := ScopeTagConditions();
    forall s ensures LikeSome(s, [Variable(PRINCIPAL_TAG)], r) <==> s == tag {
      WildcardFreeIsEquality(tag, s);
      assert Resolve([Variable(PRINCIPAL_TAG)][0], r) == [tag];
    }
    assert Holds(cs[0], r) && Holds(cs[1], r) && Holds(cs[2], r)
           <==> (forall i | 0 <= i < |cs| :: Holds(cs[i], r));
  }

  /** An untagged session gets nothing through the tag condition. */
  lemma UntaggedIsRefused(r: Request)
    requires r.Values(PRINCIPAL_TAG) == []
    ensures !(forall i | 0 <= i < |ScopeTagConditions()| :: Holds(ScopeTagConditions()[i], r))
  {
    assert !Holds(ScopeTagConditions()[2], r);
  }

  /** Index ARNs lie outside the table ARN itself. */
  lemma TableIsNoIndex(tableArn: string)
    requires WildcardFree(tableArn)
    ensures !GlobMatch(tableArn + "/index/*", tableArn)
  {
    LiteralPrefix(tableArn, "/index/*", tableArn);
    assert tableArn[|tableArn|..] == "";
  }

  /** The second gate, read role: whatever the session policy says, the role's own policy lets
      through exactly the reads of the table keyed to the session's tag. */
  lemma ReadRoleGate(tableArn: string, tag: string, r: Request)
    requires WildcardFree(tableArn) && WildcardFree(tag) && r.Values(PRINCIPAL_TAG) == [tag]
    ensures Allows(ReadRolePolicy(tableArn), r) <==>
        r.action in READ_ACTIONS && r.resource == tableArn && KeyedTo(r, tag)
  {
    var p := ReadRolePolicy(tableArn);
    WildcardFreeIsEquality(tableArn, r.resource);
    TagConditionsConfine(tag, r);
    TableIsNoIndex(tableArn);
    assert p[0].resources[0] == tableArn && p[1].resources[0] == tableArn + "/index/*";
    assert Applies(p[0], r) <==> r.action in READ_ACTIONS && r.resource == tableArn && KeyedTo(r, tag);
    assert Allows(p, r) <==> Applies(p[0], r) && !Applies(p[1], r);
  }

  lemma WriteRoleGate(tableArn: string, tag: string, r: Request)
    requires WildcardFree(tableArn) && WildcardFree(tag) && r.Values(PRINCIPAL_TAG) == [tag]
    ensures Allows(WriteRolePolicy(tableArn), r) <==>
        r.action in WRITE_ACTIONS && r.resource == tableArn && KeyedTo(r, tag)
  {
    var p := WriteRolePolicy(tableArn);
    OneAllow(p, r);
    WildcardFreeIsEquality(tableArn, r.resource);
    TagConditionsConfine(tag, r);
    assert p[0].resources[0] == tableArn;
  }

  /** The wildcard check on the tag is what makes the second gate a gate: the role's policy confines
      every request to the tag exactly when the tag has no wildcard. */
  lemma TagGateConfinesIffWildcardFree(tableArn: string, tag: string)
    requires WildcardFree(tableArn)
    ensures (forall r: Request | r.Values(PRINCIPAL_TAG) == [tag] && Allows(WriteRolePolicy(tableArn), r) ::
               KeyedTo(r, tag))
            <==> WildcardFree(tag)
  {
    if WildcardFree(tag) {
      forall r: Request | r.Values(PRINCIPAL_TAG) == [tag] && Allows(WriteRolePolicy(tableArn), r)
        ensures KeyedTo(r, tag)
      {
        WriteRoleGate(tableArn, tag, r);
      }
    } else {
      var foreign := Widening(tag);
      WildcardsWiden(tag);
      var r := Request("", UPDATE_ITEM, tableArn, map[PRINCIPAL_TAG := [tag], LEADING_KEYS := [foreign]], 0);
      WildcardTagAdmits(tableArn, tag, foreign, r);
      assert r.Values(LEADING_KEYS)[0] == foreign;
      assert !KeyedTo(r, tag);
    }
  }

  lemma WildcardTagAdmits(tableArn: string, tag: string, foreign: string, r: Request)
    requires WildcardFree(tableArn) && GlobMatch(tag, foreign)
    requires r.Values(PRINCIPAL_TAG) == [tag] && r.Values(LEADING_KEYS) == [foreign]
    requires r.action == UPDATE_ITEM && r.resource == tableArn
    ensures Allows(WriteRolePolicy(tableArn), r)
  {
    var p := WriteRolePolicy(tableArn);
    OneAllow(p, r);
    WildcardFreeIsEquality(tableArn, tableArn);
    assert p[0].resources[0] == tableArn;
    assert Resolve([Variable(PRINCIPAL_TAG)][0], r) == [tag];
    assert LikeSome(foreign, [Variable(PRINCIPAL_TAG)], r);
  }

  /** A Query on any index of the table is denied to the read role, whatever statements are added
      to its policy. */
  lemma IndexQueriesAreDenied(tableArn: string, more: Policy, index: string, r: Request)
    requires WildcardFree(tableArn) && r.action == QUERY && r.resource == tableArn + "/index/" + index
    ensures !Allows(ReadRolePolicy(tableArn) + more, r)
  {
    var p := ReadRolePolicy(tableArn) + more;
    var pattern := tableArn + "/index/*";
    assert pattern == (tableArn + "/index/") + "*";
    Slash(tableArn);
    LiteralPrefix(tableArn + "/index/", "*", r.resource);
    assert r.resource[|tableArn + "/index/"|..] == index;
    StarMatchesAll(index);
    assert p[1] == Statement(Deny, [], [QUERY], [pattern], []);
    assert GlobMatch(p[1].resources[0], r.resource);
    assert Applies(p[1], r);
  }

  lemma Slash(tableArn: string)
    requires WildcardFree(tableArn)
    ensures WildcardFree(tableArn + "/index/")
  {
  }

  lemma {:induction false} StarMatchesAll(s: string)
    ensures GlobMatch("*", s)
    decreases |s|
  {
    if s != "" {
      StarMatchesAll(s[1..]);
    }
  }

  /** The request context of an `AssumeRole` call. */
  function AssumeRequest(principal: string, action: string, tags: map<string, string>, now: int): Request {
    Request(principal, action, "",
            if "scope" in tags then map[REQUEST_TAG := [tags["scope"]]] else map[], now)
  }

  /** What STS requires of the trust policy for an assume that passes tags and a source identity. */
  predicate AssumeAllowed(trust: Policy, principal: string, tags: map<string, string>, now: int) {
    && Allows(trust, AssumeRequest(principal, ASSUME_ROLE, tags, now))
    && Allows(trust, AssumeRequest(principal, TAG_SESSION, tags, now))
    && Allows(trust, AssumeRequest(principal, SET_SOURCE_IDENTITY, tags, now))
  }

  /** The roles can be assumed exactly by the named principals, with a `scope` tag present. */
  lemma TrustGate(execRoleArns: seq<string>, principal: string, tags: map<string, string>, now: int)
    requires execRoleArns != []
    ensures AssumeAllowed(TrustPolicy(execRoleArns), principal, tags, now) <==>
        principal in execRoleArns && "scope" in tags
  {
    var p := TrustPolicy(execRoleArns);
    forall action | action in [ASSUME_ROLE, TAG_SESSION]
      ensures Allows(p, AssumeRequest(principal, action, tags, now)) <==> principal in execRoleArns && "scope" in tags
    {
      var r := AssumeRequest(principal, action, tags, now);
      assert !Applies(p[1], r);
      assert p[0].conditions[0] == StringLike(REQUEST_TAG, Literal("*"));
      if "scope" in tags {
        StarMatchesAll(tags["scope"]);
        assert Resolve([Literal("*")][0], r) == ["*"];
        assert LikeSome(tags["scope"], [Literal("*")], r);
        assert Holds(p[0].conditions[0], r);
      }
      assert Applies(p[0], r) <==> principal in execRoleArns && "scope" in tags;
    }
    var r := AssumeRequest(principal, SET_SOURCE_IDENTITY, tags, now);
    assert Applies(p[1], r) <==> principal in execRoleArns;
  }
}
