/** From a scope, a subject and a gateway identifier to the one `AssumeRole` call, or to a refusal
    before it. */
module Vending {
  import opened Text
  import opened Wrappers
  import opened Iam
  import opened ScopedPolicies

  const TAG_VALUE_MAX_LEN := 256
  const STS_NAME_MIN_LEN := 2
  const STS_NAME_MAX_LEN := 64
  const DIGEST_LEN := 32
  const SESSION_DURATION_SECONDS := 900
  const POLICY_TTL_SECONDS := 60
  const MICROSECONDS := 1000000

  /** The `scope` session tag, unless the value is empty, too long or would widen the comparison. */
  function ScopeTag(scope: string): Option<string> {
    if scope == "" || |scope| > TAG_VALUE_MAX_LEN || '*' in scope || '?' in scope then None else Some(scope)
  }

  /** `[\w+=,.@-]` over ASCII. */
  predicate IsStsChar(c: char) {
    IsLower(c) || IsUpper(c) || IsDigit(c) || c in "_+=,.@-"
  }

  predicate AllStsChars(s: string) {
    s != "" && forall i | 0 <= i < |s| :: IsStsChar(s[i])
  }

  /** What STS accepts as a `RoleSessionName` or, `aws:` apart, as a `SourceIdentity`. */
  predicate IsStsName(s: string) {
    STS_NAME_MIN_LEN <= |s| <= STS_NAME_MAX_LEN && AllStsChars(s)
  }

  function SourceIdentity(subject: string): Option<string> {
    if subject == "" || |subject| < STS_NAME_MIN_LEN || |subject| > STS_NAME_MAX_LEN then None
    else if "aws:" <= Lower(subject) then None
    else if !AllStsChars(subject) then None
    else Some(subject)
  }

  /** A subject is passed on unchanged exactly when STS would take it. The reserved prefix needs no
      clause of its own: its colon is outside the character class. */
  lemma SubjectPassesIffStsName(subject: string)
    ensures SourceIdentity(subject) == if IsStsName(subject) then Some(subject) else None
  {
    if "aws:" <= Lower(subject) && |subject| >= 4 {
      assert Lower(subject)[3] == ':';
      assert LowerChar(subject[3]) == ':';
      assert !IsStsChar(subject[3]);
    }
  }

  const VERBATIM_PREFIX := "gw-"
  const DIGEST_PREFIX := "gwh-"

  /** SHA-256 in hex, as a function. */
  type Digest = string -> string

  ghost predicate IsHexDigest(digest: Digest) {
    forall s :: |digest(s)| == 64 && forall i | 0 <= i < 64 :: IsDigit(digest(s)[i]) || 'a' <= digest(s)[i] <= 'f'
  }

  function Shortened(digest: Digest, s: string): string {
    var d := digest(s);
    if |d| <= DIGEST_LEN then d else d[..DIGEST_LEN]
  }

  predicate FitsVerbatim(identifier: string) {
    |VERBATIM_PREFIX + identifier| <= STS_NAME_MAX_LEN && AllStsChars(VERBATIM_PREFIX + identifier)
  }

  function RoleSessionName(digest: Digest, gatewayIdentifier: string): Option<string> {
    var identifier := Strip(gatewayIdentifier);
    if identifier == "" then None
    else if FitsVerbatim(identifier) then Some(VERBATIM_PREFIX + identifier)
    else Some(DIGEST_PREFIX + Shortened(digest, identifier))
  }

  /** Every identifier with content gives a name STS accepts; a blank one gives none. */
  lemma SessionNameIsTotal(digest: Digest, id: string)
    requires IsHexDigest(digest)
    ensures RoleSessionName(digest, id).Some? <==> !Blank(id)
    ensures RoleSessionName(digest, id).Some? ==> IsStsName(RoleSessionName(digest, id).value)
  {
    var identifier := Strip(id);
    if identifier != "" && !FitsVerbatim(identifier) {
      var d := Shortened(digest, identifier);
      assert forall i | 0 <= i < |d| :: IsStsChar(d[i]);
      assert forall i | 0 <= i < |DIGEST_PREFIX| :: IsStsChar(DIGEST_PREFIX[i]);
      assert AllStsChars(DIGEST_PREFIX + d);
    }
  }

  /** An identifier is passed on readable exactly when STS would take it so; any other with content
      goes as the first 32 digits of its digest. */
  lemma VerbatimIffStsName(digest: Digest, id: string)
    requires IsHexDigest(digest)
    ensures RoleSessionName(digest, id) == Some("gw-" + Strip(id)) <==> !Blank(id) && IsStsName("gw-" + Strip(id))
    ensures !Blank(id) && !IsStsName("gw-" + Strip(id)) ==>
      RoleSessionName(digest, id) == Some("gwh-" + digest(Strip(id))[..32])
  {
    var identifier := Strip(id);
    if identifier != "" && !FitsVerbatim(identifier) {
      assert ("gw-" + identifier)[2] == '-' && (DIGEST_PREFIX + Shortened(digest, identifier))[2] == 'h';
    }
  }

  /** The join key identifies its identifier: two identifiers share a session name only if they
      are the same text or both are digested and their 128-bit digests collide. The verbatim and
      the digested form are never confused. */
  lemma SessionNamesJoin(digest: Digest, a: string, b: string)
    requires RoleSessionName(digest, a).Some? && RoleSessionName(digest, a) == RoleSessionName(digest, b)
    ensures || Strip(a) == Strip(b)
            || (!FitsVerbatim(Strip(a)) && !FitsVerbatim(Strip(b))
                && Shortened(digest, Strip(a)) == Shortened(digest, Strip(b)))
  {
    var name := RoleSessionName(digest, a).value;
    var x, y := Strip(a), Strip(b);
    assert FitsVerbatim(x) ==> name[3..] == x;
    assert FitsVerbatim(y) ==> name[3..] == y;
    assert !FitsVerbatim(x) ==> name[4..] == Shortened(digest, x);
    assert !FitsVerbatim(y) ==> name[4..] == Shortened(digest, y);
    assert name[2] == if FitsVerbatim(x) then '-' else 'h';
    assert name[2] == if FitsVerbatim(y) then '-' else 'h';
  }

  /** The expiry written into the session policy, in microseconds: whole seconds, rounded down. */
  function ExpiresAt(now: nat): nat {
    (now + POLICY_TTL_SECONDS * MICROSECONDS) / MICROSECONDS * MICROSECONDS
  }

  /** The policy window is more than 59 and at most 60 seconds long. */
  lemma WindowLength(now: nat)
    ensures now + 59 * MICROSECONDS < ExpiresAt(now) <= now + 60 * MICROSECONDS
  {
  }

  datatype Role = ReadRole | WriteRole

  datatype Tool = ReadDocument | SearchDocuments | Reply

  function RoleFor(tool: Tool): Role {
    if tool.Reply? then WriteRole else ReadRole
  }

  function ActionsOf(role: Role): seq<string> {
    if role.WriteRole? then WRITE_ACTIONS else READ_ACTIONS
  }

  function RolePolicy(role: Role, tableArn: string): Policy {
    if role.WriteRole? then WriteRolePolicy(tableArn) else ReadRolePolicy(tableArn)
  }

  /** The arguments of the one STS call. */
  datatype AssumeCall = AssumeCall(
    role: Role,
    sessionName: string,
    policy: Policy,
    tag: string,
    sourceIdentity: string,
    durationSeconds: nat)

  /** The call `vend_scoped_credentials` makes, or none when a value is refused beforehand. */
  function Vend(digest: Digest, role: Role, scope: string, tableArn: string, subject: string,
      gatewayIdentifier: string, now: nat)
    : Option<AssumeCall>
  {
    var tag := ScopeTag(scope);
    var source := SourceIdentity(subject);
    var name := RoleSessionName(digest, gatewayIdentifier);
    if tag.None? || source.None? || name.None? then None
    else Some(AssumeCall(role, name.value, SessionPolicy(scope, tableArn, ActionsOf(role), ExpiresAt(now)),
                         tag.value, source.value, SESSION_DURATION_SECONDS))
  }

  /** The request context of a data-plane call made with the credentials of an assumed session. */
  function DataRequest(call: AssumeCall, action: string, resource: string, leading: seq<string>, now: int): Request {
    Request("", action, resource, map[PRINCIPAL_TAG := [call.tag], LEADING_KEYS := leading], now)
  }

  /** A session may do what both its role's policy and its session policy allow. */
  predicate SessionAllows(call: AssumeCall, tableArn: string, r: Request) {
    Allows(RolePolicy(call.role, tableArn), r) && Allows(call.policy, r)
  }

  /** Each gate alone already confines a vended session to the scope, whatever the other says:
      the session policy in space, time and action, the role in space and action. */
  lemma EachGateConfines(digest: Digest, role: Role, scope: string, tableArn: string, subject: string, id: string,
      now: nat, action: string, resource: string, leading: seq<string>, at: int)
    requires WildcardFree(tableArn) && Vend(digest, role, scope, tableArn, subject, id, now).Some?
    ensures var call := Vend(digest, role, scope, tableArn, subject, id, now).value;
      var r := DataRequest(call, action, resource, leading, at);
      && (Allows(call.policy, r) <==>
            action in ActionsOf(role) && resource == tableArn && KeyedTo(r, scope) && at < ExpiresAt(now))
      && (Allows(RolePolicy(role, tableArn), r) <==>
          action in ActionsOf(role) && resource == tableArn && KeyedTo(r, scope))
  {
    var call := Vend(digest, role, scope, tableArn, subject, id, now).value;
    var r := DataRequest(call, action, resource, leading, at);
    SessionGate(scope, tableArn, ActionsOf(role), ExpiresAt(now), r);
    if role.WriteRole? {
      WriteRoleGate(tableArn, scope, r);
    } else {
      ReadRoleGate(tableArn, scope, r);
    }
  }

  /** Read credentials never carry a write action and write credentials never a read action. */
  lemma RolesAreSeparate(call: AssumeCall, tableArn: string, r: Request)
    requires WildcardFree(tableArn) && WildcardFree(call.tag) && r.Values(PRINCIPAL_TAG) == [call.tag]
    requires SessionAllows(call, tableArn, r)
    ensures r.action == UPDATE_ITEM <==> call.role.WriteRole?
    ensures r.action in READ_ACTIONS <==> call.role.ReadRole?
  {
    if call.role.WriteRole? {
      WriteRoleGate(tableArn, call.tag, r);
    } else {
      ReadRoleGate(tableArn, call.tag, r);
    }
  }
}
