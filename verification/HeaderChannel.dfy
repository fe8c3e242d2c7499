/** The four credential headers: written by the interceptor, merged by the gateway, read by a tool. */
module HeaderChannel {
  import opened Text
  import opened Wrappers
  import opened Json

  const MAX_HEADER_VALUE_BYTES := 4096

  /** What travels: the scope and the three fields of a vended credential. */
  datatype Carried = ServedScope | AccessKeyId | SecretAccessKey | SessionToken
  {
    /** The header the item travels in; these four names are every target's allowlist. */
    function Header(): string {
      match this
      case ServedScope => "x-tvm-served-scope"
      case AccessKeyId => "x-tvm-access-key-id"
      case SecretAccessKey => "x-tvm-secret-access-key"
      case SessionToken => "x-tvm-session-token"
    }
  }

  const FIELDS: seq<Carried> := [AccessKeyId, SecretAccessKey, SessionToken]
  const CARRIED: seq<Carried> := [ServedScope, AccessKeyId, SecretAccessKey, SessionToken]

  type Creds = map<Carried, string>

  predicate HasField(creds: Creds, f: Carried) {
    f in creds && creds[f] != ""
  }

  predicate FitsHeader(value: string) {
    Utf8Len(value) <= MAX_HEADER_VALUE_BYTES
  }

  predicate HasAllFields(creds: Creds) {
    HasField(creds, AccessKeyId) && HasField(creds, SecretAccessKey) && HasField(creds, SessionToken)
  }

  /** The scope and the credentials can be sent: nothing is missing and nothing is too long. */
  predicate Sendable(scope: string, creds: Creds) {
    && Strip(scope) != "" && FitsHeader(Strip(scope))
    && HasAllFields(creds)
    && FitsHeader(creds[AccessKeyId]) && FitsHeader(creds[SecretAccessKey]) && FitsHeader(creds[SessionToken])
  }

  function HeaderMap(scope: string, creds: Creds): (m: map<Carried, string>)
    requires HasAllFields(creds)
    ensures m.Keys == {ServedScope, AccessKeyId, SecretAccessKey, SessionToken}
  {
    map[ServedScope := Strip(scope),
        AccessKeyId := creds[AccessKeyId],
        SecretAccessKey := creds[SecretAccessKey],
        SessionToken := creds[SessionToken]]
  }

  function CredentialHeaders(scope: string, creds: Creds): Option<map<Carried, string>> {
    if Sendable(scope, creds) then Some(HeaderMap(scope, creds)) else None
  }

  method BuildCredentialHeaders(scope: string, creds: Creds) returns (r: Option<map<Carried, string>>)
    ensures r == CredentialHeaders(scope, creds)
  {
    if Strip(scope) == "" {
      return None;
    }
    var headers := map[ServedScope := Strip(scope)];
    for k := 0 to |FIELDS|
      invariant forall i | 0 <= i < k :: HasField(creds, FIELDS[i])
      invariant headers.Keys == {ServedScope} + (set i | 0 <= i < k :: FIELDS[i])
      invariant headers[ServedScope] == Strip(scope)
      invariant forall i | 0 <= i < k :: FIELDS[i] in headers && headers[FIELDS[i]] == creds[FIELDS[i]]
    {
      if !HasField(creds, FIELDS[k]) {
        return None;
      }
      headers := headers[FIELDS[k] := creds[FIELDS[k]]];
    }
    assert HasField(creds, FIELDS[0]) && HasField(creds, FIELDS[1]) && HasField(creds, FIELDS[2]);
    assert (set i | 0 <= i < 3 :: FIELDS[i]) == {FIELDS[0], FIELDS[1], FIELDS[2]};
    assert headers == HeaderMap(scope, creds);
    for k := 0 to |CARRIED|
      invariant forall i | 0 <= i < k :: FitsHeader(headers[CARRIED[i]])
    {
      if !FitsHeader(headers[CARRIED[k]]) {
        return None;
      }
    }
    assert FitsHeader(headers[CARRIED[0]]) && FitsHeader(headers[CARRIED[1]]) && FitsHeader(headers[CARRIED[2]])
        && FitsHeader(headers[CARRIED[3]]);
    return Some(headers);
  }

  // ----- the gateway's merge --------------------------------------------------------------

  predicate Carries(e: Entry, c: Carried) {
    Lower(e.key) == c.Header()
  }

  predicate IsAllowlisted(e: Entry) {
    exists c :: Carries(e, c)
  }

  /** The gateway's contract. Header names compare without regard to case. Only allowlisted names
      are delivered; a name the interceptor supplied is delivered, with the interceptor's value
      whatever the client sent under any spelling; the rest are the client's. Spelling and order of
      what is delivered are left open. */
  ghost predicate Delivers(client: seq<Entry>, ours: map<Carried, string>, delivered: seq<Entry>) {
    && (forall i | 0 <= i < |delivered| :: IsAllowlisted(delivered[i]))
    && (forall i, c | 0 <= i < |delivered| && Carries(delivered[i], c) && c in ours :: delivered[i].val == Str(ours[c]))
    && (forall c | c in ours :: exists i | 0 <= i < |delivered| :: Carries(delivered[i], c))
    && (forall i, c | 0 <= i < |delivered| && Carries(delivered[i], c) && c !in ours ::
          exists k | 0 <= k < |client| :: Carries(client[k], c) && client[k].val == delivered[i].val)
  }

  lemma HeaderNamesAreLower(c: Carried)
    ensures Lower(c.Header()) == c.Header()
  {
    var name := c.Header();
    assert forall i | 0 <= i < |name| :: !IsUpper(name[i]);
  }

  lemma HeaderNamesDiffer(a: Carried, b: Carried)
    requires a.Header() == b.Header()
    ensures a == b
  {
    assert AccessKeyId.Header()[6] == 'a' && SessionToken.Header()[6] == 's';
  }

  lemma CarriesItsOwn(a: Carried, b: Carried, value: string)
    ensures Carries(Entry(a.Header(), Str(value)), b) <==> a == b
  {
    hide Lower;
    HeaderNamesAreLower(a);
    if a.Header() == b.Header() {
      HeaderNamesDiffer(a, b);
    }
  }

  /** The contract can be met: the four headers alone are a delivery, whatever the client sent. */
  lemma DeliveryExists(client: seq<Entry>, ours: map<Carried, string>)
    requires forall c: Carried :: c in ours
    ensures exists delivered :: Delivers(client, ours, delivered)
  {
    hide Carries;
    var delivered := seq(4, i requires 0 <= i < 4 => Entry(CARRIED[i].Header(), Str(ours[CARRIED[i]])));
    forall i, c | 0 <= i < 4 ensures Carries(delivered[i], c) <==> c == CARRIED[i] {
      CarriesItsOwn(CARRIED[i], c, ours[CARRIED[i]]);
    }
    forall c | c in ours ensures exists i | 0 <= i < |delivered| :: Carries(delivered[i], c) {
      var i := match c case ServedScope => 0 case AccessKeyId => 1 case SecretAccessKey => 2 case SessionToken => 3;
      assert Carries(delivered[i], c);
    }
    forall i | 0 <= i < |delivered| ensures IsAllowlisted(delivered[i]) {
      assert Carries(delivered[i], CARRIED[i]);
    }
    assert Delivers(client, ours, delivered);
  }

  // ----- the tool's side ------------------------------------------------------------------

  /** The value a dict built from the delivered headers under lower-cased names holds for the item:
      the last string of that name. */
  function Lookup(delivered: seq<Entry>, c: Carried): Option<string> {
    if delivered == [] then None
    else
      var last := delivered[|delivered| - 1];
      if Carries(last, c) && last.val.Str? then Some(last.val.s)
      else Lookup(delivered[..|delivered| - 1], c)
  }

  predicate Usable(value: Option<string>) {
    value.Some? && Strip(value.value) != ""
  }

  /** All four headers are there with content; otherwise the reader raises. */
  predicate Complete(delivered: seq<Entry>) {
    && Usable(Lookup(delivered, ServedScope)) && Usable(Lookup(delivered, AccessKeyId))
    && Usable(Lookup(delivered, SecretAccessKey)) && Usable(Lookup(delivered, SessionToken))
  }

  function ReadServedScope(delivered: seq<Entry>): Option<string> {
    if Complete(delivered) then Some(Strip(Lookup(delivered, ServedScope).value)) else None
  }

  /** The credential keyword arguments of the tool's session. */
  function SessionKwargs(delivered: seq<Entry>): Option<Creds> {
    if Complete(delivered) then
      Some(map[AccessKeyId := Lookup(delivered, AccessKeyId).value,
               SecretAccessKey := Lookup(delivered, SecretAccessKey).value,
               SessionToken := Lookup(delivered, SessionToken).value])
    else None
  }

  lemma {:induction false} LookupFinds(delivered: seq<Entry>, c: Carried, value: string)
    requires exists i | 0 <= i < |delivered| :: Carries(delivered[i], c)
    requires forall i | 0 <= i < |delivered| && Carries(delivered[i], c) :: delivered[i].val == Str(value)
    ensures Lookup(delivered, c) == Some(value)
    decreases |delivered|
  {
    hide Carries;
    var last := |delivered| - 1;
    if !Carries(delivered[last], c) {
      var i :| 0 <= i < |delivered| && Carries(delivered[i], c);
      assert Carries(delivered[..last][i], c);
      LookupFinds(delivered[..last], c, value);
    }
  }

  predicate HasContent(creds: Creds)
    requires HasAllFields(creds)
  {
    Strip(creds[AccessKeyId]) != "" && Strip(creds[SecretAccessKey]) != "" && Strip(creds[SessionToken]) != ""
  }

  /** The credential without anything else the map may hold. */
  function Vended(creds: Creds): Creds
    requires HasAllFields(creds)
  {
    map[AccessKeyId := creds[AccessKeyId],
        SecretAccessKey := creds[SecretAccessKey],
        SessionToken := creds[SessionToken]]
  }

  /** Whatever the client sent under whatever spelling, the tool reads exactly the scope and the
      credentials the interceptor wrote when every credential has content, and fails when one is
      blank: it never reads anything else. */
  lemma ChannelRoundTrips(client: seq<Entry>, scope: string, creds: Creds, delivered: seq<Entry>)
    requires Sendable(scope, creds) && Delivers(client, HeaderMap(scope, creds), delivered)
    ensures HasContent(creds) ==>
              ReadServedScope(delivered) == Some(Strip(scope)) && SessionKwargs(delivered) == Some(Vended(creds))
    ensures !HasContent(creds) ==> ReadServedScope(delivered) == None && SessionKwargs(delivered) == None
  {
    hide Carries, Lookup, Strip;
    var ours := HeaderMap(scope, creds);
    LookupFinds(delivered, ServedScope, ours[ServedScope]);
    LookupFinds(delivered, AccessKeyId, ours[AccessKeyId]);
    LookupFinds(delivered, SecretAccessKey, ours[SecretAccessKey]);
    LookupFinds(delivered, SessionToken, ours[SessionToken]);
    StripIsIdempotent(scope);
  }
}
