/** The request interceptor: one ordered run from an event to an audit record, at most one
    `AssumeRole`, and a verdict. */
module RequestInterceptor {
  import opened Text
  import opened Wrappers
  import opened Json
  import Iam
  import opened ScopedPolicies
  import opened Vending
  import opened Identity
  import opened ToolNames
  import opened HeaderChannel
  import opened Envelope

  const MAX_ARGUMENT_CHARS := 2000
  const EXCLUDED_ARGUMENT := "context"

  /** What one deployment fixes: the environment of the interceptor and the libraries it calls. */
  datatype Config = Config(
    verify: Verifier,
    digest: Digest,
    knownScopes: string,
    allowedClients: string,
    tableArn: string,
    interceptorArn: string)

  /** What STS answers to the call, if it is made. */
  datatype StsAnswer = Failed | Issued(creds: Creds)

  datatype AuditRecord = AuditRecord(
    subject: string,
    gatewaySessionId: Option<string>,
    roleSessionName: Option<string>,
    toolRequested: Json,
    toolClassified: Tool,
    grantedScope: string,
    arguments: seq<Entry>,
    requestId: Json,
    traceId: Json,
    traceparent: Json)

  datatype LogEvent = Audit(record: AuditRecord) | Sts(call: AssumeCall)

  /** What the gateway does next: forward the call, answer it with the generic error, or report
      that the interceptor itself failed. */
  datatype Verdict =
    | PassThrough(body: Json)
    | Forward(body: Json, tool: Tool, headers: map<Carried, string>)
    | ShortCircuit(id: Json)
    | Crash

  // ----- the audit record -----------------------------------------------------------------

  function ValueForRecord(v: Json): Json {
    if v.Str? && |v.s| > MAX_ARGUMENT_CHARS then
      Obj([Entry("truncated", Bool(true)), Entry("chars", Int(|v.s|)), Entry("value", Str(v.s[..MAX_ARGUMENT_CHARS]))])
    else v
  }

  function ArgumentsForRecord(arguments: seq<Entry>): seq<Entry> {
    if arguments == [] then []
    else
      var rest := ArgumentsForRecord(arguments[1..]);
      if arguments[0].key == EXCLUDED_ARGUMENT then rest
      else [Entry(arguments[0].key, ValueForRecord(arguments[0].val))] + rest
  }

  /** A long text is cut to its first 2000 characters, and the record says so and how long it was. */
  lemma LongTextsAreMarked(text: string)
    ensures |text| > 2000 ==>
      var value := ValueForRecord(Str(text));
      && value.Obj?
      && Get(value.entries, "truncated", Null) == Bool(true)
      && Get(value.entries, "chars", Null) == Int(|text|)
      && Get(value.entries, "value", Null) == Str(text[..2000])
    ensures |text| <= 2000 ==> ValueForRecord(Str(text)) == Str(text)
  {
    if |text| > 2000 {
      var mark, chars, value := Entry("truncated", Bool(true)), Entry("chars", Int(|text|)),
        Entry("value", Str(text[..2000]));
      assert [mark, chars, value][1..] == [chars, value] && [chars, value][1..] == [value];
      assert Get([chars, value], "value", Null) == Get([value], "value", Null);
    }
  }

  /** Every argument but the excluded one is on record, under its key and with its value or a marked
      prefix of it; nothing else is. */
  lemma {:induction false} RecordedArguments(arguments: seq<Entry>, key: string)
    ensures Get(ArgumentsForRecord(arguments), key, Null) ==
            if key == EXCLUDED_ARGUMENT then Null else ValueForRecord(Get(arguments, key, Null))
    decreases |arguments|
  {
    if arguments != [] {
      RecordedArguments(arguments[1..], key);
      var rest := ArgumentsForRecord(arguments[1..]);
      if arguments[0].key != EXCLUDED_ARGUMENT {
        assert ArgumentsForRecord(arguments)[1..] == rest;
      }
    }
  }

  function BuildAuditRecord(cfg: Config, id: VerifiedIdentity, tool: Tool, params: seq<Entry>, arguments: seq<Entry>,
                            body: seq<Entry>, headers: Json): AuditRecord {
    var session := SessionId(headers);
    AuditRecord(
      id.subject,
      session,
      if session.Some? then RoleSessionName(cfg.digest, session.value) else None,
      Get(params, "name", Str("")),
      tool,
      id.servedScope,
      ArgumentsForRecord(arguments),
      Get(body, "id", Null),
      GetHeader(headers, "x-amzn-trace-id"),
      GetHeader(headers, "traceparent"))
  }

  // ----- reading the event ----------------------------------------------------------------

  function GatewayRequestOf(event: Json): Option<Json> {
    var mcp := Section(event, "mcp");
    if mcp.None? then None else Section(mcp.value, "gatewayRequest")
  }

  // ----- the decision ---------------------------------------------------------------------

  /** What an accepted tools/call asks for. */
  datatype Call = Call(id: VerifiedIdentity, tool: Tool, body: seq<Entry>, arguments: seq<Entry>, record: AuditRecord)

  datatype Reading = Stop(verdict: Verdict) | Go(call: Call)

  /** Everything before the vend: who calls what, or why nothing is vended. */
  function ReadCall(cfg: Config, event: Json, now: nat): Reading {
    var request := GatewayRequestOf(event);
    if request.None? then Stop(Crash)
    else
      var headers := Section(request.value, "headers");
      var body := Section(request.value, "body");
      if headers.None? || body.None? || !body.value.Obj? then Stop(Crash)
      else if Get(body.value.entries, "method", Str("")) != Str(TOOLS_CALL) then Stop(PassThrough(body.value))
      else
        var params := Section(body.value, "params");
        if params.None? || !params.value.Obj? then Stop(Crash)
        else
          var tool := ClassifyTool(Get(params.value.entries, "name", Str("")));
          var reqId := Get(body.value.entries, "id", Null);
          if tool.None? then Stop(ShortCircuit(reqId))
          else
            var id := IdentityFrom(cfg.verify, cfg.knownScopes, cfg.allowedClients,
                GetHeader(headers.value, "authorization"), now);
            if id.None? then Stop(ShortCircuit(reqId))
            else
              var arguments := Section(params.value, "arguments");
              if arguments.None? || !arguments.value.Obj? then Stop(Crash)
              else Go(Call(id.value, tool.value, body.value.entries, arguments.value.entries,
                           BuildAuditRecord(cfg, id.value, tool.value, params.value.entries, arguments.value.entries,
                                            body.value.entries, headers.value)))
  }

  /** The one call the interceptor may make: nothing when a value is refused beforehand. */
  function CallToSts(cfg: Config, call: Call, now: nat): Option<AssumeCall> {
    Vend(cfg.digest, RoleFor(call.tool), call.id.servedScope, cfg.tableArn, call.id.subject,
         call.record.gatewaySessionId.GetOr(""), now)
  }

  /** Whether STS mints a session: its trust policy names the interceptor and the call carries the tag. */
  predicate Mints(cfg: Config, sts: StsAnswer, call: AssumeCall, now: nat) {
    && sts.Issued?
    && AssumeAllowed(TrustPolicy([cfg.interceptorArn]), cfg.interceptorArn, map["scope" := call.tag], now)
  }

  /** The verdict and what is logged on the way, in order. */
  function Decide(cfg: Config, event: Json, sts: StsAnswer, now: nat): (Verdict, seq<LogEvent>) {
    match ReadCall(cfg, event, now)
    case Stop(verdict) => (verdict, [])
    case Go(call) =>
      var refused := ShortCircuit(Get(call.body, "id", Null));
      var planned := CallToSts(cfg, call, now);
      if planned.None? || !Mints(cfg, sts, planned.value, now) then (refused, [Audit(call.record)])
      else
        var headers := CredentialHeaders(call.id.servedScope, sts.creds);
        var verdict := if headers.None? then refused else Forward(Obj(call.body), call.tool, headers.value);
        (verdict, [Audit(call.record), Sts(planned.value)])
  }

  /** The interceptor with its log. */
  class Interceptor {
    const cfg: Config
    var log: seq<LogEvent>

    constructor (cfg: Config)
      ensures this.cfg == cfg && log == []
    {
      this.cfg := cfg;
      log := [];
    }

    method Handle(event: Json, sts: StsAnswer, now: nat) returns (verdict: Verdict)
      modifies this
      ensures (verdict, log) == (Decide(cfg, event, sts, now).0, old(log) + Decide(cfg, event, sts, now).1)
    {
      hide ReadCall, CallToSts, AssumeAllowed, CredentialHeaders, Get;
      assert log + [] == log;
      var reading := ReadCall(cfg, event, now);
      if reading.Stop? {
        return reading.verdict;
      }
      var call := reading.call;
      log := log + [Audit(call.record)];
      var planned := CallToSts(cfg, call, now);
      if planned.None? || !Mints(cfg, sts, planned.value, now) {
        return ShortCircuit(Get(call.body, "id", Null));
      }
      log := log + [Sts(planned.value)];
      assert log == old(log) + [Audit(call.record), Sts(planned.value)];
      var headers := BuildCredentialHeaders(call.id.servedScope, sts.creds);
      if headers.None? {
        return ShortCircuit(Get(call.body, "id", Null));
      }
      return Forward(Obj(call.body), call.tool, headers.value);
    }
  }

  // ----- what holds of every decision -----------------------------------------------------

  /** The session carries, four times over, one known scope. */
  ghost predicate ScopedTo(cfg: Config, call: AssumeCall, scope: string, now: nat) {
    && scope in KnownScopes(cfg.knownScopes) && Iam.WildcardFree(scope)
    && call.tag == scope
    && call.policy == SessionPolicy(scope, cfg.tableArn, ActionsOf(call.role), ExpiresAt(now))
  }

  /** The body of the request, when it has one that is a dict. */
  function RequestBody(event: Json): Option<seq<Entry>> {
    var request := GatewayRequestOf(event);
    var body := if request.Some? then Section(request.value, "body") else None;
    if body.Some? && body.value.Obj? then Some(body.value.entries) else None
  }

  /** The headers of the request, when it has any. */
  function ClientHeaders(event: Json): seq<Entry> {
    var request := GatewayRequestOf(event);
    var headers := if request.Some? then Section(request.value, "headers") else None;
    if headers.Some? && headers.value.Obj? then headers.value.entries else []
  }

  /** The identity of the token in the event's own `Authorization` header. */
  function CallerOf(cfg: Config, event: Json, now: nat): Option<VerifiedIdentity> {
    IdentityFrom(cfg.verify, cfg.knownScopes, cfg.allowedClients,
                 GetHeader(Obj(ClientHeaders(event)), "authorization"), now)
  }

  /** Some token verifies to this identity at this time. */
  ghost predicate Verified(cfg: Config, id: VerifiedIdentity, now: nat) {
    exists authorization :: IdentityFrom(cfg.verify, cfg.knownScopes, cfg.allowedClients, authorization, now)
        == Some(id)
  }

  /** The tool an event asks for, when it is a tool call whose name and arguments can be read. */
  function Asked(event: Json): Option<Tool> {
    var body := RequestBody(event);
    if body.None? || Get(body.value, "method", Str("")) != Str(TOOLS_CALL) then None
    else
      var params := OrEmpty(Get(body.value, "params", Obj([])));
      if !params.Obj? || !OrEmpty(Get(params.entries, "arguments", Obj([]))).Obj? then None
      else ClassifyTool(Get(params.entries, "name", Str("")))
  }

  function ParamsOf(body: Json): seq<Entry> {
    var params := Section(body, "params");
    if params.Some? && params.value.Obj? then params.value.entries else []
  }

  /** The arguments of a tool call. */
  function ArgumentsOf(body: Json): seq<Entry> {
    var params := Section(body, "params");
    var arguments := if params.Some? then Section(params.value, "arguments") else None;
    if arguments.Some? && arguments.value.Obj? then arguments.value.entries else []
  }

  /** The call STS is asked for under an audit record. */
  function CallUnder(cfg: Config, record: AuditRecord, now: nat): Option<AssumeCall> {
    Vend(cfg.digest, RoleFor(record.toolClassified), record.grantedScope, cfg.tableArn, record.subject,
         record.gatewaySessionId.GetOr(""), now)
  }

  /** The record tells who called what: the identity is that of the event's own token, the tool as
      asked for and as classified, the arguments and the id are those of its body, session and
      trace are those of its headers. */
  ghost predicate RecordsTheCaller(cfg: Config, record: AuditRecord, event: Json, now: nat) {
    && CallerOf(cfg, event, now) == Some(VerifiedIdentity(record.grantedScope, record.subject))
    && Asked(event) == Some(record.toolClassified)
    && record.arguments == ArgumentsForRecord(ArgumentsOf(Obj(RequestBody(event).GetOr([]))))
    && record.requestId == Get(RequestBody(event).GetOr([]), "id", Null)
    && record.toolRequested == Get(ParamsOf(Obj(RequestBody(event).GetOr([]))), "name", Str(""))
    && record.gatewaySessionId == SessionId(Obj(ClientHeaders(event)))
    && record.traceId == GetHeader(Obj(ClientHeaders(event)), "x-amzn-trace-id")
    && record.traceparent == GetHeader(Obj(ClientHeaders(event)), "traceparent")
  }

  /** The session is the one its record announces: its source identity is the subject, its tag, the
      leading-keys value of its policy and the granted scope are one known scope, and the session
      names agree. */
  ghost predicate JoinsTheRecord(cfg: Config, call: AssumeCall, record: AuditRecord, now: nat) {
    && ScopedTo(cfg, call, record.grantedScope, now)
    && call.sourceIdentity == record.subject
    && record.roleSessionName == Some(call.sessionName)
    && call.role == RoleFor(record.toolClassified)
    && call.durationSeconds == 900
  }

  /** A call is on record exactly when its event asks for a tool and carries a token that verifies,
      and the record names that token's scope and subject. An `AssumeRole` follows exactly when STS
      issues a session for a call it can be asked for; it joins the record. So a refused call leaves
      its record and nothing else. What is forwarded carries exactly the session STS issued. */
  lemma EverySessionIsAccountedFor(cfg: Config, event: Json, sts: StsAnswer, now: nat)
    ensures var (verdict, logged) := Decide(cfg, event, sts, now);
      && (logged == [] <==> Asked(event).None? || CallerOf(cfg, event, now).None?)
      && (logged != [] ==>
            && logged[0].Audit? && RecordsTheCaller(cfg, logged[0].record, event, now)
            && (var planned := CallUnder(cfg, logged[0].record, now);
                if planned.Some? && sts.Issued?
                then logged == [logged[0], Sts(planned.value)]
                    && JoinsTheRecord(cfg, planned.value, logged[0].record, now)
                else logged == [logged[0]]))
      && (verdict.Forward? ==>
            && |logged| == 2
            && verdict.tool == logged[0].record.toolClassified
            && CredentialHeaders(logged[0].record.grantedScope, sts.creds) == Some(verdict.headers)
            && ServedScope in verdict.headers && verdict.headers[ServedScope] == logged[0].record.grantedScope)
  {
    hide ReadCall, Mints, Vend, JoinsTheRecord, CredentialHeaders, CallerOf, Asked, RoleFor, RecordsTheCaller;
    var reading := ReadCall(cfg, event, now);
    ReadsIffAsked(cfg, event, now);
    if reading.Go? {
      GoIsVerified(cfg, event, now);
      var call := reading.call;
      VendedCall(cfg, call, now);
      if CallToSts(cfg, call, now).Some? {
        OwnCallsAreTrusted(cfg, sts, CallToSts(cfg, call, now).value, now);
      }
      if sts.Issued? {
        HeadersCarryTheScope(cfg, call.id.servedScope, sts.creds);
      }
    } else {
      StoppedForwardsNothing(cfg, event, now);
    }
  }

  lemma HeadersCarryTheScope(cfg: Config, scope: string, creds: Creds)
    requires scope in KnownScopes(cfg.knownScopes)
    ensures CredentialHeaders(scope, creds).Some? ==>
      var headers := CredentialHeaders(scope, creds).value;
      ServedScope in headers && headers[ServedScope] == scope
  {
    hide KnownScopes, Sendable, Strip;
    KnownScopesAreStripped(cfg.knownScopes, scope);
  }

  /** Headers that are not a dict are read like none. */
  lemma HeadersOfTheEvent(event: Json, name: string)
    ensures GatewayRequestOf(event).Some? && Section(GatewayRequestOf(event).value, "headers").Some? ==>
      var headers := Section(GatewayRequestOf(event).value, "headers").value;
      && GetHeader(headers, name) == GetHeader(Obj(ClientHeaders(event)), name)
      && SessionId(headers) == SessionId(Obj(ClientHeaders(event)))
  {
    hide Get, OrEmpty, Lower;
  }

  lemma ReadsIffAsked(cfg: Config, event: Json, now: nat)
    ensures ReadCall(cfg, event, now).Go? <==> Asked(event).Some? && CallerOf(cfg, event, now).Some?
    ensures ReadCall(cfg, event, now).Go? ==>
      && CallerOf(cfg, event, now) == Some(ReadCall(cfg, event, now).call.id)
      && RecordsTheCaller(cfg, ReadCall(cfg, event, now).call.record, event, now)
  {
    hide IdentityFrom, ClassifyTool, ArgumentsForRecord, GetHeader, SessionId, Get, OrEmpty, RoleSessionName;
    HeadersOfTheEvent(event, "authorization");
    HeadersOfTheEvent(event, "x-amzn-trace-id");
    HeadersOfTheEvent(event, "traceparent");
  }

  /** Nothing is ever written into a request: a body that goes on is the one that came in, only a
      tool call with a known tool goes to a tool, and only other methods pass without a vend. A
      refusal answers the id of the request. */
  lemma BodyIsForwardedUnchanged(cfg: Config, event: Json, sts: StsAnswer, now: nat)
    ensures var verdict := Decide(cfg, event, sts, now).0;
      var body := RequestBody(event).GetOr([]);
      && (verdict.Forward? || verdict.PassThrough? ==> RequestBody(event).Some? && verdict.body == Obj(body))
      && (verdict.Forward? ==>
            && Get(body, "method", Str("")) == Str(TOOLS_CALL)
            && ClassifyTool(Get(OrEmpty(Get(body, "params", Obj([]))).entries, "name", Str(""))) == Some(verdict.tool))
      && (verdict.PassThrough? ==>
            && Get(body, "method", Str("")) != Str(TOOLS_CALL)
            && Decide(cfg, event, sts, now).1 == [])
      && (verdict.ShortCircuit? ==> verdict.id == Get(body, "id", Null))
  {
    hide CallToSts, Mints, CredentialHeaders, IdentityFrom, ClassifyTool, BuildAuditRecord, Get;
  }

  lemma StoppedForwardsNothing(cfg: Config, event: Json, now: nat)
    requires ReadCall(cfg, event, now).Stop?
    ensures !ReadCall(cfg, event, now).verdict.Forward?
  {
    hide IdentityFrom, ClassifyTool, BuildAuditRecord;
  }

  lemma VendedCall(cfg: Config, call: Call, now: nat)
    requires call.id.servedScope in KnownScopes(cfg.knownScopes)
    requires call.record.subject == call.id.subject && call.record.grantedScope == call.id.servedScope
    requires call.record.toolClassified == call.tool
    requires call.record.roleSessionName ==
             (if call.record.gatewaySessionId.Some?
              then RoleSessionName(cfg.digest, call.record.gatewaySessionId.value) else None)
    ensures var planned := CallToSts(cfg, call, now);
      && planned == CallUnder(cfg, call.record, now)
      && (planned.Some? ==> JoinsTheRecord(cfg, planned.value, call.record, now))
  {
    BlankHasNoName(cfg.digest);
    hide KnownScopes, SessionPolicy, RoleFor;
  }

  lemma BlankHasNoName(digest: Digest)
    ensures RoleSessionName(digest, "") == None
  {
  }

  /** Nothing is vended before the event's own token verified to a known scope and a subject, and the
      record is built from that identity. */
  lemma GoIsVerified(cfg: Config, event: Json, now: nat)
    requires ReadCall(cfg, event, now).Go?
    ensures var call := ReadCall(cfg, event, now).call;
      && CallerOf(cfg, event, now) == Some(call.id) && Verified(cfg, call.id, now)
      && call.id.servedScope in KnownScopes(cfg.knownScopes)
      && call.record.subject == call.id.subject && call.record.grantedScope == call.id.servedScope
      && call.record.toolClassified == call.tool
      && call.record.roleSessionName ==
         (if call.record.gatewaySessionId.Some?
          then RoleSessionName(cfg.digest, call.record.gatewaySessionId.value) else None)
  {
    hide IdentityFrom, KnownScopes, ClassifyTool, ArgumentsForRecord, RoleSessionName, SessionId, Get, OrEmpty;
    var authorization := GetHeader(Obj(ClientHeaders(event)), "authorization");
    HeadersOfTheEvent(event, "authorization");
    ServedScopeIsKnown(cfg.verify, cfg.knownScopes, cfg.allowedClients, authorization, now);
    assert IdentityFrom(cfg.verify, cfg.knownScopes, cfg.allowedClients, authorization, now)
        == Some(ReadCall(cfg, event, now).call.id);
  }

  /** The caller of an event is verified by a token. */
  lemma CallersAreVerified(cfg: Config, event: Json, now: nat)
    ensures CallerOf(cfg, event, now).Some? ==> Verified(cfg, CallerOf(cfg, event, now).value, now)
  {
    hide IdentityFrom, Get, OrEmpty, GetHeader;
    if CallerOf(cfg, event, now).Some? {
      var authorization := GetHeader(Obj(ClientHeaders(event)), "authorization");
      assert IdentityFrom(cfg.verify, cfg.knownScopes, cfg.allowedClients, authorization, now)
          == CallerOf(cfg, event, now);
    }
  }

  /** The trust policy admits the interceptor's own tagged calls, so whether a session is minted is
      up to STS alone. */
  lemma OwnCallsAreTrusted(cfg: Config, sts: StsAnswer, call: AssumeCall, now: nat)
    ensures Mints(cfg, sts, call, now) <==> sts.Issued?
  {
    TrustGate([cfg.interceptorArn], cfg.interceptorArn, map["scope" := call.tag], now);
  }
}
