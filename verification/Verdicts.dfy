/** When the request interceptor gives which verdict, told of the event and the answer of STS alone. */
module Verdicts {
  import opened Text
  import opened Wrappers
  import opened Json
  import opened Vending
  import opened Identity
  import opened ToolNames
  import opened HeaderChannel
  import opened Envelope
  import opened RequestInterceptor

  const BODY := ["mcp", "gatewayRequest", "body"]

  ghost predicate IsToolCall(event: Json) {
    LeadsTo(event, BODY + ["method"], Str("tools/call"))
  }

  /** The called name ends in the delimiter and the name of the tool. */
  ghost predicate Names(event: Json, tool: Tool) {
    exists name: string ::
      EndsWith(name, "___" + ToolName(tool)) && LeadsTo(event, BODY + ["params", "name"], Str(name))
  }

  /** A tool call that names the tool and whose arguments, if any, are a dict. */
  ghost predicate AsksFor(event: Json, tool: Tool) {
    IsToolCall(event) && Names(event, tool) && !Breaks(event, BODY + ["params", "arguments"])
  }

  /** Tag, source identity and session name can be written: a scope of at most 256 characters
      without wildcards, a subject STS takes, and a session header with content. */
  ghost predicate CanBeVended(id: VerifiedIdentity, headers: seq<Entry>) {
    && |id.servedScope| <= 256 && '*' !in id.servedScope && '?' !in id.servedScope
    && IsStsName(id.subject)
    && exists i | 0 <= i < |headers| :: NamesASession(headers[i])
  }

  /** STS issued a credential each of whose three fields has content that fits into a header. */
  predicate IssuedWhole(sts: StsAnswer) {
    && sts.Issued?
    && Fits(sts.creds, AccessKeyId) && Fits(sts.creds, SecretAccessKey) && Fits(sts.creds, SessionToken)
  }

  predicate Fits(creds: Creds, f: Carried) {
    f in creds && creds[f] != "" && Utf8Len(creds[f]) <= 4096
  }

  /** All that a call needs to reach its tool. */
  ghost predicate Granted(cfg: Config, event: Json, sts: StsAnswer, now: nat, tool: Tool) {
    && AsksFor(event, tool)
    && CallerOf(cfg, event, now).Some? && CanBeVended(CallerOf(cfg, event, now).value, ClientHeaders(event))
    && IssuedWhole(sts)
  }

  /** What the interceptor cannot get past: an envelope that is not made of dicts, parameters that
      are not a dict, or, once tool and caller are known, arguments that are not. */
  ghost predicate Unreadable(cfg: Config, event: Json, now: nat) {
    || Breaks(event, BODY)
    || (IsToolCall(event) && Breaks(event, BODY + ["params"]))
    || (IsToolCall(event) && CallerOf(cfg, event, now).Some? && Breaks(event, BODY + ["params", "arguments"])
        && exists tool :: Names(event, tool))
  }

  // ----- the paths of an event ------------------------------------------------------------

  lemma BodyIsOnThePath(event: Json, rest: seq<string>, leaf: Json)
    requires rest != []
    ensures LeadsTo(event, BODY + rest, leaf) <==>
      RequestBody(event).Some? && LeadsTo(Obj(RequestBody(event).value), rest, leaf)
  {
    hide LeadsTo, OrEmpty, Get;
    var inBody, inRequest := ["body"] + rest, ["gatewayRequest"] + (["body"] + rest);
    assert BODY + rest == ["mcp"] + inRequest;
    SectionIsAStep(event, "mcp", inRequest, leaf);
    if Section(event, "mcp").Some? {
      var mcp := Section(event, "mcp").value;
      SectionIsAStep(mcp, "gatewayRequest", inBody, leaf);
      if Section(mcp, "gatewayRequest").Some? {
        var request := Section(mcp, "gatewayRequest").value;
        SectionIsAStep(request, "body", rest, leaf);
        if Section(request, "body").Some? {
          OnlyDictsLead(Section(request, "body").value, rest, leaf);
        }
      }
    }
  }

  lemma OnlyDictsLead(v: Json, path: seq<string>, leaf: Json)
    requires path != []
    ensures LeadsTo(v, path, leaf) ==> v.Obj?
  {
  }

  lemma BodyBreaks(event: Json, rest: seq<string>)
    ensures Breaks(event, BODY + rest) <==> RequestBody(event).None? || Breaks(Obj(RequestBody(event).value), rest)
  {
    hide OrEmpty, Get;
    var inBody, inRequest := ["body"] + rest, ["gatewayRequest"] + (["body"] + rest);
    assert BODY + rest == ["mcp"] + inRequest;
    SectionBreaks(event, "mcp", inRequest);
    if Section(event, "mcp").Some? {
      var mcp := Section(event, "mcp").value;
      SectionBreaks(mcp, "gatewayRequest", inBody);
      if Section(mcp, "gatewayRequest").Some? {
        SectionBreaks(Section(mcp, "gatewayRequest").value, "body", rest);
      }
    }
  }

  /** The headers read are the ones on the path. */
  lemma HeadersAreOnThePath(event: Json, headers: seq<Entry>)
    requires headers != []
    ensures LeadsTo(event, ["mcp", "gatewayRequest", "headers"], Obj(headers)) <==> ClientHeaders(event) == headers
  {
    hide LeadsTo, OrEmpty, Get;
    var leaf := Obj(headers);
    var inRequest := ["gatewayRequest"] + ["headers"];
    assert ["mcp", "gatewayRequest", "headers"] == ["mcp"] + inRequest;
    SectionIsAStep(event, "mcp", inRequest, leaf);
    if Section(event, "mcp").Some? {
      var mcp := Section(event, "mcp").value;
      SectionIsAStep(mcp, "gatewayRequest", ["headers"], leaf);
      if Section(mcp, "gatewayRequest").Some? {
        SectionIsTheLastStep(Section(mcp, "gatewayRequest").value, "headers", headers);
      }
    }
  }

  lemma EmptyPathBreaks(v: Json)
    ensures Breaks(v, []) <==> !v.Obj?
  {
  }

  lemma ToolCallIff(event: Json)
    ensures IsToolCall(event) <==>
      RequestBody(event).Some? && Get(RequestBody(event).value, "method", Str("")) == Str(TOOLS_CALL)
  {
    hide LeadsTo, RequestBody, Get;
    BodyIsOnThePath(event, ["method"], Str("tools/call"));
    if RequestBody(event).Some? {
      FieldIsTheLastStep(Obj(RequestBody(event).value), "method", Str("tools/call"), Str(""));
    }
  }

  function ParamsIn(body: seq<Entry>): Json {
    OrEmpty(Get(body, "params", Obj([])))
  }

  lemma NameIsInParams(event: Json, name: string)
    requires name != ""
    ensures LeadsTo(event, BODY + ["params", "name"], Str(name)) <==>
      && RequestBody(event).Some? && ParamsIn(RequestBody(event).value).Obj?
      && Get(ParamsIn(RequestBody(event).value).entries, "name", Str("")) == Str(name)
  {
    hide LeadsTo, RequestBody, Get, OrEmpty;
    BodyIsOnThePath(event, ["params", "name"], Str(name));
    if RequestBody(event).Some? {
      var body := Obj(RequestBody(event).value);
      assert ["params", "name"] == ["params"] + ["name"];
      SectionIsAStep(body, "params", ["name"], Str(name));
      var params := ParamsIn(RequestBody(event).value);
      FieldIsTheLastStep(params, "name", Str(name), Str(""));
    }
  }

  lemma ParamsBreak(event: Json)
    ensures Breaks(event, BODY + ["params"]) <==>
      RequestBody(event).None? || !ParamsIn(RequestBody(event).value).Obj?
  {
    hide Breaks, RequestBody, Get, OrEmpty;
    BodyBreaks(event, ["params"]);
    if RequestBody(event).Some? {
      assert ["params"] == ["params"] + [];
      SectionBreaks(Obj(RequestBody(event).value), "params", []);
      EmptyPathBreaks(ParamsIn(RequestBody(event).value));
    }
  }

  lemma ArgumentsBreak(event: Json)
    ensures Breaks(event, BODY + ["params", "arguments"]) <==>
      || RequestBody(event).None? || !ParamsIn(RequestBody(event).value).Obj?
      || !OrEmpty(Get(ParamsIn(RequestBody(event).value).entries, "arguments", Obj([]))).Obj?
  {
    hide Breaks, RequestBody, Get, OrEmpty;
    BodyBreaks(event, ["params", "arguments"]);
    if RequestBody(event).Some? {
      assert ["params", "arguments"] == ["params"] + ["arguments"] && ["arguments"] == ["arguments"] + [];
      SectionBreaks(Obj(RequestBody(event).value), "params", ["arguments"]);
      var params := ParamsIn(RequestBody(event).value);
      SectionBreaks(params, "arguments", []);
      if params.Obj? {
        EmptyPathBreaks(OrEmpty(Get(params.entries, "arguments", Obj([]))));
      }
    }
  }

  /** The tool is classified exactly when the called name ends in the delimiter and its name. */
  lemma NamesIff(event: Json, tool: Tool)
    ensures Names(event, tool) <==>
      && RequestBody(event).Some? && ParamsIn(RequestBody(event).value).Obj?
      && ClassifyTool(Get(ParamsIn(RequestBody(event).value).entries, "name", Str(""))) == Some(tool)
  {
    hide LeadsTo, RequestBody, Get, ParamsIn, ClassifyTool, ToolName;
    if RequestBody(event).Some? && ParamsIn(RequestBody(event).value).Obj? {
      var action := Get(ParamsIn(RequestBody(event).value).entries, "name", Str(""));
      ClassifiedIffSuffixed(action, tool);
      if action.Str? && action.s != "" {
        NameIsInParams(event, action.s);
      }
    }
    forall name: string | EndsWith(name, "___" + ToolName(tool)) && LeadsTo(event, BODY + ["params", "name"], Str(name))
      ensures RequestBody(event).Some? && ParamsIn(RequestBody(event).value).Obj?
           && Get(ParamsIn(RequestBody(event).value).entries, "name", Str("")) == Str(name)
    {
      NameIsInParams(event, name);
    }
  }

  /** A tool is asked for exactly by a tool call that names it and has readable arguments. */
  lemma AskedIff(event: Json, tool: Tool)
    ensures Asked(event) == Some(tool) <==> AsksFor(event, tool)
  {
    hide LeadsTo, Breaks, RequestBody, Get, OrEmpty, ClassifyTool, Names, IsToolCall;
    ToolCallIff(event);
    NamesIff(event, tool);
    ArgumentsBreak(event);
  }

  // ----- what can be vended and sent ------------------------------------------------------

  lemma SessionIff(headers: seq<Entry>)
    ensures SessionId(Obj(headers)).Some? <==> exists i | 0 <= i < |headers| :: NamesASession(headers[i])
    ensures SessionId(Obj(headers)).Some? ==> !Blank(SessionId(Obj(headers)).value)
  {
    hide SessionId, SameButCase, Blank, Strip;
    SessionIdIsFound(Obj(headers));
    if SessionId(Obj(headers)).Some? {
      var i :| 0 <= i < |headers| && FirstSession(headers, i)
            && SessionId(Obj(headers)).value == Strip(headers[i].val.s);
      StrippedHasContent(headers[i].val.s);
    }
  }

  lemma StrippedHasContent(text: string)
    requires !Blank(text)
    ensures !Blank(Strip(text))
  {
    hide StripLeft, StripRight;
    assert !IsSpace(Strip(text)[0]);
  }

  lemma NamedIff(digest: Digest, session: Option<string>)
    requires session.Some? ==> !Blank(session.value)
    ensures RoleSessionName(digest, session.GetOr("")).Some? <==> session.Some?
  {
    hide FitsVerbatim, Shortened;
    assert Blank("");
  }

  lemma EmptyIsBlank()
    ensures Blank("")
  {
  }

  lemma VendIff(cfg: Config, record: AuditRecord, headers: seq<Entry>, now: nat)
    requires record.grantedScope in KnownScopes(cfg.knownScopes)
    requires record.gatewaySessionId == SessionId(Obj(headers))
    ensures CallUnder(cfg, record, now).Some? <==>
      CanBeVended(VerifiedIdentity(record.grantedScope, record.subject), headers)
  {
    hide IsStsName, SourceIdentity, RoleSessionName, SessionId, KnownScopes, NamesASession, Strip, Blank;
    SessionIff(headers);
    NamedIff(cfg.digest, record.gatewaySessionId);
    SubjectPassesIffStsName(record.subject);
    KnownScopesAreStripped(cfg.knownScopes, record.grantedScope);
    assert record.grantedScope != "" by { EmptyIsBlank(); }
  }

  lemma SendableIff(cfg: Config, scope: string, creds: Creds)
    requires scope in KnownScopes(cfg.knownScopes) && |scope| <= 256
    ensures Sendable(scope, creds) <==> IssuedWhole(Issued(creds))
  {
    hide Strip, KnownScopes;
    KnownScopesAreStripped(cfg.knownScopes, scope);
    assert Utf8Len(scope) <= 4 * |scope|;
    assert Blank("");
  }

  // ----- the verdicts ---------------------------------------------------------------------

  lemma ForwardsWhenSendable(cfg: Config, event: Json, sts: StsAnswer, now: nat)
    ensures var (verdict, logged) := Decide(cfg, event, sts, now);
      verdict.Forward? <==>
        && |logged| == 2 && logged[0].Audit? && sts.Issued?
        && Sendable(logged[0].record.grantedScope, sts.creds)
  {
    hide ReadCall, CallToSts, Mints, Sendable, HeaderMap, CallerOf, Verified, KnownScopes, RoleSessionName, Get;
    var reading := ReadCall(cfg, event, now);
    if reading.Go? {
      GoIsVerified(cfg, event, now);
      if CallToSts(cfg, reading.call, now).Some? {
        OwnCallsAreTrusted(cfg, sts, CallToSts(cfg, reading.call, now).value, now);
      }
    } else {
      StoppedForwardsNothing(cfg, event, now);
    }
  }

  lemma SessionsAreMinted(cfg: Config, event: Json, sts: StsAnswer, now: nat)
    ensures var logged := Decide(cfg, event, sts, now).1;
      |logged| == 2 <==>
        && Asked(event).Some? && CallerOf(cfg, event, now).Some? && sts.Issued?
        && CanBeVended(CallerOf(cfg, event, now).value, ClientHeaders(event))
    ensures |Decide(cfg, event, sts, now).1| == 2 ==>
      && Decide(cfg, event, sts, now).1[0].Audit? && CallerOf(cfg, event, now).Some?
      && Decide(cfg, event, sts, now).1[0].record.grantedScope == CallerOf(cfg, event, now).value.servedScope
  {
    hide Decide, JoinsTheRecord, CallUnder, CallerOf, Asked, CanBeVended, ClientHeaders, SessionId;
    EverySessionIsAccountedFor(cfg, event, sts, now);
    var logged := Decide(cfg, event, sts, now).1;
    if logged != [] {
      CallersScopeIsKnown(cfg, event, now);
      VendIff(cfg, logged[0].record, ClientHeaders(event), now);
    }
  }

  lemma CallersScopeIsKnown(cfg: Config, event: Json, now: nat)
    ensures CallerOf(cfg, event, now).Some? ==>
      CallerOf(cfg, event, now).value.servedScope in KnownScopes(cfg.knownScopes)
  {
    hide IdentityFrom, KnownScopes, ClientHeaders;
    ServedScopeIsKnown(cfg.verify, cfg.knownScopes, cfg.allowedClients,
        GetHeader(Obj(ClientHeaders(event)), "authorization"), now);
  }

  /** A call reaches its tool exactly when it names a tool and can be read, its token verifies, scope,
      subject and session can be written into an `AssumeRole`, and STS issues a credential that fits. */
  lemma ForwardedIffGranted(cfg: Config, event: Json, sts: StsAnswer, now: nat)
    ensures Decide(cfg, event, sts, now).0.Forward? <==> exists tool :: Granted(cfg, event, sts, now, tool)
  {
    hide *;
    ForwardsWhenSendable(cfg, event, sts, now);
    SessionsAreMinted(cfg, event, sts, now);
    GrantedIff(cfg, event, sts, now);
    var caller := CallerOf(cfg, event, now);
    if caller.Some? && CanBeVended(caller.value, ClientHeaders(event)) && sts.Issued? {
      CallersScopeIsKnown(cfg, event, now);
      VendedScopesAreShort(caller.value, ClientHeaders(event));
      SendableIff(cfg, caller.value.servedScope, sts.creds);
      assert sts == Issued(sts.creds);
    }
  }

  lemma VendedScopesAreShort(id: VerifiedIdentity, headers: seq<Entry>)
    requires CanBeVended(id, headers)
    ensures |id.servedScope| <= 256
  {
  }

  lemma GrantedIff(cfg: Config, event: Json, sts: StsAnswer, now: nat)
    ensures (exists tool :: Granted(cfg, event, sts, now, tool)) <==>
      && Asked(event).Some? && CallerOf(cfg, event, now).Some?
      && CanBeVended(CallerOf(cfg, event, now).value, ClientHeaders(event)) && IssuedWhole(sts)
    ensures IssuedWhole(sts) ==> sts.Issued?
  {
    hide Asked, AsksFor, CallerOf, CanBeVended, ClientHeaders, Fits;
    forall tool ensures Asked(event) == Some(tool) <==> AsksFor(event, tool) {
      AskedIff(event, tool);
    }
    if Asked(event).Some? && CallerOf(cfg, event, now).Some?
       && CanBeVended(CallerOf(cfg, event, now).value, ClientHeaders(event)) && IssuedWhole(sts) {
      assert Granted(cfg, event, sts, now, Asked(event).value);
    }
  }

  /** Where the run stops, told of the parts of the request. */
  lemma ReadingStops(cfg: Config, event: Json, now: nat)
    ensures var reading, body := ReadCall(cfg, event, now), RequestBody(event);
      var isCall := body.Some? && Get(body.value, "method", Str("")) == Str(TOOLS_CALL);
      && (reading.Stop? && reading.verdict.Crash? <==>
            || body.None?
            || (isCall && !ParamsIn(body.value).Obj?)
            || (isCall && CallerOf(cfg, event, now).Some?
                && ClassifyTool(Get(ParamsIn(body.value).entries, "name", Str(""))).Some?
                && !OrEmpty(Get(ParamsIn(body.value).entries, "arguments", Obj([]))).Obj?))
      && (reading.Stop? && reading.verdict.PassThrough? <==> body.Some? && !isCall)
  {
    hide IdentityFrom, ClassifyTool, BuildAuditRecord, Get, OrEmpty, GetHeader, SessionId;
    HeadersOfTheEvent(event, "authorization");
  }

  lemma VerdictsOfStops(cfg: Config, event: Json, sts: StsAnswer, now: nat)
    ensures var verdict, reading := Decide(cfg, event, sts, now).0, ReadCall(cfg, event, now);
      && (verdict.Crash? <==> reading.Stop? && reading.verdict.Crash?)
      && (verdict.PassThrough? <==> reading.Stop? && reading.verdict.PassThrough?)
  {
    hide ReadCall, CallToSts, Mints, CredentialHeaders;
  }

  /** The interceptor itself fails exactly for what it cannot read; every other message than a tool
      call passes through; and a tool call that is neither is forwarded or answered. */
  lemma OtherVerdictsIff(cfg: Config, event: Json, sts: StsAnswer, now: nat)
    ensures Decide(cfg, event, sts, now).0.Crash? <==> Unreadable(cfg, event, now)
    ensures Decide(cfg, event, sts, now).0.PassThrough? <==> !Breaks(event, BODY) && !IsToolCall(event)
  {
    hide Breaks, Names, IsToolCall, Decide, ReadCall, CallerOf, RequestBody, ParamsIn, ClassifyTool, Get, OrEmpty;
    VerdictsOfStops(cfg, event, sts, now);
    ReadingStops(cfg, event, now);
    assert BODY + [] == BODY;
    BodyBreaks(event, []);
    if RequestBody(event).Some? {
      EmptyPathBreaks(Obj(RequestBody(event).value));
    }
    ToolCallIff(event);
    ParamsBreak(event);
    ArgumentsBreak(event);
    forall tool ensures Names(event, tool) <==>
      && RequestBody(event).Some? && ParamsIn(RequestBody(event).value).Obj?
      && ClassifyTool(Get(ParamsIn(RequestBody(event).value).entries, "name", Str(""))) == Some(tool)
    {
      NamesIff(event, tool);
    }
  }
}
