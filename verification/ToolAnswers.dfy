/** What a granted call leaves behind and what its tool then answers, in every reachable state. */
module ToolAnswers {
  import opened Text
  import opened Wrappers
  import opened Json
  import opened Iam
  import opened ScopedPolicies
  import opened Vending
  import opened Identity
  import opened HeaderChannel
  import opened RequestInterceptor
  import opened Verdicts
  import opened Documents
  import opened Protocol
  import Search = SearchTool
  import Replies = ReplyTool

  // ----- from the event to a session with work --------------------------------------------

  /** The tool gets the four headers as written, and none of them is blank. */
  ghost predicate Arrives(event: Json, scope: string, creds: Creds, delivered: seq<Entry>) {
    HasAllFields(creds) && HasContent(creds) && Delivers(ClientHeaders(event), HeaderMap(scope, creds), delivered)
  }

  lemma GrantedAsks(w: World, event: Json, sts: StsAnswer, now: nat, tool: Tool)
    requires Granted(w.cfg, event, sts, now, tool)
    ensures AsksFor(event, tool) && CallerOf(w.cfg, event, now).Some?
  {
    hide AsksFor, CallerOf, CanBeVended, ClientHeaders;
  }

  lemma ForwardedRecord(w: World, event: Json, sts: StsAnswer, now: nat)
    ensures var (verdict, logged) := Decide(w.cfg, event, sts, now);
      verdict.Forward? ==>
        && |logged| == 2 && logged[0].Audit? && logged[1].Sts?
        && CallerOf(w.cfg, event, now).Some? && Asked(event) == Some(verdict.tool)
        && logged[0].record.grantedScope == logged[1].call.tag == CallerOf(w.cfg, event, now).value.servedScope
        && logged[1].call.role == RoleFor(verdict.tool)
  {
    hide Decide, CallUnder, CallerOf, Asked, CredentialHeaders, RoleFor, KnownScopes, SessionPolicy;
    EverySessionIsAccountedFor(w.cfg, event, sts, now);
  }

  lemma ForwardedCall(w: World, event: Json, sts: StsAnswer, now: nat, tool: Tool)
    requires Granted(w.cfg, event, sts, now, tool)
    ensures CallerOf(w.cfg, event, now).Some? && sts.Issued?
    ensures var (verdict, logged) := Decide(w.cfg, event, sts, now);
      var body, scope := RequestBody(event), CallerOf(w.cfg, event, now).value.servedScope;
      && body.Some? && Sendable(scope, sts.creds) && Strip(scope) == scope
      && verdict == Forward(Obj(body.value), tool, HeaderMap(scope, sts.creds))
      && |logged| == 2 && logged[1].Sts? && logged[1].call.tag == scope && logged[1].call.role == RoleFor(tool)
  {
    hide Decide, Granted, CallerOf, Asked, AsksFor, Sendable, HeaderMap, RequestBody, Get, OrEmpty, KnownScopes, Strip;
    ForwardedIffGranted(w.cfg, event, sts, now);
    ForwardsSendable(w, event, sts, now);
    BodyIsForwardedUnchanged(w.cfg, event, sts, now);
    AskedIff(event, tool);
    GrantedAsks(w, event, sts, now, tool);
    ForwardedRecord(w, event, sts, now);
    CallersScopeIsKnown(w.cfg, event, now);
    KnownScopesAreStripped(w.cfg.knownScopes, CallerOf(w.cfg, event, now).value.servedScope);
  }

  /** What the tool makes of the delivered headers: its work when they arrive, and nothing else. */
  lemma DeliveredWork(event: Json, body: Json, tool: Tool, scope: string, creds: Creds, delivered: seq<Entry>)
    requires Sendable(scope, creds) && Strip(scope) == scope
    ensures Forwarded(event, Forward(body, tool, HeaderMap(scope, creds)), delivered) ==
            if Arrives(event, scope, creds, delivered) then Some(Work(tool, ArgumentsOf(body), scope)) else None
  {
    hide Delivers, ReadServedScope, SessionKwargs, HeaderMap, Strip, ClientHeaders, ArgumentsOf;
    if Delivers(ClientHeaders(event), HeaderMap(scope, creds), delivered) {
      ChannelRoundTrips(ClientHeaders(event), scope, creds, delivered);
    }
  }

  /** A granted call leaves a session of its own. When its headers arrive, the session has the work of
      the tool: the arguments of the request and the scope of the caller. */
  lemma GrantedCallLeavesWork(w: World, s: State, step: Step, tool: Tool)
    requires step.Invoke? && Granted(w.cfg, step.event, step.sts, s.now, tool)
    ensures CallerOf(w.cfg, step.event, s.now).Some?
    ensures var scope := CallerOf(w.cfg, step.event, s.now).value.servedScope;
      var key, body, s' := Key(scope, step.invocation), RequestBody(step.event), Next(w, s, step);
      && body.Some? && HasAllFields(step.sts.creds)
      && Out(w, s, step) == Decided(Forward(Obj(body.value), tool, HeaderMap(scope, step.sts.creds)))
      && key in s'.sessions && s'.sessions[key].mintedAt == s.now && s'.sessions[key].call.role == RoleFor(tool)
      && s'.sessions[key].work ==
         if Arrives(step.event, scope, step.sts.creds, step.delivered)
         then Some(Work(tool, ArgumentsOf(Obj(body.value)), scope)) else None
  {
    hide Decide, Granted, CallerOf, RequestBody, HeaderMap, ArgumentsOf, Arrives, Forwarded, RoleFor, Stamped;
    ForwardedCall(w, step.event, step.sts, s.now, tool);
    var scope, body := CallerOf(w.cfg, step.event, s.now).value.servedScope, RequestBody(step.event).value;
    DeliveredWork(step.event, Obj(body), tool, scope, step.sts.creds, step.delivered);
  }

  // ----- from a session with work to an answer --------------------------------------------

  /** The argument is a text with content; this is it without blank ends. */
  predicate Given(arguments: seq<Entry>, name: string, text: string) {
    var v := Get(arguments, name, Null);
    v.Str? && !Blank(v.s) && text == Strip(v.s)
  }

  lemma GivenIsClean(arguments: seq<Entry>, name: string)
    ensures forall text :: Given(arguments, name, text) ==>
      Replies.CleanStr(Get(arguments, name, Null)) == text && text != ""
    ensures (forall text :: !Given(arguments, name, text)) ==> Replies.CleanStr(Get(arguments, name, Null)) == ""
  {
    hide Strip, Blank, Get;
    var v := Get(arguments, name, Null);
    if v.Str? {
      assert !Blank(v.s) ==> Given(arguments, name, Strip(v.s));
    }
  }

  /** A session with work of this tool that has not expired, in a state that some run may reach. */
  ghost predicate Ready(w: World, s: State, key: Key, tool: Tool) {
    && Inv(w, s) && WildcardFree(w.cfg.tableArn)
    && key in s.sessions && s.sessions[key].work.Some? && s.sessions[key].work.value.tool == tool
    && s.now < ExpiresAt(s.sessions[key].mintedAt)
  }

  function Arguments(s: State, key: Key): seq<Entry>
    requires key in s.sessions && s.sessions[key].work.Some?
  {
    s.sessions[key].work.value.arguments
  }

  /** The service lets the tool do what it is there for, and nobody else's partition comes into it. */
  lemma ReadyIsAllowed(w: World, s: State, key: Key, tool: Tool)
    requires Ready(w, s, key, tool)
    ensures s.sessions[key].work.value.servedScope == key.scope
    ensures forall action | action in ActionsOf(RoleFor(tool)) ::
      Allowed(w, s.sessions[key], action, w.cfg.tableArn, [key.scope], s.now)
  {
    hide Allowed, ExpiresAt, ActionsOf, WildcardFree, ScopedTo, Verified, Logged;
    assert SoundSession(w, s, key);
    forall action | action in ActionsOf(RoleFor(tool))
      ensures Allowed(w, s.sessions[key], action, w.cfg.tableArn, [key.scope], s.now)
    {
      SessionIsConfined(w, s, key, action, w.cfg.tableArn, [key.scope], s.now);
    }
  }

  lemma ActionsOfTools()
    ensures GET_ITEM in ActionsOf(RoleFor(ReadDocument))
    ensures QUERY in ActionsOf(RoleFor(SearchDocuments))
    ensures UPDATE_ITEM in ActionsOf(RoleFor(Reply))
  {
  }

  /** The item a key names. */
  predicate IsItem(items: seq<Item>, docId: string, i: nat) {
    i < |items| && items[i].docId == docId && forall j | 0 <= j < i :: items[j].docId != docId
  }

  lemma FindIff(items: seq<Item>, docId: string)
    ensures forall i: nat :: IsItem(items, docId, i) <==> Find(items, docId) == Some(i)
    decreases |items|
  {
    if items != [] && items[0].docId != docId {
      FindIff(items[1..], docId);
      forall i: nat ensures IsItem(items, docId, i) <==> i > 0 && IsItem(items[1..], docId, i - 1) {
        assert forall j | 1 <= j < |items| :: items[j] == items[1..][j - 1];
      }
    }
  }

  /** A read answers exactly the body of the document that has the asked id in the caller's own
      partition, "not found" exactly when that partition has none, and changes nothing. */
  lemma ReadAnswersTheBody(w: World, s: State, key: Key, paging: Search.Paging, docId: string)
    requires Ready(w, s, key, ReadDocument) && Given(Arguments(s, key), "doc_id", docId)
    ensures var step, items := RunTool(key, paging, Replies.Answered), Partition(s.table, key.scope);
      && Next(w, s, step) == s
      && (forall i: nat | IsItem(items, docId, i) ::
            Out(w, s, step) == ToolOutput(Document(items[i].body.GetOr(""), key.scope)))
      && (Out(w, s, step) == ToolOutput(NotFound) <==> forall i | 0 <= i < |items| :: items[i].docId != docId)
  {
    hide Allowed, ActionsOf, Inv, Given, Get, IsItem, Replies.CleanStr, ExpiresAt;
    ReadyIsAllowed(w, s, key, ReadDocument);
    ActionsOfTools();
    GivenIsClean(Arguments(s, key), "doc_id");
    FindIff(Partition(s.table, key.scope), docId);
  }

  /** A search answers the first 25 matches of the pages it reads in the caller's own partition, for
      the stripped and lower-cased query, says whether it was cut short, and changes nothing. */
  lemma SearchAnswersTheMatches(w: World, s: State, key: Key, paging: Search.Paging, query: string, pages: nat)
    requires Ready(w, s, key, SearchDocuments) && Given(Arguments(s, key), "query", query)
    requires Search.IsLastPage(w.lower, Partition(s.table, key.scope), paging, w.lower(query), pages)
    ensures var step, items := RunTool(key, paging, Replies.Answered), Partition(s.table, key.scope);
      && Next(w, s, step) == s
      && pages > 0
      && exists found :: Out(w, s, step) == ToolOutput(Results(found))
           && Search.IsFoundIn(w.lower, items, paging, w.lower(query), pages, found)
  {
    hide Allowed, ActionsOf, Inv, Given, Get, Replies.CleanStr, ExpiresAt, Search.Search, Search.IsFoundIn,
      Search.Stops;
    ReadyIsAllowed(w, s, key, SearchDocuments);
    ActionsOfTools();
    GivenIsClean(Arguments(s, key), "query");
    Search.SearchFindsWhatItReads(w.lower, Partition(s.table, key.scope), paging, w.lower(query), pages);
  }

  predicate HasRoom(item: Item) {
    item.conversation.None? || |item.conversation.value| < 50
  }

  /** The partition with one entry at the end of one document's conversation. */
  predicate IsAppended(before: seq<Item>, after: seq<Item>, i: nat, entry: string)
    requires i < |before|
  {
    && |after| == |before|
    && (forall j | 0 <= j < |before| && j != i :: after[j] == before[j])
    && after[i].docId == before[i].docId && after[i].title == before[i].title && after[i].body == before[i].body
    && after[i].conversation == Some(before[i].conversation.GetOr([]) + [entry])
  }

  /** The states agree but for one partition. */
  ghost predicate OnlyPartition(s: State, s': State, scope: string) {
    && s'.sessions == s.sessions && s'.now == s.now && s'.log == s.log
    && forall other | other != scope :: Partition(s'.table, other) == Partition(s.table, other)
  }

  /** A reply that fits appends exactly its entry to the document that has the asked id in the
      caller's own partition, and reports that; when there is none or it is full, it is refused and
      changes nothing; when it is too long it is not even tried. */
  lemma ReplyAppendsOrRefuses(w: World, s: State, key: Key, paging: Search.Paging, docId: string, body: string)
    requires Ready(w, s, key, Reply)
    requires Given(Arguments(s, key), "doc_id", docId) && Given(Arguments(s, key), "body", body)
    ensures var step, items := RunTool(key, paging, Replies.Answered), Partition(s.table, key.scope);
      var s', out := Next(w, s, step), Out(w, s, step);
      && (Utf8Len(body) > 4000 ==> out == ToolOutput(Replied(Replies.BodyTooLong)) && s' == s)
      && (Utf8Len(body) <= 4000 ==>
            && (forall i: nat | IsItem(items, docId, i) && HasRoom(items[i]) ::
                  && out == ToolOutput(Replied(Replies.Success))
                  && OnlyPartition(s, s', key.scope) && IsAppended(items, Partition(s'.table, key.scope), i, body))
            && ((forall i: nat | IsItem(items, docId, i) :: !HasRoom(items[i])) ==>
                  out == ToolOutput(Replied(Replies.AppendRefused)) && s' == s))
  {
    hide Allowed, ActionsOf, Inv, Given, Get, IsItem, Replies.CleanStr, ExpiresAt, Utf8Len;
    ReadyIsAllowed(w, s, key, Reply);
    ActionsOfTools();
    GivenIsClean(Arguments(s, key), "doc_id");
    GivenIsClean(Arguments(s, key), "body");
    FindIff(Partition(s.table, key.scope), docId);
  }

  /** Once a session has expired, or when the call does not get through, its tool changes nothing and
      answers one of its fixed errors. */
  lemma BlockedToolsChangeNothing(w: World, s: State, key: Key, paging: Search.Paging, transport: Replies.Transport)
    requires Inv(w, s) && WildcardFree(w.cfg.tableArn) && key in s.sessions && s.sessions[key].work.Some?
    requires s.now >= ExpiresAt(s.sessions[key].mintedAt) || transport.Denied? || transport.RequestLost?
    ensures var step, tool := RunTool(key, paging, transport), s.sessions[key].work.value.tool;
      && Next(w, s, step) == s
      && Out(w, s, step).ToolOutput?
      && (var r := Out(w, s, step).result;
          match tool
          case ReadDocument => r == Refused || r == NotFound
          case SearchDocuments => r == Refused
          case Reply => r == Replied(Replies.GenericError) || r == Replied(Replies.BodyTooLong))
  {
    hide Allowed, ActionsOf, Inv, Get, Replies.CleanStr, ExpiresAt, Utf8Len, CanAppend, Updated;
    ExpiredIsDenied(w, s, key);
  }

  lemma ExpiredIsDenied(w: World, s: State, key: Key)
    requires Inv(w, s) && WildcardFree(w.cfg.tableArn) && key in s.sessions
    ensures s.now >= ExpiresAt(s.sessions[key].mintedAt) ==> forall action, resource, leading ::
      !Allowed(w, s.sessions[key], action, resource, leading, s.now)
  {
    hide Allowed, ExpiresAt, ActionsOf, WildcardFree, Inv;
    forall action, resource, leading | s.now >= ExpiresAt(s.sessions[key].mintedAt)
      ensures !Allowed(w, s.sessions[key], action, resource, leading, s.now)
    {
      SessionIsConfined(w, s, key, action, resource, leading, s.now);
    }
  }

  /** A tool whose argument is missing, blank or not a text answers so and touches nothing. */
  lemma EmptyArgumentsAreRefused(w: World, s: State, key: Key, paging: Search.Paging, transport: Replies.Transport,
      name: string)
    requires key in s.sessions && s.sessions[key].work.Some?
    requires forall text :: !Given(Arguments(s, key), name, text)
    ensures var step, tool := RunTool(key, paging, transport), s.sessions[key].work.value.tool;
      && (tool.ReadDocument? && name == "doc_id" ==> Out(w, s, step) == ToolOutput(Refused) && Next(w, s, step) == s)
      && (tool.SearchDocuments? && name == "query" ==> Out(w, s, step) == ToolOutput(Refused) && Next(w, s, step) == s)
      && (tool.Reply? && (name == "doc_id" || name == "body") ==>
            Out(w, s, step) == ToolOutput(Replied(Replies.GenericError)) && Next(w, s, step) == s)
  {
    hide Allowed, Given, Get, Replies.CleanStr, Utf8Len, CanAppend, Updated;
    GivenIsClean(Arguments(s, key), name);
  }
}
