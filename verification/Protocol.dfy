/** The whole request path as a step machine: hostile requests, the interceptor, the tools, and
    tools that turn against the table with the credentials they hold. */
module Protocol {
  import opened Text
  import opened Wrappers
  import opened Json
  import opened Iam
  import opened ScopedPolicies
  import opened Vending
  import opened Identity
  import opened HeaderChannel
  import opened Envelope
  import opened RequestInterceptor
  import opened Documents
  import Search = SearchTool
  import Replies = ReplyTool

  datatype World = World(cfg: Config, lower: Lowering)

  /** A forwarded call as its tool sees it: the arguments of the request and the scope header. */
  datatype Work = Work(tool: Tool, arguments: seq<Entry>, servedScope: string)

  /** A minted session. Its three credential strings reach the tool unchanged (see the header
      channel), so whoever holds them acts in this session. */
  datatype Session = Session(call: AssumeCall, mintedAt: nat, work: Option<Work>)

  /** Sessions are named by the scope they were tagged with and the invocation that minted them. */
  datatype Key = Key(scope: string, invocation: string)

  datatype LogEntry = LogEntry(invocation: string, event: LogEvent)

  datatype State = State(table: Table, sessions: map<Key, Session>, now: nat, log: seq<LogEntry>)

  /** Any data-plane request. `leading` holds the partition keys the service derives from it; it is
      empty for a keyless request such as a Scan. */
  datatype DataCall = DataCall(action: string, resource: string, leading: seq<string>, writes: map<string, seq<Item>>)

  datatype Step =
    // A request with any content from anyone, handled by the interceptor.
    | Invoke(invocation: string, event: Json, sts: StsAnswer, delivered: seq<Entry>)
    // The tool behind a forwarded call runs as written.
    | RunTool(key: Key, paging: Search.Paging, transport: Replies.Transport)
    // Whoever holds the credentials of a session uses them for any request at all.
    | Access(key: Key, data: DataCall)
    // Some other principal tries to assume a scoped role, with any tags and any session policy.
    | AssumeAs(key: Key, principal: string, tags: map<string, string>, call: AssumeCall)
    | Wait(microseconds: nat)

  datatype ToolResult =
    | NotRun
    | Refused
    | Document(body: string, scope: string)
    | NotFound
    | Results(found: Search.Found)
    | Replied(reply: Replies.ReplyResult)

  datatype Output =
    | Decided(verdict: Verdict)
    | ToolOutput(result: ToolResult)
    | Data(view: map<string, seq<Item>>)
    | AccessDenied
    | Nothing

  // ----- what the data plane allows and does ----------------------------------------------

  predicate Allowed(w: World, session: Session, action: string, resource: string, leading: seq<string>, now: nat) {
    SessionAllows(session.call, w.cfg.tableArn, DataRequest(session.call, action, resource, leading, now))
  }

  /** The service confines a keyed request on the table to the partitions of its leading keys. A
      keyless request, or one on an index, can reach everything. */
  predicate IsKeyed(w: World, data: DataCall) {
    data.resource == w.cfg.tableArn && data.leading != []
  }

  function Reached(w: World, t: Table, data: DataCall): map<string, seq<Item>> {
    if IsKeyed(w, data) then map scope | scope in data.leading :: Partition(t, scope) else t
  }

  function Written(w: World, t: Table, data: DataCall): Table {
    if data.action in READ_ACTIONS then t
    else if IsKeyed(w, data) then t + (map scope | scope in data.writes && scope in data.leading :: data.writes[scope])
    else t + data.writes
  }

  // ----- the tools ------------------------------------------------------------------------

  function ReadDocument(items: seq<Item>, docId: string, scope: string): ToolResult {
    var at := Find(items, docId);
    if at.None? then NotFound else Document(items[at.value].body.GetOr(""), scope)
  }

  /** One run of the tool of a forwarded call: its result and the partition it leaves. A call that
      the service denies or the transport loses ends in the tool's generic error. */
  function ToolRun(w: World, session: Session, work: Work, items: seq<Item>, paging: Search.Paging,
                   transport: Replies.Transport, now: nat): (ToolResult, seq<Item>)
  {
    var reaches := (action: string) => transport.Answered?
        && Allowed(w, session, action, w.cfg.tableArn, [work.servedScope], now);
    match work.tool
    case ReadDocument =>
      var docId := Replies.CleanStr(Get(work.arguments, "doc_id", Null));
      if docId == "" then (Refused, items)
      else if !reaches(GET_ITEM) then (NotFound, items)
      else (ReadDocument(items, docId, work.servedScope), items)
    case SearchDocuments =>
      var query := Replies.CleanStr(Get(work.arguments, "query", Null));
      if query == "" || !reaches(QUERY) then (Refused, items)
      else (Results(Search.Search(w.lower, items, paging, w.lower(query))), items)
    case Reply =>
      var allowed := Allowed(w, session, UPDATE_ITEM, w.cfg.tableArn, [work.servedScope], now);
      var seen := if allowed then transport else Replies.Denied;
      var (reply, after) := Replies.HandleReply(items, work.arguments, true, seen);
      (Replied(reply), after)
  }

  // ----- steps ----------------------------------------------------------------------------

  ghost function Forwarded(event: Json, verdict: Verdict, delivered: seq<Entry>): Option<Work> {
    if verdict.Forward? && Delivers(ClientHeaders(event), verdict.headers, delivered)
        && ReadServedScope(delivered).Some? then
      Some(Work(verdict.tool, ArgumentsOf(verdict.body), ReadServedScope(delivered).value))
    else None
  }

  function Stamped(invocation: string, events: seq<LogEvent>): seq<LogEntry> {
    seq(|events|, i requires 0 <= i < |events| => LogEntry(invocation, events[i]))
  }

  ghost function AfterInvoke(w: World, s: State, invocation: string, event: Json, sts: StsAnswer,
      delivered: seq<Entry>): State
  {
    var (verdict, logged) := Decide(w.cfg, event, sts, s.now);
    var log := s.log + Stamped(invocation, logged);
    if |logged| == 2 && logged[1].Sts? then
      var call := logged[1].call;
      s.(log := log, sessions := s.sessions[Key(call.tag, invocation) :=
          Session(call, s.now, Forwarded(event, verdict, delivered))])
    else s.(log := log)
  }

  ghost function Next(w: World, s: State, step: Step): State {
    match step
    case Invoke(invocation, event, sts, delivered) => AfterInvoke(w, s, invocation, event, sts, delivered)
    case RunTool(key, paging, transport) =>
      if key in s.sessions && s.sessions[key].work.Some? then
        var work := s.sessions[key].work.value;
        var items := Partition(s.table, work.servedScope);
        var after := ToolRun(w, s.sessions[key], work, items, paging, transport, s.now).1;
        if after == items then s else s.(table := s.table[work.servedScope := after])
      else s
    case Access(key, data) =>
      if key in s.sessions && Allowed(w, s.sessions[key], data.action, data.resource, data.leading, s.now) then
        s.(table := Written(w, s.table, data))
      else s
    case AssumeAs(key, principal, tags, call) =>
      if principal != w.cfg.interceptorArn
         && AssumeAllowed(TrustPolicy([w.cfg.interceptorArn]), principal, tags, s.now) then
        s.(sessions := s.sessions[key := Session(call, s.now, None)])
      else s
    case Wait(d) => s.(now := s.now + d)
  }

  ghost function Out(w: World, s: State, step: Step): Output {
    match step
    case Invoke(invocation, event, sts, delivered) => Decided(Decide(w.cfg, event, sts, s.now).0)
    case RunTool(key, paging, transport) =>
      if key in s.sessions && s.sessions[key].work.Some? then
        var work := s.sessions[key].work.value;
        ToolOutput(ToolRun(w, s.sessions[key], work, Partition(s.table, work.servedScope), paging, transport, s.now).0)
      else ToolOutput(NotRun)
    case Access(key, data) =>
      if key in s.sessions && Allowed(w, s.sessions[key], data.action, data.resource, data.leading, s.now) then
        Data(Reached(w, s.table, data))
      else AccessDenied
    case _ => Nothing
  }

  ghost function Run(w: World, s: State, steps: seq<Step>): State
    decreases |steps|
  {
    if steps == [] then s else Run(w, Next(w, s, steps[0]), steps[1..])
  }

  ghost function Outputs(w: World, s: State, steps: seq<Step>): seq<Output>
    decreases |steps|
  {
    if steps == [] then [] else [Out(w, s, steps[0])] + Outputs(w, Next(w, s, steps[0]), steps[1..])
  }

  // ----- what every reachable state keeps -------------------------------------------------

  /** Session tag, leading-keys value of the policy and propagated scope agree on one known scope,
      and a token verified to this scope and to the subject the session is named for when it was
      minted. */
  ghost predicate SoundSession(w: World, s: State, key: Key) 
    requires key in s.sessions
  {
    var session := s.sessions[key];
    && session.mintedAt <= s.now
    && ScopedTo(w.cfg, session.call, key.scope, session.mintedAt)
    && Verified(w.cfg, VerifiedIdentity(key.scope, session.call.sourceIdentity), session.mintedAt)
    && (session.work.Some? ==>
          && session.work.value.servedScope == key.scope
          && RoleFor(session.work.value.tool) == session.call.role)
    && Logged(s.log, key.invocation, session.call)
  }

  /** The `AssumeRole` behind a session is on the log. */
  predicate Logged(log: seq<LogEntry>, invocation: string, call: AssumeCall) {
    exists i | 0 <= i < |log| :: log[i] == LogEntry(invocation, Sts(call))
  }

  /** An `AssumeRole` directly follows the audit record of the same invocation, and the two share
      the subject, the scope and the session name. */
  predicate Joined(log: seq<LogEntry>, i: nat)
    requires i < |log| && log[i].event.Sts?
  {
    && i > 0 && log[i - 1].invocation == log[i].invocation && log[i - 1].event.Audit?
    && (var record, call := log[i - 1].event.record, log[i].event.call;
        && record.subject == call.sourceIdentity
        && record.grantedScope == call.tag
        && record.roleSessionName == Some(call.sessionName))
  }

  ghost predicate Inv(w: World, s: State) {
    && (forall key | key in s.sessions :: SoundSession(w, s, key))
    && (forall i | 0 <= i < |s.log| && s.log[i].event.Sts? :: Joined(s.log, i))
  }

  /** Before anything happened: any table, no session, empty logs. */
  function Start(table: Table): State {
    State(table, map[], 0, [])
  }

  lemma LogGrows(log: seq<LogEntry>, more: seq<LogEntry>, invocation: string, call: AssumeCall)
    requires Logged(log, invocation, call)
    ensures Logged(log + more, invocation, call)
  {
    var i :| 0 <= i < |log| && log[i] == LogEntry(invocation, Sts(call));
    assert (log + more)[i] == log[i];
  }

  /** What the interceptor logs for one event, as far as the invariant needs it. */
  lemma MintedSession(w: World, event: Json, sts: StsAnswer, now: nat)
    ensures var logged := Decide(w.cfg, event, sts, now).1;
      && |logged| <= 2
      && (logged != [] ==> logged[0].Audit?)
      && (|logged| == 2 ==>
            && logged[1].Sts?
            && (var record, call := logged[0].record, logged[1].call;
                && ScopedTo(w.cfg, call, call.tag, now)
                && Verified(w.cfg, VerifiedIdentity(call.tag, call.sourceIdentity), now)
                && record.subject == call.sourceIdentity && record.grantedScope == call.tag
                && record.roleSessionName == Some(call.sessionName)))
  {
    hide Decide, ScopedTo, Verified, CallUnder, CallerOf, Asked;
    EverySessionIsAccountedFor(w.cfg, event, sts, now);
    CallersAreVerified(w.cfg, event, now);
    var logged := Decide(w.cfg, event, sts, now).1;
    if |logged| == 2 {
      TagIsScope(w, logged, now);
    }
  }

  lemma InvokeKeepsJoins(w: World, s: State, invocation: string, event: Json, sts: StsAnswer, delivered: seq<Entry>)
    requires Inv(w, s)
    ensures var log := AfterInvoke(w, s, invocation, event, sts, delivered).log;
      forall i | 0 <= i < |log| && log[i].event.Sts? :: Joined(log, i)
  {
    hide Decide, SoundSession, Forwarded, ScopedTo, Verified;
    MintedSession(w, event, sts, s.now);
    var logged := Decide(w.cfg, event, sts, s.now).1;
    var log := s.log + Stamped(invocation, logged);
    forall i | 0 <= i < |log| && log[i].event.Sts? ensures Joined(log, i) {
      if i < |s.log| {
        assert Joined(s.log, i);
      }
    }
  }

  lemma ForwardedScope(w: World, event: Json, sts: StsAnswer, now: nat, delivered: seq<Entry>)
    ensures var (verdict, logged) := Decide(w.cfg, event, sts, now);
      Forwarded(event, verdict, delivered).Some? ==>
        && |logged| == 2 && logged[1].Sts?
        && Forwarded(event, verdict, delivered).value.servedScope == logged[1].call.tag
        && RoleFor(Forwarded(event, verdict, delivered).value.tool) == logged[1].call.role
  {
    hide Decide, CallUnder, CallerOf, Asked, Sendable, HeaderMap, Delivers, ReadServedScope, RoleFor, KnownScopes,
        Strip;
    var (verdict, logged) := Decide(w.cfg, event, sts, now);
    EverySessionIsAccountedFor(w.cfg, event, sts, now);
    if Forwarded(event, verdict, delivered).Some? {
      ForwardsSendable(w, event, sts, now);
      var scope := logged[0].record.grantedScope;
      ChannelRoundTrips(ClientHeaders(event), scope, sts.creds, delivered);
      KnownScopesAreStripped(w.cfg.knownScopes, scope);
    }
  }

  lemma ForwardsSendable(w: World, event: Json, sts: StsAnswer, now: nat)
    ensures var (verdict, logged) := Decide(w.cfg, event, sts, now);
      verdict.Forward? ==>
        && sts.Issued? && |logged| == 2 && logged[0].Audit?
        && Sendable(logged[0].record.grantedScope, sts.creds)
        && verdict.headers == HeaderMap(logged[0].record.grantedScope, sts.creds)
  {
    hide Decide, ScopedTo, CallUnder, CallerOf, Asked, Sendable, HeaderMap;
    EverySessionIsAccountedFor(w.cfg, event, sts, now);
  }

  lemma InvokeKeepsSessions(w: World, s: State, invocation: string, event: Json, sts: StsAnswer, delivered: seq<Entry>)
    requires Inv(w, s)
    ensures var s' := AfterInvoke(w, s, invocation, event, sts, delivered);
      forall key | key in s'.sessions :: SoundSession(w, s', key)
  {
    hide Decide, Forwarded, ScopedTo, Verified;
    MintedSession(w, event, sts, s.now);
    ForwardedScope(w, event, sts, s.now, delivered);
    var (verdict, logged) := Decide(w.cfg, event, sts, s.now);
    var s' := AfterInvoke(w, s, invocation, event, sts, delivered);
    forall key | key in s'.sessions ensures SoundSession(w, s', key) {
      if key in s.sessions && s'.sessions[key] == s.sessions[key] {
        assert SoundSession(w, s, key);
        LogGrows(s.log, Stamped(invocation, logged), key.invocation, s.sessions[key].call);
      } else {
        assert s'.log[|s.log| + 1] == LogEntry(invocation, logged[1]);
      }
    }
  }

  lemma TagIsScope(w: World, logged: seq<LogEvent>, now: nat)
    requires |logged| == 2 && logged[0].Audit? && logged[1].Sts?
        && ScopedTo(w.cfg, logged[1].call, logged[0].record.grantedScope, now)
    ensures logged[1].call.tag == logged[0].record.grantedScope
  {
  }

  lemma AssumeAsChangesNothing(w: World, s: State, step: Step)
    requires step.AssumeAs?
    ensures Next(w, s, step) == s
  {
    hide AssumeAllowed, TrustPolicy;
    TrustGate([w.cfg.interceptorArn], step.principal, step.tags, s.now);
  }

  lemma StepKeepsInv(w: World, s: State, step: Step)
    requires Inv(w, s)
    ensures Inv(w, Next(w, s, step))
  {
    hide *;
    match step
    case Invoke(_, _, _, _) => InvokeKeepsInv(w, s, step);
    case AssumeAs(_, _, _, _) => AssumeAsChangesNothing(w, s, step);
    case _ => OthersMintNothing(w, s, step); SessionsUntouched(w, s, Next(w, s, step));
  }

  lemma InvokeKeepsInv(w: World, s: State, step: Step)
    requires Inv(w, s) && step.Invoke?
    ensures Inv(w, Next(w, s, step))
  {
    hide AfterInvoke, SoundSession, Joined;
    InvokeKeepsJoins(w, s, step.invocation, step.event, step.sts, step.delivered);
    InvokeKeepsSessions(w, s, step.invocation, step.event, step.sts, step.delivered);
  }

  lemma OthersMintNothing(w: World, s: State, step: Step)
    requires !step.Invoke?
    ensures var s' := Next(w, s, step); s'.sessions == s.sessions && s'.log == s.log && s'.now >= s.now
  {
    hide AssumeAllowed, ToolRun, Allowed, Written;
    if step.AssumeAs? {
      AssumeAsChangesNothing(w, s, step);
    }
  }

  lemma SessionsUntouched(w: World, s: State, s': State)
    requires Inv(w, s) && s'.sessions == s.sessions && s'.log == s.log && s'.now >= s.now
    ensures Inv(w, s')
  {
    hide ScopedTo;
    forall key | key in s'.sessions ensures SoundSession(w, s', key) {
      assert SoundSession(w, s, key);
    }
  }

  lemma {:induction false} RunKeepsInv(w: World, s: State, steps: seq<Step>)
    requires Inv(w, s)
    ensures Inv(w, Run(w, s, steps))
    decreases |steps|
  {
    if steps != [] {
      StepKeepsInv(w, s, steps[0]);
      RunKeepsInv(w, Next(w, s, steps[0]), steps[1..]);
    }
  }

  /** In every reachable state, whatever requests came in and whatever compromised tools did: every
      session is scoped four times over to one known scope, and every `AssumeRole` on the log joins
      to its audit record. */
  lemma EveryReachableStateIsSound(w: World, table: Table, steps: seq<Step>)
    ensures Inv(w, Run(w, Start(table), steps))
  {
    RunKeepsInv(w, Start(table), steps);
  }

  /** The handled request is on the log with its caller. A session follows it exactly when STS issues
      one for a call it can be asked for. */
  ghost predicate OnRecord(w: World, s: State, step: Step, s': State, record: AuditRecord)
    requires step.Invoke?
  {
    var planned := CallUnder(w.cfg, record, s.now);
    && RecordsTheCaller(w.cfg, record, step.event, s.now)
    && (if planned.Some? && step.sts.Issued? then
          && s'.log == s.log + Stamped(step.invocation, [Audit(record), Sts(planned.value)])
          && s'.sessions.Keys == s.sessions.Keys + {Key(record.grantedScope, step.invocation)}
        else
          && s'.log == s.log + Stamped(step.invocation, [Audit(record)])
          && s'.sessions == s.sessions)
  }

  lemma InvokeIsOnRecord(w: World, s: State, step: Step) returns (record: AuditRecord)
    requires step.Invoke? && Asked(step.event).Some? && CallerOf(w.cfg, step.event, s.now).Some?
    ensures OnRecord(w, s, step, Next(w, s, step), record)
  {
    hide Decide, Forwarded, CallUnder, CallerOf, Asked, RecordsTheCaller, ScopedTo, Verified, CredentialHeaders;
    EverySessionIsAccountedFor(w.cfg, step.event, step.sts, s.now);
    MintedSession(w, step.event, step.sts, s.now);
    record := Decide(w.cfg, step.event, step.sts, s.now).1[0].record;
  }

  lemma RefusedReadsLogNothing(w: World, s: State, step: Step)
    requires step.Invoke? && (Asked(step.event).None? || CallerOf(w.cfg, step.event, s.now).None?)
    ensures Next(w, s, step) == s
  {
    hide Decide, Forwarded, CallUnder, CallerOf, Asked, RecordsTheCaller, ScopedTo, CredentialHeaders;
    EverySessionIsAccountedFor(w.cfg, step.event, step.sts, s.now);
    assert s.log + Stamped(step.invocation, []) == s.log;
  }

  /** The other half of the audit join, for every step of every run. A request that asks for a tool
      under a token that verifies is on record; when it is refused its record is all it leaves. All
      other requests and all other steps leave the log and the sessions as they were. */
  lemma EveryStepIsAccountedFor(w: World, s: State, step: Step)
    ensures var s' := Next(w, s, step);
      if step.Invoke? && Asked(step.event).Some? && CallerOf(w.cfg, step.event, s.now).Some?
      then exists record :: OnRecord(w, s, step, s', record)
      else s'.log == s.log && s'.sessions == s.sessions
  {
    hide *;
    if step.Invoke? {
      if Asked(step.event).Some? && CallerOf(w.cfg, step.event, s.now).Some? {
        var record := InvokeIsOnRecord(w, s, step);
      } else {
        RefusedReadsLogNothing(w, s, step);
      }
    } else {
      OthersMintNothing(w, s, step);
    }
  }

  // ----- confinement ----------------------------------------------------------------------

  lemma SessionIsScoped(w: World, s: State, key: Key)
    requires Inv(w, s) && key in s.sessions
    ensures var call := s.sessions[key].call;
      && call.tag == key.scope && WildcardFree(key.scope)
      && call.policy == SessionPolicy(key.scope, w.cfg.tableArn, ActionsOf(call.role),
          ExpiresAt(s.sessions[key].mintedAt))
  {
    hide Verified;
    assert SoundSession(w, s, key);
  }

  /** Everything a session is allowed is keyed to its scope, on the table, within its actions and
      before its expiry; and all of that is allowed. */
  lemma SessionIsConfined(w: World, s: State, key: Key, action: string, resource: string, leading: seq<string>,
      now: nat)
    requires Inv(w, s) && key in s.sessions && WildcardFree(w.cfg.tableArn)
    ensures Allowed(w, s.sessions[key], action, resource, leading, now) <==>
            && action in ActionsOf(s.sessions[key].call.role) && resource == w.cfg.tableArn
            && leading != [] && (forall i | 0 <= i < |leading| :: leading[i] == key.scope)
            && now < ExpiresAt(s.sessions[key].mintedAt)
  {
    hide Inv, SessionPolicy, ReadRolePolicy, WriteRolePolicy, Allows;
    SessionIsScoped(w, s, key);
    var session := s.sessions[key];
    var r := DataRequest(session.call, action, resource, leading, now);
    assert r.Values(LEADING_KEYS) == leading && r.Values(PRINCIPAL_TAG) == [key.scope];
    SessionGate(key.scope, w.cfg.tableArn, ActionsOf(session.call.role), ExpiresAt(session.mintedAt), r);
    if session.call.role.WriteRole? {
      WriteRoleGate(w.cfg.tableArn, key.scope, r);
    } else {
      ReadRoleGate(w.cfg.tableArn, key.scope, r);
    }
  }

  /** A session's credentials stop working at most 60 seconds after they were minted, and a keyed
      request within its actions works for more than 59. */
  lemma UsableWindow(w: World, s: State, key: Key, action: string, resource: string, leading: seq<string>, now: nat)
    requires Inv(w, s) && key in s.sessions && WildcardFree(w.cfg.tableArn)
    ensures now >= s.sessions[key].mintedAt + 60 * MICROSECONDS ==>
        !Allowed(w, s.sessions[key], action, resource, leading, now)
    ensures now <= s.sessions[key].mintedAt + 59 * MICROSECONDS && action in ActionsOf(s.sessions[key].call.role) ==>
      Allowed(w, s.sessions[key], action, w.cfg.tableArn, [key.scope], now)
  {
    hide Inv, Allowed, ExpiresAt, ActionsOf, WildcardFree;
    SessionIsConfined(w, s, key, action, resource, leading, now);
    SessionIsConfined(w, s, key, action, w.cfg.tableArn, [key.scope], now);
    WindowLength(s.sessions[key].mintedAt);
  }
}
