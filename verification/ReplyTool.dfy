/** The reply tool: a bounded conditional append, alone and under any number of concurrent replies. */
module ReplyTool {
  import opened Text
  import opened Wrappers
  import opened Json
  import opened Documents

  const MAX_BODY_BYTES := 4000
  const MAX_CONVERSATION_BYTES := 200000

  function CleanStr(v: Json): string {
    if v.Str? then Strip(v.s) else ""
  }

  /** What happens to one `update_item` call on its way. */
  datatype Transport = Answered | Denied | RequestLost | ResponseLost

  datatype ReplyResult = Success | GenericError | BodyTooLong | AppendRefused

  /** The handler on one partition: its answer and the partition it leaves. */
  function HandleReply(items: seq<Item>, event: seq<Entry>, scoped: bool, transport: Transport)
    : (ReplyResult, seq<Item>)
  {
    var docId, body := CleanStr(Get(event, "doc_id", Null)), CleanStr(Get(event, "body", Null));
    if docId == "" || body == "" then (GenericError, items)
    else if Utf8Len(body) > MAX_BODY_BYTES then (BodyTooLong, items)
    else if !scoped || transport.Denied? || transport.RequestLost? then (GenericError, items)
    else
      (if transport.ResponseLost? then GenericError else if CanAppend(items, docId) then Success else AppendRefused,
       Updated(items, docId, body))
  }

  /** The table as the server holds it. */
  class DocumentsTable {
    var partitions: Table

    constructor (t: Table)
      ensures partitions == t
    {
      partitions := t;
    }

    /** The conditional `UpdateItem`, atomic with its condition. */
    method UpdateItem(scope: string, docId: string, entry: string) returns (applied: bool)
      modifies this
      ensures applied == CanAppend(Partition(old(partitions), scope), docId)
      ensures partitions == if applied
                            then old(partitions)[scope := Appended(Partition(old(partitions), scope), docId, entry)]
                            else old(partitions)
    {
      var items := Partition(partitions, scope);
      applied := CanAppend(items, docId);
      if applied {
        partitions := partitions[scope := Appended(items, docId, entry)];
      }
    }

    /** The handler: `servedScope` is none when the propagated headers are incomplete. Success is
        reported only when the entry was appended; every other answer but a lost response leaves
        the table as it was. */
    method Reply(event: seq<Entry>, servedScope: Option<string>, transport: Transport) returns (r: ReplyResult)
      modifies this
      ensures var docId, body := CleanStr(Get(event, "doc_id", Null)), CleanStr(Get(event, "body", Null));
        var valid := docId != "" && body != "" && Utf8Len(body) <= MAX_BODY_BYTES && servedScope.Some?;
        var items := Partition(old(partitions), servedScope.GetOr(""));
        var reached := valid && (transport.Answered? || transport.ResponseLost?);
        && (partitions == if reached && CanAppend(items, docId)
                          then old(partitions)[servedScope.value := Appended(items, docId, body)] else old(partitions))
        && (r.Success? <==> valid && transport.Answered? && CanAppend(items, docId))
        && (r.AppendRefused? <==> valid && transport.Answered? && !CanAppend(items, docId))
        && (r.BodyTooLong? <==> docId != "" && body != "" && Utf8Len(body) > MAX_BODY_BYTES)
      ensures var scope := servedScope.GetOr("");
        (r, Partition(partitions, scope)) == HandleReply(Partition(old(partitions), scope), event, servedScope.Some?,
            transport)
    {
      var docId, body := CleanStr(Get(event, "doc_id", Null)), CleanStr(Get(event, "body", Null));
      if docId == "" || body == "" {
        return GenericError;
      }
      if Utf8Len(body) > MAX_BODY_BYTES {
        return BodyTooLong;
      }
      if servedScope.None? || transport.Denied? || transport.RequestLost? {
        return GenericError;
      }
      var applied := UpdateItem(servedScope.value, docId, body);
      if transport.ResponseLost? {
        return GenericError;
      }
      return if applied then Success else AppendRefused;
    }
  }

  // ----- any number of replies at once ----------------------------------------------------

  /** One reply and its update. The transport may deliver the update any number of times (an SDK retry
      after a lost response), at any time, also after the caller has given up or has been answered,
      or never. `applied` counts the deliveries that appended, `refused` says that some delivery was
      refused. The answer may report any delivery's verdict, whatever other deliveries did before it
      arrived. */
  datatype Call = Call(scope: string, docId: string, body: string, applied: nat, refused: bool,
      answer: Option<ReplyResult>)

  datatype State = State(table: Table, calls: seq<Call>)

  datatype Step =
    | Send(scope: string, docId: string, body: string)
    | Deliver(call: nat)
    | Answer(call: nat, told: bool)
    | Lose(call: nat)

  /** A reply passes the local checks before it is sent. */
  predicate Sendable(docId: string, body: string) {
    docId != "" && body != "" && Utf8Len(body) <= MAX_BODY_BYTES
  }

  function Delivered(s: State, i: nat): State
    requires i < |s.calls|
  {
    var c := s.calls[i];
    var items := Partition(s.table, c.scope);
    if CanAppend(items, c.docId) then
      State(s.table[c.scope := Appended(items, c.docId, c.body)],
          s.calls[i := c.(applied := c.applied + 1)])
    else State(s.table, s.calls[i := c.(refused := true)])
  }

  /** One step; a step that is not enabled changes nothing. */
  function Next(s: State, step: Step): State {
    match step
    case Send(scope, docId, body) =>
      if Sendable(docId, body) then s.(calls := s.calls + [Call(scope, docId, body, 0, false, None)]) else s
    case Deliver(i) => if i < |s.calls| then Delivered(s, i) else s
    case Answer(i, told) =>
      if i < |s.calls| && s.calls[i].answer.None? && (if told then s.calls[i].applied > 0 else s.calls[i].refused) then
        s.(calls := s.calls[i := s.calls[i].(answer := Some(if told then Success else AppendRefused))])
      else s
    case Lose(i) =>
      if i < |s.calls| && s.calls[i].answer.None? then
        s.(calls := s.calls[i := s.calls[i].(answer := Some(GenericError))])
      else s
  }

  function Run(s: State, steps: seq<Step>): State
    decreases |steps|
  {
    if steps == [] then s else Run(Next(s, steps[0]), steps[1..])
  }

  /** Every conversation has at most 50 entries of at most 4000 octets. */
  ghost predicate Bounded(t: Table) {
    forall scope, i | scope in t && 0 <= i < |t[scope]| :: BoundedItem(t[scope][i])
  }

  predicate BoundedItem(item: Item) {
    |Entries(item)| <= MAX_CONVERSATION_LEN && forall k | 0 <= k < |Entries(item)| ::
        Utf8Len(Entries(item)[k]) <= MAX_BODY_BYTES
  }

  function Bytes(entries: seq<string>): nat {
    if entries == [] then 0 else Utf8Len(entries[0]) + Bytes(entries[1..])
  }

  lemma {:induction false} BytesOfBounded(entries: seq<string>, n: nat)
    requires |entries| <= n && forall k | 0 <= k < |entries| :: Utf8Len(entries[k]) <= MAX_BODY_BYTES
    ensures Bytes(entries) <= n * MAX_BODY_BYTES
    decreases |entries|
  {
    if entries != [] {
      BytesOfBounded(entries[1..], n - 1);
    }
  }

  /** The two bounds multiply: a bounded conversation is at most 200,000 octets. */
  lemma ConversationFits(item: Item)
    requires BoundedItem(item)
    ensures Bytes(Entries(item)) <= MAX_CONVERSATION_BYTES
  {
    BytesOfBounded(Entries(item), MAX_CONVERSATION_LEN);
  }

  /** `b` is `a` with entries appended to some conversations: no document appears, disappears,
      moves or changes its title or body. */
  ghost predicate OnlyAppends(a: Table, b: Table) {
    && a.Keys == b.Keys
    && (forall scope | scope in a :: |a[scope]| == |b[scope]|)
    && (forall scope, i | scope in a && 0 <= i < |a[scope]| :: Extends(a[scope][i], b[scope][i]))
  }

  predicate Extends(a: Item, b: Item) {
    a.docId == b.docId && a.title == b.title && a.body == b.body && Entries(a) <= Entries(b)
  }

  /** The entries of one document. */
  function ConversationOf(t: Table, scope: string, docId: string): seq<string> {
    var items := Partition(t, scope);
    var at := Find(items, docId);
    if at.Some? then Entries(items[at.value]) else []
  }

  function AppliedTo(calls: seq<Call>, scope: string, docId: string): nat {
    if calls == [] then 0
    else (if calls[0].scope == scope && calls[0].docId == docId then calls[0].applied else 0)
         + AppliedTo(calls[1..], scope, docId)
  }

  function SuccessesOn(calls: seq<Call>, scope: string, docId: string): nat {
    if calls == [] then 0
    else (if calls[0].scope == scope && calls[0].docId == docId && calls[0].answer == Some(Success) then 1 else 0)
         + SuccessesOn(calls[1..], scope, docId)
  }

  /** What every reachable state keeps, seen from the table `t0` the run began with. */
  ghost predicate Inv(t0: Table, s: State) {
    && Bounded(s.table)
    && OnlyAppends(t0, s.table)
    && (forall i | 0 <= i < |s.calls| :: SoundCall(s.table, s.calls[i]))
    && (forall scope, docId ::
          |ConversationOf(s.table, scope, docId)|
          == |ConversationOf(t0, scope, docId)| + AppliedTo(s.calls, scope, docId))
  }

  /** An applied call's entry is in its document, and only applied calls are told of success. */
  predicate SoundCall(t: Table, c: Call) {
    && Sendable(c.docId, c.body)
    && (c.applied > 0 ==> c.body in ConversationOf(t, c.scope, c.docId))
    && (c.answer == Some(Success) ==> c.applied > 0)
  }

  lemma {:induction false} FindAfterAppend(items: seq<Item>, docId: string, entry: string, other: string)
    requires CanAppend(items, docId)
    ensures Find(Appended(items, docId, entry), other) == Find(items, other)
    decreases |items|
  {
    var after := Appended(items, docId, entry);
    if items[0].docId != docId {
      assert CanAppend(items[1..], docId);
      assert after[1..] == Appended(items[1..], docId, entry);
      FindAfterAppend(items[1..], docId, entry, other);
    } else {
      assert after[1..] == items[1..];
    }
  }

  /** One append: the conversation of that document grows by the entry, every other stays. */
  lemma AppendIsLocal(t: Table, scope: string, docId: string, entry: string, scope': string, docId': string)
    requires CanAppend(Partition(t, scope), docId)
    ensures var after := t[scope := Appended(Partition(t, scope), docId, entry)];
      ConversationOf(after, scope', docId') ==
      ConversationOf(t, scope', docId') + (if scope' == scope && docId' == docId then [entry] else [])
  {
    FindAfterAppend(Partition(t, scope), docId, entry, docId');
    var c := ConversationOf(t, scope', docId');
    assert c + [] == c;
  }

  lemma AppendKeepsTable(t0: Table, t: Table, scope: string, docId: string, entry: string)
    requires CanAppend(Partition(t, scope), docId) && Bounded(t) && OnlyAppends(t0, t)
        && Utf8Len(entry) <= MAX_BODY_BYTES
    ensures var after := t[scope := Appended(Partition(t, scope), docId, entry)];
      Bounded(after) && OnlyAppends(t0, after)
  {
    assert scope in t;
    var after := t[scope := Appended(Partition(t, scope), docId, entry)];
    var at := Find(t[scope], docId).value;
    assert BoundedItem(t[scope][at]) && Extends(t0[scope][at], t[scope][at]);
    forall scope', i | scope' in after && 0 <= i < |after[scope']|
      ensures BoundedItem(after[scope'][i]) && Extends(t0[scope'][i], after[scope'][i])
    {
      assert BoundedItem(t[scope'][i]) && Extends(t0[scope'][i], t[scope'][i]);
    }
  }

  lemma {:induction false} CountsAfterUpdate(calls: seq<Call>, i: nat, c: Call, scope: string, docId: string)
    requires i < |calls| && c.scope == calls[i].scope && c.docId == calls[i].docId
    ensures AppliedTo(calls[i := c], scope, docId)
            + (if c.scope == scope && c.docId == docId then calls[i].applied else 0)
            == AppliedTo(calls, scope, docId) + (if c.scope == scope && c.docId == docId then c.applied else 0)
    decreases |calls|
  {
    if i > 0 {
      assert calls[i := c][1..] == calls[1..][i - 1 := c];
      CountsAfterUpdate(calls[1..], i - 1, c, scope, docId);
    } else {
      assert calls[i := c][1..] == calls[1..];
    }
  }

  lemma {:induction false} CountsAfterSend(calls: seq<Call>, c: Call, scope: string, docId: string)
    ensures AppliedTo(calls + [c], scope, docId)
            == AppliedTo(calls, scope, docId) + (if c.scope == scope && c.docId == docId then c.applied else 0)
    decreases |calls|
  {
    if calls != [] {
      assert (calls + [c])[1..] == calls[1..] + [c];
      CountsAfterSend(calls[1..], c, scope, docId);
    }
  }

  lemma DeliverKeepsInv(t0: Table, s: State, i: nat)
    requires Inv(t0, s) && i < |s.calls| && CanAppend(Partition(s.table, s.calls[i].scope), s.calls[i].docId)
    ensures Inv(t0, Delivered(s, i))
  {
    hide CanAppend, Appended, Bounded, OnlyAppends, ConversationOf, AppliedTo;
    var c := s.calls[i];
    var s' := Delivered(s, i);
    assert SoundCall(s.table, c);
    AppendKeepsTable(t0, s.table, c.scope, c.docId, c.body);
    forall scope, docId
      ensures |ConversationOf(s'.table, scope, docId)|
          == |ConversationOf(t0, scope, docId)| + AppliedTo(s'.calls, scope, docId)
    {
      AppendIsLocal(s.table, c.scope, c.docId, c.body, scope, docId);
      CountsAfterUpdate(s.calls, i, s'.calls[i], scope, docId);
    }
    forall k | 0 <= k < |s'.calls| ensures SoundCall(s'.table, s'.calls[k]) {
      var d := s.calls[k];
      assert SoundCall(s.table, d);
      AppendIsLocal(s.table, c.scope, c.docId, c.body, d.scope, d.docId);
    }
  }

  /** A step that changes neither the table nor any count of applied updates. */
  lemma MarkKeepsInv(t0: Table, s: State, i: nat, c: Call)
    requires Inv(t0, s) && i < |s.calls| && SoundCall(s.table, c)
    requires c.scope == s.calls[i].scope && c.docId == s.calls[i].docId && c.applied == s.calls[i].applied
    ensures Inv(t0, s.(calls := s.calls[i := c]))
  {
    hide Bounded, OnlyAppends;
    var s' := s.(calls := s.calls[i := c]);
    forall scope, docId
      ensures |ConversationOf(s'.table, scope, docId)|
          == |ConversationOf(t0, scope, docId)| + AppliedTo(s'.calls, scope, docId)
    {
      CountsAfterUpdate(s.calls, i, c, scope, docId);
    }
  }

  lemma StepKeepsInv(t0: Table, s: State, step: Step)
    requires Inv(t0, s)
    ensures Inv(t0, Next(s, step))
  {
    hide Bounded, OnlyAppends, CanAppend, Appended;
    match step
    case Send(scope, docId, body) =>
      if Sendable(docId, body) {
        var c := Call(scope, docId, body, 0, false, None);
        forall sc, d ensures AppliedTo(s.calls + [c], sc, d) == AppliedTo(s.calls, sc, d) {
          CountsAfterSend(s.calls, c, sc, d);
        }
      }
    case Deliver(i) =>
      if i < |s.calls| {
        assert SoundCall(s.table, s.calls[i]);
        if CanAppend(Partition(s.table, s.calls[i].scope), s.calls[i].docId) {
          DeliverKeepsInv(t0, s, i);
        } else {
          MarkKeepsInv(t0, s, i, s.calls[i].(refused := true));
        }
      }
    case Answer(i, told) =>
      if i < |s.calls| && s.calls[i].answer.None? && (if told then s.calls[i].applied > 0 else s.calls[i].refused) {
        assert SoundCall(s.table, s.calls[i]);
        MarkKeepsInv(t0, s, i, s.calls[i].(answer := Some(if told then Success else AppendRefused)));
      }
    case Lose(i) =>
      if i < |s.calls| && s.calls[i].answer.None? {
        assert SoundCall(s.table, s.calls[i]);
        MarkKeepsInv(t0, s, i, s.calls[i].(answer := Some(GenericError)));
      }
  }

  lemma {:induction false} RunKeepsInv(t0: Table, s: State, steps: seq<Step>)
    requires Inv(t0, s)
    ensures Inv(t0, Run(s, steps))
    decreases |steps|
  {
    if steps != [] {
      StepKeepsInv(t0, s, steps[0]);
      RunKeepsInv(t0, Next(s, steps[0]), steps[1..]);
    }
  }

  lemma {:induction false} SuccessesAreApplied(t: Table, calls: seq<Call>, scope: string, docId: string)
    requires forall i | 0 <= i < |calls| :: SoundCall(t, calls[i])
    ensures SuccessesOn(calls, scope, docId) <= AppliedTo(calls, scope, docId)
    decreases |calls|
  {
    if calls != [] {
      assert SoundCall(t, calls[0]);
      SuccessesAreApplied(t, calls[1..], scope, docId);
    }
  }

  /** Over every interleaving of any number of replies, with updates delivered late, repeatedly or
      never and with answers lost: conversations stay within both bounds and only grow at the end,
      no document appears and none changes its title or body, every reply that was told of success
      has its entry in the conversation, and a document has at least as many new entries as
      successes. */
  lemma ConcurrentRepliesAreSafe(t0: Table, steps: seq<Step>)
    requires Bounded(t0)
    ensures var s := Run(State(t0, []), steps);
      && Bounded(s.table) && OnlyAppends(t0, s.table)
      && (forall scope, docId :: Bytes(ConversationOf(s.table, scope, docId)) <= MAX_CONVERSATION_BYTES)
      && (forall i | 0 <= i < |s.calls| && s.calls[i].answer == Some(Success) ::
            s.calls[i].body in ConversationOf(s.table, s.calls[i].scope, s.calls[i].docId))
      && (forall scope, docId ::
            |ConversationOf(t0, scope, docId)| + SuccessesOn(s.calls, scope, docId)
            <= |ConversationOf(s.table, scope, docId)|)
  {
    hide Bounded, OnlyAppends, Run;
    var start := State(t0, []);
    assert Inv(t0, start) by { StartsInv(t0); }
    RunKeepsInv(t0, start, steps);
    var s := Run(start, steps);
    forall scope, docId
      ensures |ConversationOf(t0, scope, docId)| + SuccessesOn(s.calls, scope, docId)
              <= |ConversationOf(s.table, scope, docId)|
      ensures Bytes(ConversationOf(s.table, scope, docId)) <= MAX_CONVERSATION_BYTES
    {
      SuccessesAreApplied(s.table, s.calls, scope, docId);
      BoundedConversation(s.table, scope, docId);
    }
    forall i | 0 <= i < |s.calls| && s.calls[i].answer == Some(Success)
      ensures s.calls[i].body in ConversationOf(s.table, s.calls[i].scope, s.calls[i].docId)
    {
      assert SoundCall(s.table, s.calls[i]);
    }
  }

  lemma StartsInv(t0: Table)
    requires Bounded(t0)
    ensures Inv(t0, State(t0, []))
  {
  }

  lemma BoundedConversation(t: Table, scope: string, docId: string)
    requires Bounded(t)
    ensures Bytes(ConversationOf(t, scope, docId)) <= MAX_CONVERSATION_BYTES
  {
    var at := Find(Partition(t, scope), docId);
    if at.Some? {
      assert BoundedItem(t[scope][at.value]);
      ConversationFits(t[scope][at.value]);
    }
  }
}
