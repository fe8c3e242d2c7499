/** When the new entries of a conversation are exactly the successes reported for it. */
module ReplyAccounting {
  import opened Wrappers
  import opened Documents
  import opened ReplyTool

  predicate IsOn(c: Call, scope: string, docId: string) {
    c.scope == scope && c.docId == docId
  }

  function Told(c: Call): nat {
    if c.answer == Some(Success) then 1 else 0
  }

  /** Every reply to the document was appended as often as its caller was told: once after a success,
      never otherwise. */
  predicate EveryCallIsTold(calls: seq<Call>, scope: string, docId: string) {
    forall i | 0 <= i < |calls| && IsOn(calls[i], scope, docId) :: calls[i].applied == Told(calls[i])
  }

  lemma {:induction false} CountsAgreeIffToldEach(t: Table, calls: seq<Call>, scope: string, docId: string)
    requires forall i | 0 <= i < |calls| :: SoundCall(t, calls[i])
    ensures AppliedTo(calls, scope, docId) == SuccessesOn(calls, scope, docId) <==> EveryCallIsTold(calls, scope, docId)
    decreases |calls|
  {
    if calls != [] {
      assert SoundCall(t, calls[0]);
      SuccessesAreApplied(t, calls[1..], scope, docId);
      CountsAgreeIffToldEach(t, calls[1..], scope, docId);
      assert forall i | 1 <= i < |calls| :: calls[i] == calls[1..][i - 1];
      if EveryCallIsTold(calls, scope, docId) {
        assert forall i | 0 <= i < |calls[1..]| :: calls[1..][i] == calls[i + 1];
      }
    }
  }

  /** In every reachable state a document has exactly as many new entries as reported successes when,
      and only when, no reply to it was appended unreported or twice. */
  lemma EntriesAreSuccessesIffEachIsTold(t0: Table, steps: seq<Step>, scope: string, docId: string)
    requires Bounded(t0)
    ensures var s := Run(State(t0, []), steps);
      |ConversationOf(s.table, scope, docId)| == |ConversationOf(t0, scope, docId)| + SuccessesOn(s.calls, scope, docId)
      <==> EveryCallIsTold(s.calls, scope, docId)
  {
    hide Bounded, OnlyAppends, Run, EveryCallIsTold;
    assert Inv(t0, State(t0, [])) by { StartsInv(t0); }
    RunKeepsInv(t0, State(t0, []), steps);
    var s := Run(State(t0, []), steps);
    CountsAgreeIffToldEach(s.table, s.calls, scope, docId);
  }

  // ----- a condition on the transport -----------------------------------------------------

  function Deliveries(steps: seq<Step>, i: nat): nat {
    if steps == [] then 0 else (if steps[0] == Deliver(i) then 1 else 0) + Deliveries(steps[1..], i)
  }

  predicate IsLost(steps: seq<Step>, i: nat) {
    Lose(i) in steps
  }

  /** Verdicts the server has given on a call: its appends, and one for any refusals. */
  function Verdicts(s: State, i: nat): nat {
    if i < |s.calls| then s.calls[i].applied + (if s.calls[i].refused then 1 else 0) else 0
  }

  predicate HasFailed(s: State, i: nat) {
    i < |s.calls| && s.calls[i].answer == Some(GenericError)
  }

  /** Whoever is told of a refusal was refused. */
  predicate ToldTruly(s: State, i: nat) {
    i < |s.calls| ==>
      match s.calls[i].answer
      case Some(AppendRefused) => s.calls[i].refused
      case Some(BodyTooLong) => false
      case _ => true
  }

  lemma OneStepCounts(s: State, step: Step, i: nat)
    ensures Verdicts(Next(s, step), i) <= Verdicts(s, i) + (if step == Deliver(i) then 1 else 0)
    ensures HasFailed(Next(s, step), i) ==> HasFailed(s, i) || step == Lose(i)
    ensures ToldTruly(s, i) ==> ToldTruly(Next(s, step), i)
  {
    hide CanAppend, Appended;
  }

  lemma {:induction false} RunCounts(s: State, steps: seq<Step>, i: nat)
    requires ToldTruly(s, i)
    ensures Verdicts(Run(s, steps), i) <= Verdicts(s, i) + Deliveries(steps, i)
    ensures HasFailed(Run(s, steps), i) ==> HasFailed(s, i) || IsLost(steps, i)
    ensures ToldTruly(Run(s, steps), i)
    decreases |steps|
  {
    hide Next, Verdicts, HasFailed, ToldTruly;
    if steps != [] {
      OneStepCounts(s, steps[0], i);
      RunCounts(Next(s, steps[0]), steps[1..], i);
    }
  }

  /** Each update reaches the server at most once, and no caller gives up on one that does. */
  predicate ReliableTransport(steps: seq<Step>, n: nat) {
    forall i: nat | i < n :: Deliveries(steps, i) <= 1 && (IsLost(steps, i) ==> Deliveries(steps, i) == 0)
  }

  /** Over a transport that neither repeats nor loses, once every reply has its answer, each document
      has gained exactly one entry for each success reported. */
  lemma ReliableRepliesAddUp(t0: Table, steps: seq<Step>, scope: string, docId: string)
    requires Bounded(t0)
    requires var s := Run(State(t0, []), steps);
      ReliableTransport(steps, |s.calls|) && forall i | 0 <= i < |s.calls| :: s.calls[i].answer.Some?
    ensures var s := Run(State(t0, []), steps);
      |ConversationOf(s.table, scope, docId)| == |ConversationOf(t0, scope, docId)| + SuccessesOn(s.calls, scope, docId)
  {
    hide Bounded, OnlyAppends, Run, ConversationOf;
    var start := State(t0, []);
    var s := Run(start, steps);
    assert Inv(t0, start) by { StartsInv(t0); }
    RunKeepsInv(t0, start, steps);
    forall i | 0 <= i < |s.calls| ensures s.calls[i].applied == Told(s.calls[i]) {
      RunCounts(start, steps, i);
      assert SoundCall(s.table, s.calls[i]);
    }
    EntriesAreSuccessesIffEachIsTold(t0, steps, scope, docId);
  }

  // ----- runs where they differ -----------------------------------------------------------

  /** The conversation can take `n` more entries. */
  predicate HasRoom(t: Table, scope: string, docId: string, n: nat) {
    Find(Partition(t, scope), docId).Some? && |ConversationOf(t, scope, docId)| + n <= MAX_CONVERSATION_LEN
  }

  lemma RoomForOne(t: Table, scope: string, docId: string, entry: string, n: nat)
    requires HasRoom(t, scope, docId, n) && n > 0
    ensures CanAppend(Partition(t, scope), docId)
    ensures var after := t[scope := Appended(Partition(t, scope), docId, entry)];
      && ConversationOf(after, scope, docId) == ConversationOf(t, scope, docId) + [entry]
      && HasRoom(after, scope, docId, n - 1)
  {
    FindAfterAppend(Partition(t, scope), docId, entry, docId);
    AppendIsLocal(t, scope, docId, entry, scope, docId);
  }

  lemma OneDelivery(s: State, i: nat, n: nat)
    requires i < |s.calls| && n > 0 && HasRoom(s.table, s.calls[i].scope, s.calls[i].docId, n)
    ensures var c := s.calls[i];
      var after := Next(s, Deliver(i));
      && after.calls == s.calls[i := c.(applied := c.applied + 1)]
      && ConversationOf(after.table, c.scope, c.docId) == ConversationOf(s.table, c.scope, c.docId) + [c.body]
      && HasRoom(after.table, c.scope, c.docId, n - 1)
  {
    var c := s.calls[i];
    RoomForOne(s.table, c.scope, c.docId, c.body, n);
  }

  lemma RunsTwo(s: State, a: Step, b: Step)
    ensures Run(s, [a, b]) == Next(Next(s, a), b)
  {
    hide Next;
    assert [a, b][1..] == [b];
    RunsOne(Next(s, a), b);
  }

  lemma RunsOne(s: State, a: Step)
    ensures Run(s, [a]) == Next(s, a)
  {
    hide Next;
    assert [a][1..] == [];
  }

  /** A retry after a lost response: one success, two entries. */
  lemma RetryCanAppendTwice(t: Table, scope: string, docId: string, body: string)
    requires Sendable(docId, body) && HasRoom(t, scope, docId, 2)
    ensures var s := Run(State(t, []), [Send(scope, docId, body), Deliver(0), Deliver(0), Answer(0, true)]);
      && ConversationOf(s.table, scope, docId) == ConversationOf(t, scope, docId) + [body, body]
      && SuccessesOn(s.calls, scope, docId) == 1
  {
    hide Run, HasRoom, CanAppend, Appended, ConversationOf;
    var sent := Next(State(t, []), Send(scope, docId, body));
    OneDelivery(sent, 0, 2);
    var once := Next(sent, Deliver(0));
    OneDelivery(once, 0, 1);
    var twice := Next(once, Deliver(0));
    RunsFour(State(t, []), Send(scope, docId, body), Deliver(0), Deliver(0), Answer(0, true));
    var c := ConversationOf(t, scope, docId);
    assert c + [body] + [body] == c + [body, body];
    OneCall(Next(twice, Answer(0, true)).calls, scope, docId);
  }

  /** A lost response: no success, one entry. */
  lemma LostReplyCanBeAppended(t: Table, scope: string, docId: string, body: string)
    requires Sendable(docId, body) && HasRoom(t, scope, docId, 1)
    ensures var s := Run(State(t, []), [Send(scope, docId, body), Deliver(0), Lose(0)]);
      && ConversationOf(s.table, scope, docId) == ConversationOf(t, scope, docId) + [body]
      && |s.calls| == 1 && s.calls[0].answer == Some(GenericError) && SuccessesOn(s.calls, scope, docId) == 0
  {
    hide Run, HasRoom, CanAppend, Appended, ConversationOf;
    var sent := Next(State(t, []), Send(scope, docId, body));
    OneDelivery(sent, 0, 1);
    RunsThree(State(t, []), Send(scope, docId, body), Deliver(0), Lose(0));
    OneCall(Next(Next(sent, Deliver(0)), Lose(0)).calls, scope, docId);
  }

  lemma OneCall(calls: seq<Call>, scope: string, docId: string)
    requires |calls| == 1 && IsOn(calls[0], scope, docId)
    ensures SuccessesOn(calls, scope, docId) == Told(calls[0])
  {
    assert calls[1..] == [];
  }

  lemma RunsThree(s: State, a: Step, b: Step, c: Step)
    ensures Run(s, [a, b, c]) == Next(Next(Next(s, a), b), c)
  {
    hide Next;
    assert [a, b, c][1..] == [b, c];
    RunsTwo(Next(s, a), b, c);
  }

  lemma RunsFour(s: State, a: Step, b: Step, c: Step, d: Step)
    ensures Run(s, [a, b, c, d]) == Next(Next(Next(Next(s, a), b), c), d)
  {
    hide Next;
    assert [a, b, c, d][1..] == [b, c, d];
    RunsThree(Next(s, a), b, c, d);
  }
}
