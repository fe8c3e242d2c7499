/** What one scope's callers see does not depend on anything the others do, and partitions outside
    the known scopes are out of reach altogether. */
module Noninterference {
  import opened Wrappers
  import opened Iam
  import opened ScopedPolicies
  import opened Identity
  import opened RequestInterceptor
  import opened Documents
  import opened Protocol

  // ----- who acts -------------------------------------------------------------------------

  /** The scope a step acts for: that of the verified token behind a request, that of the session
      behind a use of credentials. */
  function Owner(w: World, step: Step, now: nat): Option<string> {
    match step
    case Invoke(_, event, sts, _) =>
      var logged := Decide(w.cfg, event, sts, now).1;
      if |logged| > 0 && logged[0].Audit? then Some(logged[0].record.grantedScope) else None
    case RunTool(key, _, _) => Some(key.scope)
    case Access(key, _) => Some(key.scope)
    case _ => None
  }

  function After(step: Step, now: nat): nat {
    if step.Wait? then now + step.microseconds else now
  }

  datatype Timed = Timed(at: nat, step: Step)

  /** What the callers of one scope do and when, with everything else left out. */
  function Own(w: World, scope: string, now: nat, steps: seq<Step>): seq<Timed>
    decreases |steps|
  {
    if steps == [] then []
    else
      var rest := Own(w, scope, After(steps[0], now), steps[1..]);
      if Owner(w, steps[0], now) == Some(scope) then [Timed(now, steps[0])] + rest else rest
  }

  /** What the callers of one scope get back. */
  ghost function OwnOutputs(w: World, scope: string, s: State, steps: seq<Step>): seq<Output>
    decreases |steps|
  {
    if steps == [] then []
    else
      var rest := OwnOutputs(w, scope, Next(w, s, steps[0]), steps[1..]);
      if Owner(w, steps[0], s.now) == Some(scope) then [Out(w, s, steps[0])] + rest else rest
  }

  /** The part of a state the callers of a scope can depend on. */
  ghost predicate SameView(scope: string, a: State, b: State) {
    && Partition(a.table, scope) == Partition(b.table, scope)
    && (forall key: Key | key.scope == scope :: key in a.sessions <==> key in b.sessions)
    && (forall key: Key | key.scope == scope && key in a.sessions && key in b.sessions ::
          a.sessions[key] == b.sessions[key])
  }

  lemma TimePasses(w: World, s: State, step: Step)
    ensures Next(w, s, step).now == After(step, s.now)
  {
    hide Decide, ToolRun, Allowed, AssumeAllowed, Written, Forwarded;
  }

  // ----- steps of others ------------------------------------------------------------------

  /** An allowed data-plane request of a session reaches and writes its scope's partition only. */
  lemma AccessIsKeyed(w: World, s: State, key: Key, data: DataCall)
    requires Inv(w, s) && key in s.sessions && WildcardFree(w.cfg.tableArn)
    requires Allowed(w, s.sessions[key], data.action, data.resource, data.leading, s.now)
    ensures IsKeyed(w, data) && forall scope :: scope in data.leading <==> scope == key.scope
  {
    hide Allowed, Inv;
    SessionIsConfined(w, s, key, data.action, data.resource, data.leading, s.now);
    assert data.leading[0] == key.scope;
  }

  lemma WorkIsScoped(w: World, s: State, key: Key)
    requires Inv(w, s) && key in s.sessions && s.sessions[key].work.Some?
    ensures s.sessions[key].work.value.servedScope == key.scope
    ensures key.scope in KnownScopes(w.cfg.knownScopes)
  {
    assert SoundSession(w, s, key);
  }

  lemma SessionIsKnown(w: World, s: State, key: Key)
    requires Inv(w, s) && key in s.sessions
    ensures key.scope in KnownScopes(w.cfg.knownScopes)
  {
    assert SoundSession(w, s, key);
  }

  lemma MintedForOwner(w: World, s: State, step: Step)
    requires step.Invoke?
    ensures var logged := Decide(w.cfg, step.event, step.sts, s.now).1;
      |logged| == 2 && logged[1].Sts? ==> Owner(w, step, s.now) == Some(logged[1].call.tag)
  {
    hide Decide, ScopedTo;
    EverySessionIsAccountedFor(w.cfg, step.event, step.sts, s.now);
    var logged := Decide(w.cfg, step.event, step.sts, s.now).1;
    if |logged| == 2 && logged[1].Sts? {
      TagIsScope(w, logged, s.now);
    }
  }

  /** A step that acts for another scope, or for none, leaves the view of `scope` as it was. */
  lemma OthersAreInvisible(w: World, scope: string, s: State, step: Step)
    requires Inv(w, s) && WildcardFree(w.cfg.tableArn)
    requires Owner(w, step, s.now) != Some(scope)
    ensures SameView(scope, Next(w, s, step), s)
  {
    hide Decide, ToolRun, Allowed, Inv, Forwarded;
    match step
    case Invoke(_, _, _, _) => MintedForOwner(w, s, step);
    case RunTool(key, _, _) =>
      if key in s.sessions && s.sessions[key].work.Some? {
        WorkIsScoped(w, s, key);
      }
    case Access(key, data) =>
      if key in s.sessions && Allowed(w, s.sessions[key], data.action, data.resource, data.leading, s.now) {
        AccessIsKeyed(w, s, key, data);
      }
    case AssumeAs(_, _, _, _) => AssumeAsChangesNothing(w, s, step);
    case Wait(_) =>
  }

  lemma InvokesAgree(w: World, scope: string, a: State, b: State, step: Step)
    requires SameView(scope, a, b) && a.now == b.now && step.Invoke?
    ensures Out(w, a, step) == Out(w, b, step)
    ensures SameView(scope, Next(w, a, step), Next(w, b, step))
  {
    hide Decide, Forwarded;
  }

  /** A step of the scope's own gives the same answer and keeps the views equal. */
  lemma OwnStepsAgree(w: World, scope: string, a: State, b: State, step: Step)
    requires Inv(w, a) && Inv(w, b) && WildcardFree(w.cfg.tableArn)
    requires SameView(scope, a, b) && a.now == b.now && Owner(w, step, a.now) == Some(scope)
    ensures Out(w, a, step) == Out(w, b, step)
    ensures SameView(scope, Next(w, a, step), Next(w, b, step))
  {
    hide Decide, ToolRun, Allowed, Inv, AfterInvoke;
    match step
    case Invoke(_, _, _, _) => InvokesAgree(w, scope, a, b, step);
    case RunTool(key, _, _) =>
      if key in a.sessions && a.sessions[key].work.Some? {
        WorkIsScoped(w, a, key);
      }
    case Access(key, data) =>
      if key in a.sessions && Allowed(w, a.sessions[key], data.action, data.resource, data.leading, a.now) {
        AccessIsKeyed(w, a, key, data);
        assert Reached(w, a.table, data) == Reached(w, b.table, data);
      }
  }

  lemma {:induction false} RunsAgree(w: World, scope: string, a: State, xs: seq<Step>, b: State, ys: seq<Step>)
    requires Inv(w, a) && Inv(w, b) && WildcardFree(w.cfg.tableArn) && SameView(scope, a, b)
    requires Own(w, scope, a.now, xs) == Own(w, scope, b.now, ys)
    ensures OwnOutputs(w, scope, a, xs) == OwnOutputs(w, scope, b, ys)
    ensures SameView(scope, Run(w, a, xs), Run(w, b, ys))
    decreases |xs| + |ys|
  {
    hide Inv, Owner, Next, Out, After, SameView;
    if xs != [] && Owner(w, xs[0], a.now) != Some(scope) {
      OthersAreInvisible(w, scope, a, xs[0]);
      ViewsMeet(scope, Next(w, a, xs[0]), a, b);
      StepKeepsInv(w, a, xs[0]);
      TimePasses(w, a, xs[0]);
      RunsAgree(w, scope, Next(w, a, xs[0]), xs[1..], b, ys);
    } else if ys != [] && Owner(w, ys[0], b.now) != Some(scope) {
      OthersAreInvisible(w, scope, b, ys[0]);
      ViewsMeet(scope, Next(w, b, ys[0]), b, a);
      StepKeepsInv(w, b, ys[0]);
      TimePasses(w, b, ys[0]);
      RunsAgree(w, scope, a, xs, Next(w, b, ys[0]), ys[1..]);
    } else if xs != [] {
      var own := Own(w, scope, a.now, xs);
      assert own[0] == Timed(a.now, xs[0]) && own[0] == Timed(b.now, ys[0]);
      assert own[1..] == Own(w, scope, After(xs[0], a.now), xs[1..]) == Own(w, scope, After(ys[0], b.now), ys[1..]);
      OwnStepsAgree(w, scope, a, b, xs[0]);
      StepKeepsInv(w, a, xs[0]);
      StepKeepsInv(w, b, xs[0]);
      TimePasses(w, a, xs[0]);
      TimePasses(w, b, xs[0]);
      RunsAgree(w, scope, Next(w, a, xs[0]), xs[1..], Next(w, b, xs[0]), ys[1..]);
    }
  }

  lemma ViewsMeet(scope: string, a: State, b: State, c: State)
    requires SameView(scope, a, b) && (SameView(scope, b, c) || SameView(scope, c, b))
    ensures SameView(scope, a, c) && SameView(scope, c, a)
  {
  }

  /** Noninterference. Two runs may differ in everything the other scopes' callers and tools do and
      in every other partition. If the callers and tools of `scope` do the same things at the same
      times and its partition starts out the same, they get back the same answers and the partition
      ends up the same. */
  lemma ScopesDoNotInterfere(w: World, scope: string, t: Table, xs: seq<Step>, u: Table, ys: seq<Step>)
    requires WildcardFree(w.cfg.tableArn) && Partition(t, scope) == Partition(u, scope)
    requires Own(w, scope, 0, xs) == Own(w, scope, 0, ys)
    ensures OwnOutputs(w, scope, Start(t), xs) == OwnOutputs(w, scope, Start(u), ys)
    ensures Partition(Run(w, Start(t), xs).table, scope) == Partition(Run(w, Start(u), ys).table, scope)
  {
    RunsAgree(w, scope, Start(t), xs, Start(u), ys);
  }

  // ----- partitions no token can name -----------------------------------------------------

  /** Two states that differ at most in partitions outside the known scopes. */
  ghost predicate SameKnown(w: World, a: State, b: State) {
    && a.sessions == b.sessions && a.now == b.now && a.log == b.log
    && forall scope | scope in KnownScopes(w.cfg.knownScopes) :: Partition(a.table, scope) == Partition(b.table, scope)
  }

  lemma UnknownIsNeverRead(w: World, a: State, b: State, step: Step)
    requires Inv(w, a) && Inv(w, b) && WildcardFree(w.cfg.tableArn) && SameKnown(w, a, b)
    ensures Out(w, a, step) == Out(w, b, step)
    ensures SameKnown(w, Next(w, a, step), Next(w, b, step))
  {
    hide Decide, ToolRun, Allowed, Inv, Forwarded, KnownScopes;
    match step
    case Invoke(_, _, _, _) =>
    case RunTool(key, _, _) =>
      if key in a.sessions && a.sessions[key].work.Some? {
        WorkIsScoped(w, a, key);
      }
    case Access(key, data) =>
      if key in a.sessions && Allowed(w, a.sessions[key], data.action, data.resource, data.leading, a.now) {
        SessionIsKnown(w, a, key);
        AccessIsKeyed(w, a, key, data);
        assert Reached(w, a.table, data) == Reached(w, b.table, data);
      }
    case AssumeAs(_, _, _, _) =>
      AssumeAsChangesNothing(w, a, step);
      AssumeAsChangesNothing(w, b, step);
    case Wait(_) =>
  }

  lemma {:induction false} RunsIgnoreUnknown(w: World, a: State, b: State, steps: seq<Step>)
    requires Inv(w, a) && Inv(w, b) && WildcardFree(w.cfg.tableArn) && SameKnown(w, a, b)
    ensures Outputs(w, a, steps) == Outputs(w, b, steps)
    decreases |steps|
  {
    hide Inv, Next, Out, SameKnown;
    if steps != [] {
      UnknownIsNeverRead(w, a, b, steps[0]);
      StepKeepsInv(w, a, steps[0]);
      StepKeepsInv(w, b, steps[0]);
      RunsIgnoreUnknown(w, Next(w, a, steps[0]), Next(w, b, steps[0]), steps[1..]);
    }
  }

  lemma UnknownIsNeverWritten(w: World, s: State, step: Step, scope: string)
    requires Inv(w, s) && WildcardFree(w.cfg.tableArn) && scope !in KnownScopes(w.cfg.knownScopes)
    ensures Partition(Next(w, s, step).table, scope) == Partition(s.table, scope)
  {
    hide Decide, ToolRun, Allowed, Inv, Forwarded, KnownScopes;
    match step
    case RunTool(key, _, _) =>
      if key in s.sessions && s.sessions[key].work.Some? {
        WorkIsScoped(w, s, key);
      }
    case Access(key, data) =>
      if key in s.sessions && Allowed(w, s.sessions[key], data.action, data.resource, data.leading, s.now) {
        SessionIsKnown(w, s, key);
        AccessIsKeyed(w, s, key, data);
      }
    case _ =>
  }

  lemma {:induction false} RunsKeepUnknown(w: World, s: State, steps: seq<Step>, scope: string)
    requires Inv(w, s) && WildcardFree(w.cfg.tableArn) && scope !in KnownScopes(w.cfg.knownScopes)
    ensures Partition(Run(w, s, steps).table, scope) == Partition(s.table, scope)
    decreases |steps|
  {
    hide Inv, Next, KnownScopes;
    if steps != [] {
      UnknownIsNeverWritten(w, s, steps[0], scope);
      StepKeepsInv(w, s, steps[0]);
      RunsKeepUnknown(w, Next(w, s, steps[0]), steps[1..], scope);
    }
  }

  /** For any scope list an operator may write: whatever the partitions outside it hold, nobody
      ever gets a different answer, and no run changes them. */
  lemma UnknownPartitionsAreOutOfReach(w: World, t: Table, u: Table, steps: seq<Step>)
    requires WildcardFree(w.cfg.tableArn)
    requires forall scope | scope in KnownScopes(w.cfg.knownScopes) :: Partition(t, scope) == Partition(u, scope)
    ensures Outputs(w, Start(t), steps) == Outputs(w, Start(u), steps)
    ensures forall scope | scope !in KnownScopes(w.cfg.knownScopes) ::
      Partition(Run(w, Start(t), steps).table, scope) == Partition(t, scope)
  {
    RunsIgnoreUnknown(w, Start(t), Start(u), steps);
    forall scope | scope !in KnownScopes(w.cfg.knownScopes)
      ensures Partition(Run(w, Start(t), steps).table, scope) == Partition(t, scope)
    {
      RunsKeepUnknown(w, Start(t), steps, scope);
    }
  }
}
