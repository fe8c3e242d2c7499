/** The per-container STS client: double-checked locking under any number of threads. */
module StsClient {
  import opened Wrappers

  /** Clients are told apart by the order in which they were constructed. */
  type Client = nat

  type Thread = nat

  /** Where a thread is: outside, in `_sts_client` or in `reset_sts_client`. */
  datatype Phase =
    | Outside
    | Peeked(client: Option<Client>)  // read the global without the lock
    | WaitingToBuild
    | Checking                        // from here on the lock is held
    | Constructing
    | Storing(made: Client)
    | Loading
    | Leaving(client: Option<Client>)
    | WaitingToReset
    | Clearing
    | Cleared
  {
    predicate HoldsLock() {
      Checking? || Constructing? || Storing? || Loading? || Leaving? || Clearing? || Cleared?
    }
  }

  datatype State = State(
    singleton: Option<Client>,
    lock: Option<Thread>,
    phases: map<Thread, Phase>,
    built: nat,                       // clients constructed so far
    resets: nat,                      // times the global was cleared
    returned: seq<Option<Client>>)    // what the finished calls returned
  {
    function At(t: Thread): Phase {
      if t in phases then phases[t] else Outside
    }

    function Move(t: Thread, phase: Phase): State {
      this.(phases := phases[t := phase])
    }
  }

  datatype Step =
    | Call(thread: Thread)
    | Reset(thread: Thread)
    | Advance(thread: Thread, fails: bool)

  function Start(): State {
    State(None, None, map[], 0, 0, [])
  }

  /** The next action of a thread inside one of the two functions. `fails` makes a construction
      raise, which leaves through the lock without returning. */
  function Advanced(s: State, t: Thread, fails: bool): State {
    match s.At(t)
    case Outside => s
    case Peeked(client) =>
      if client.Some? then s.Move(t, Outside).(returned := s.returned + [client]) else s.Move(t, WaitingToBuild)
    case WaitingToBuild => if s.lock.None? then s.Move(t, Checking).(lock := Some(t)) else s
    case Checking => s.Move(t, if s.singleton.None? then Constructing else Loading)
    case Constructing =>
      if fails then s.Move(t, Outside).(lock := None) else s.Move(t, Storing(s.built)).(built := s.built + 1)
    case Storing(made) => s.Move(t, Loading).(singleton := Some(made))
    case Loading => s.Move(t, Leaving(s.singleton))
    case Leaving(client) => s.Move(t, Outside).(lock := None, returned := s.returned + [client])
    case WaitingToReset => if s.lock.None? then s.Move(t, Clearing).(lock := Some(t)) else s
    case Clearing => s.Move(t, Cleared).(singleton := None, resets := s.resets + 1)
    case Cleared => s.Move(t, Outside).(lock := None)
  }

  function Next(s: State, step: Step): State {
    match step
    case Call(t) => if s.At(t).Outside? then s.Move(t, Peeked(s.singleton)) else s
    case Reset(t) => if s.At(t).Outside? then s.Move(t, WaitingToReset) else s
    case Advance(t, fails) => Advanced(s, t, fails)
  }

  function Run(s: State, steps: seq<Step>): State
    decreases |steps|
  {
    if steps == [] then s else Run(Next(s, steps[0]), steps[1..])
  }

  // ----- what every interleaving keeps ----------------------------------------------------

  predicate IsBuilt(s: State, client: Option<Client>) {
    client.Some? && client.value < s.built
  }

  /** What a thread's position says about the shared state. */
  predicate SoundPhase(s: State, t: Thread) {
    var phase := s.At(t);
    && (phase.HoldsLock() <==> s.lock == Some(t))
    && (phase.Peeked? && phase.client.Some? ==> IsBuilt(s, phase.client))
    && (phase.Constructing? ==> s.singleton.None?)
    && (phase.Storing? ==> s.singleton.None? && phase.made < s.built)
    && (phase.Loading? ==> s.singleton.Some?)
    && (phase.Leaving? ==> IsBuilt(s, phase.client))
  }

  /** One construction is still owed when the global is empty and nobody is about to fill it. */
  function Owed(s: State): nat {
    if s.singleton.None? && !(s.lock.Some? && s.At(s.lock.value).Storing?) then 1 else 0
  }

  ghost predicate Inv(s: State) {
    && (forall t :: SoundPhase(s, t))
    && (s.singleton.Some? ==> IsBuilt(s, s.singleton))
    && (forall i | 0 <= i < |s.returned| :: IsBuilt(s, s.returned[i]))
    && s.built + Owed(s) <= 1 + s.resets
  }

  lemma PhasesStaySound(s: State, step: Step, t: Thread)
    requires Inv(s)
    ensures SoundPhase(Next(s, step), t)
  {
    assert SoundPhase(s, t) && SoundPhase(s, step.thread);
  }

  lemma StepKeepsInv(s: State, step: Step)
    requires Inv(s)
    ensures Inv(Next(s, step))
  {
    assert SoundPhase(s, step.thread);
    assert s.lock.Some? ==> SoundPhase(s, s.lock.value);
    forall t ensures SoundPhase(Next(s, step), t) {
      PhasesStaySound(s, step, t);
    }
  }

  lemma {:induction false} RunKeepsInv(s: State, steps: seq<Step>)
    requires Inv(s)
    ensures Inv(Run(s, steps))
    decreases |steps|
  {
    hide Inv, Next;
    if steps != [] {
      StepKeepsInv(s, steps[0]);
      RunKeepsInv(Next(s, steps[0]), steps[1..]);
    }
  }

  /** For any number of threads and any interleaving of calls, resets and failing constructions: at
      most one client is built plus one per reset, never two at a time, and every call that returns
      returns a client. Without resets all calls return the same one. */
  lemma OneClientPerReset(steps: seq<Step>)
    ensures var s := Run(Start(), steps);
      && s.built <= 1 + s.resets
      && (forall t, u | s.At(t).Constructing? && s.At(u).Constructing? :: t == u)
      && (forall i | 0 <= i < |s.returned| :: s.returned[i].Some? && s.returned[i].value < s.built)
      && (s.resets == 0 ==>
            forall i, j | 0 <= i < |s.returned| && 0 <= j < |s.returned| :: s.returned[i] == s.returned[j])
  {
    hide Run, Next;
    RunKeepsInv(Start(), steps);
    var s := Run(Start(), steps);
    forall t, u | s.At(t).Constructing? && s.At(u).Constructing? ensures t == u {
      assert SoundPhase(s, t) && SoundPhase(s, u);
    }
    assert forall i | 0 <= i < |s.returned| :: IsBuilt(s, s.returned[i]);
  }

  /** No interleaving deadlocks: while any thread is inside, some thread can move. */
  lemma SomeThreadCanMove(steps: seq<Step>, t: Thread)
    requires !Run(Start(), steps).At(t).Outside?
    ensures exists u: Thread :: Advanced(Run(Start(), steps), u, false).At(u) != Run(Start(), steps).At(u)
  {
    hide Run, Next;
    RunKeepsInv(Start(), steps);
    var s := Run(Start(), steps);
    var u := if s.lock.Some? then s.lock.value else t;
    assert SoundPhase(s, u);
    assert Advanced(s, u, false).At(u) != s.At(u);
  }
}
