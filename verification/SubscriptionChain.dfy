/**
 The chain of asynchronous operations of a session, over every run: it is unbroken exactly until
 something fails, and connects in a fixed order before anything is written.
 */
module SubscriptionChain {
  import opened SubscriptionProtocol
  import opened SubscriptionSession
  import opened Wrappers

  /** An operation is outstanding, or the read handler runs. */
  predicate Alive(s: State)
  {
    |s.ops| + (if s.handler == Idle then 0 else 1) == 1
  }

  /** A completion that fails, or a message that does not parse. */
  predicate Fails(s: System, a: Action)
    requires Enabled(s, a)
  {
    match a
    case PhaseDone(_, ok) => !ok
    case HandshakeDone(ok) => !ok
    case WriteDone(ok) => !ok
    case ReadFailed => true
    case ReadDone => s.toClient[0].Malformed?
    case _ => false
  }

  /** The one operation outstanding ends: what is left, and what is left with a new one. */
  lemma OpEnds(s: State, op: Op)
    requires OneAtATime(s) && op in s.ops
    ensures s.handler == Idle && s.ops == multiset{op} && s.ops - multiset{op} == multiset{}
    ensures |s.ops| == 1 && |s.ops - multiset{op}| == 0
    ensures forall next: Op :: |s.ops - multiset{op} + multiset{next}| == 1
  {
    assert s.ops == multiset{op} + (s.ops - multiset{op});
    assert |s.ops - multiset{op}| == 0;
  }

  lemma NoOps(s: State)
    requires OneAtATime(s) && s.handler != Idle
    ensures |s.ops| == 0 && forall next: Op :: |s.ops + multiset{next}| == 1
  {
  }

  lemma PhaseAlive(s: State, op: Op, ok: bool)
    requires OneAtATime(s) && op in s.ops && op in {Resolve, Connect, SslHandshake}
    ensures Alive(s) && (Alive(AfterPhase(s, op, ok)) <==> ok)
    ensures !ok ==> AfterPhase(s, op, ok) == s.(ops := multiset{}) && s.handler == Idle
  {
    OpEnds(s, op);
  }

  lemma HandshakeAlive(s: State, ok: bool)
    requires OneAtATime(s) && Handshake in s.ops
    ensures Alive(s) && (Alive(AfterHandshake(s, ok)) <==> ok)
    ensures !ok ==> AfterHandshake(s, ok) == s.(ops := multiset{}) && s.handler == Idle
  {
    OpEnds(s, Handshake);
  }

  lemma WriteAlive(s: State, ok: bool)
    requires OneAtATime(s) && Write in s.ops
    ensures Alive(s) && (Alive(AfterWrite(s, ok)) <==> ok)
    ensures !ok ==> AfterWrite(s, ok) == s.(ops := multiset{}) && s.handler == Idle
  {
    OpEnds(s, Write);
  }

  lemma ReadAlive(s: State, incoming: Option<Message>)
    requires OneAtATime(s) && Read in s.ops
    ensures var failed := incoming.None? || incoming.value.Malformed?;
            var next := AfterRead(s, incoming);
            && Alive(s) && (Alive(next) <==> !failed)
            && (failed ==> next == s.(ops := multiset{}, closes := next.closes) && s.handler == Idle)
  {
    hide Handled;
    OpEnds(s, Read);
  }

  lemma HandlerAlive(s: State)
    requires OneAtATime(s) && s.handler != Idle
    ensures Alive(s) && Alive(AfterPump(s)) && Alive(AfterCheck(s))
  {
    NoOps(s);
  }

  lemma OthersChangeNoOps(s: System, a: Action)
    requires Enabled(s, a) && (a.Subscribe? || a.Accept? || a.Reject? || a.Push?)
    ensures Next(s, a).session.ops == s.session.ops && Next(s, a).session.handler == s.session.handler
    ensures Next(s, a).written == s.written
  {
    hide TopicSet, Acceptable;
  }

  /** A step that fails leaves nothing outstanding and changes nothing else. */
  ghost predicate EndsIdle(s: System, next: System)
  {
    && next.session == s.session.(ops := multiset{}, closes := next.session.closes) && next.session.handler == Idle
    && next.written == s.written
  }

  /** The chain goes on with every step, and breaks exactly at one that fails. */
  lemma StepAlive(s: System, a: Action)
    requires OneAtATime(s.session) && Enabled(s, a)
    ensures Alive(Next(s, a).session) <==> Alive(s.session) && !Fails(s, a)
    ensures Fails(s, a) ==> EndsIdle(s, Next(s, a))
  {
    hide AfterPhase, AfterHandshake, AfterWrite, AfterRead, AfterPump, AfterCheck, TopicSet, Acceptable, OneAtATime;
    match a
    case PhaseDone(op, ok) => PhaseAlive(s.session, op, ok); assert s.written + [] == s.written;
    case HandshakeDone(ok) => HandshakeAlive(s.session, ok); assert s.written + [] == s.written;
    case WriteDone(ok) => WriteAlive(s.session, ok);
    case ReadDone => ReadAlive(s.session, Some(s.toClient[0]));
    case ReadFailed => ReadAlive(s.session, None);
    case Pump => HandlerAlive(s.session);
    case Check => HandlerAlive(s.session);
    case _ => OthersChangeNoOps(s, a);
  }

  /** No step of a run fails. */
  predicate NothingFails(s: System, actions: seq<Action>)
    requires AllEnabled(s, actions)
    decreases |actions|
  {
    actions != [] ==> !Fails(s, actions[0]) && NothingFails(Next(s, actions[0]), actions[1..])
  }

  /** Over any run the chain of operations is unbroken exactly when nothing has failed. */
  lemma {:induction false} AliveExactlyWhenNothingFails(s: System, actions: seq<Action>)
    requires Inv(s) && AllEnabled(s, actions)
    ensures Alive(Exec(s, actions).session) <==> Alive(s.session) && NothingFails(s, actions)
    decreases |actions|
  {
    hide Enabled, Next, Alive, Fails, Inv;
    if actions != [] {
      InvOneAtATime(s);
      StepAlive(s, actions[0]);
      StepKeepsInv(s, actions[0]);
      AliveExactlyWhenNothingFails(Next(s, actions[0]), actions[1..]);
    }
  }

  lemma InvOneAtATime(s: System)
    requires Inv(s)
    ensures OneAtATime(s.session)
  {
  }

  /** Once broken, the chain hands nothing to a write any more. */
  lemma {:induction false} BrokenIsSilent(s: System, actions: seq<Action>)
    requires Inv(s) && !Alive(s.session) && AllEnabled(s, actions)
    ensures Exec(s, actions).written == s.written
    decreases |actions|
  {
    hide Inv, Next, Enabled;
    if actions != [] {
      InvOneAtATime(s);
      BrokenStep(s, actions[0]);
      StepKeepsInv(s, actions[0]);
      StepAlive(s, actions[0]);
      BrokenIsSilent(Next(s, actions[0]), actions[1..]);
    }
  }

  /** In a broken chain no completion is left that could come. */
  lemma BrokenStep(s: System, a: Action)
    requires OneAtATime(s.session) && !Alive(s.session) && Enabled(s, a)
    ensures Next(s, a).written == s.written
  {
    assert |s.session.ops| == 0;
    assert forall op :: op !in s.session.ops;
    OthersChangeNoOps(s, a);
  }

  /** The order in which a session is connected. */
  const PHASES: seq<Op> := [Resolve, Connect, SslHandshake, Handshake]

  /** The connect phases a step completes. */
  function Completed(a: Action): seq<Op>
  {
    match a
    case PhaseDone(op, ok) => if ok then [op] else []
    case HandshakeDone(ok) => if ok then [Handshake] else []
    case _ => []
  }

  function AllCompleted(actions: seq<Action>): seq<Op>
    decreases |actions|
  {
    if actions == [] then [] else Completed(actions[0]) + AllCompleted(actions[1..])
  }

  /** n phases are completed: only the next one can be outstanding, and nothing is written before all are. */
  predicate AtPhase(s: System, n: nat)
  {
    && n <= 4
    && (n < 4 ==> (s.session.ops == multiset{PHASES[n]} || s.session.ops == multiset{}) && s.session.handler == Idle)
    && (n < 4 ==> s.written == [])
    && (n == 4 ==> !Connecting(s.session))
  }

  lemma PhaseCompletes(s: State, op: Op, ok: bool, n: nat)
    requires n < 4 && s.ops == multiset{PHASES[n]} && op in s.ops && op in {Resolve, Connect, SslHandshake}
    ensures n < 3 && op == PHASES[n]
    ensures AfterPhase(s, op, ok) == s.(ops := if ok then multiset{PHASES[n + 1]} else multiset{})
  {
    assert multiset{op} - multiset{op} == multiset{};
    assert multiset{} + multiset{PHASES[n + 1]} == multiset{PHASES[n + 1]};
  }

  lemma HandshakeCompletes(s: State, ok: bool, n: nat)
    requires n < 4 && s.ops == multiset{PHASES[n]} && Handshake in s.ops
    ensures n == 3 && AfterHandshake(s, ok).handler == s.handler
    ensures AfterHandshake(s, ok).ops == if ok then multiset{Write} else multiset{}
  {
    assert multiset{Handshake} - multiset{Handshake} == multiset{};
    assert multiset{} + multiset{Write} == multiset{Write};
  }

  lemma WriteStaysConnected(s: State, ok: bool)
    requires !Connecting(s)
    ensures !Connecting(AfterWrite(s, ok))
  {
  }

  lemma ReadStaysConnected(s: State, incoming: Option<Message>)
    requires !Connecting(s)
    ensures !Connecting(AfterRead(s, incoming))
  {
    hide Handled;
  }

  lemma HandlerStaysConnected(s: State)
    requires !Connecting(s)
    ensures !Connecting(AfterPump(s)) && !Connecting(AfterCheck(s))
  {
    hide Taken;
  }

  /** Once connected, only writes and reads are started. */
  lemma ConnectedStep(s: System, a: Action)
    requires AtPhase(s, 4) && Enabled(s, a)
    ensures Completed(a) == [] && AtPhase(Next(s, a), 4)
  {
    hide AfterPhase, AfterHandshake, AfterWrite, AfterRead, AfterPump, AfterCheck, TopicSet, Acceptable;
    match a
    case WriteDone(ok) => WriteStaysConnected(s.session, ok);
    case ReadDone => ReadStaysConnected(s.session, Some(s.toClient[0]));
    case ReadFailed => ReadStaysConnected(s.session, None);
    case Pump => HandlerStaysConnected(s.session);
    case Check => HandlerStaysConnected(s.session);
    case PhaseDone(_, _) =>
    case HandshakeDone(_) =>
    case _ => OthersChangeNoOps(s, a);
  }

  lemma PhaseDoneStep(s: System, op: Op, ok: bool, n: nat)
    requires n < 4 && AtPhase(s, n) && Enabled(s, PhaseDone(op, ok))
    ensures op == PHASES[n] && AtPhase(Next(s, PhaseDone(op, ok)), if ok then n + 1 else n)
  {
    hide AfterPhase;
    PhaseCompletes(s.session, op, ok, n);
  }

  lemma HandshakeDoneStep(s: System, ok: bool, n: nat)
    requires n < 4 && AtPhase(s, n) && Enabled(s, HandshakeDone(ok))
    ensures n == 3 && AtPhase(Next(s, HandshakeDone(ok)), if ok then 4 else 3)
  {
    hide AfterHandshake;
    HandshakeCompletes(s.session, ok, n);
  }

  /** While a session is connecting, only a phase, the server or a user thread can make a step. */
  lemma OnlyPhases(s: System, a: Action, n: nat)
    requires n < 4 && AtPhase(s, n) && Enabled(s, a)
    ensures a.PhaseDone? || a.HandshakeDone? || a.Subscribe? || a.Accept? || a.Reject? || a.Push?
  {
    hide TopicSet, Acceptable;
  }

  lemma ConnectingStep(s: System, a: Action, n: nat)
    requires n < 4 && AtPhase(s, n) && Enabled(s, a)
    ensures Completed(a) == [] || Completed(a) == [PHASES[n]]
    ensures AtPhase(Next(s, a), n + |Completed(a)|)
  {
    hide Next, AtPhase, Enabled;
    OnlyPhases(s, a, n);
    match a
    case PhaseDone(op, ok) => PhaseDoneStep(s, op, ok, n);
    case HandshakeDone(ok) => HandshakeDoneStep(s, ok, n);
    case _ => OthersKeepPhase(s, a, n);
  }

  lemma OthersKeepPhase(s: System, a: Action, n: nat)
    requires AtPhase(s, n) && Enabled(s, a) && (a.Subscribe? || a.Accept? || a.Reject? || a.Push?)
    ensures AtPhase(Next(s, a), n)
  {
    hide Next, Enabled;
    OthersChangeNoOps(s, a);
  }

  lemma PhaseStep(s: System, a: Action, n: nat)
    requires AtPhase(s, n) && Enabled(s, a)
    ensures Completed(a) == [] || (n < 4 && Completed(a) == [PHASES[n]])
    ensures AtPhase(Next(s, a), n + |Completed(a)|)
  {
    hide Next, Enabled;
    AtMostFour(s, n);
    if n < 4 {
      ConnectingStep(s, a, n);
    } else {
      ConnectedStep(s, a);
    }
  }

  lemma {:induction false} PhasesFrom(s: System, actions: seq<Action>, n: nat)
    requires AtPhase(s, n) && AllEnabled(s, actions)
    ensures AtPhase(Exec(s, actions), n + |AllCompleted(actions)|)
    ensures AllCompleted(actions) <= PHASES[n..]
    decreases |actions|
  {
    hide AtPhase, Enabled, Next, Completed;
    AtMostFour(s, n);
    if actions != [] {
      var a := actions[0];
      PhaseStep(s, a, n);
      PhasesFrom(Next(s, a), actions[1..], n + |Completed(a)|);
      if Completed(a) != [] {
        assert PHASES[n..] == [PHASES[n]] + PHASES[n + 1..];
      } else {
        assert Completed(a) + AllCompleted(actions[1..]) == AllCompleted(actions[1..]);
      }
    }
  }

  lemma AtMostFour(s: System, n: nat)
    requires AtPhase(s, n)
    ensures n <= 4
  {
  }

  /** In every run of a session the connect phases are completed in order, and all before a first write. */
  lemma PhasesInOrder(topic: string, actions: seq<Action>)
    requires AllEnabled(Init(topic), actions)
    ensures AllCompleted(actions) <= PHASES
    ensures Exec(Init(topic), actions).written != [] ==> AllCompleted(actions) == PHASES
  {
    hide AllEnabled, Exec, AllCompleted;
    AtStart(topic);
    PhasesFrom(Init(topic), actions, 0);
    assert PHASES[0..] == PHASES;
  }

  lemma AtStart(topic: string)
    ensures AtPhase(Init(topic), 0)
  {
  }
}
