/**
 The session against a server, over links that deliver in order, with user threads that
 subscribe at any moment. The server is an assumption: it takes requests in order, and
 either holds all topics of a request from then on or rejects it, echoing it; a request
 with a topic that it holds already is always rejected.
 */
module SubscriptionProtocol {
  import opened Arithmetic
  import opened SubscriptionSession
  import opened Wrappers

  /** `queued` and `written` remember every request ever queued, and ever handed to a write. */
  datatype System = System(
    session: State,
    toServer: seq<Request>,
    toClient: seq<Message>,
    held: set<string>,
    queued: seq<Request>,
    written: seq<Request>,
    pumps: nat)

  datatype Action =
    | Subscribe(topic: string)
    | PhaseDone(op: Op, ok: bool)
    | HandshakeDone(ok: bool)
    | WriteDone(ok: bool)
    | ReadDone
    | ReadFailed
    | Pump
    | Check
    | Accept(reply: Message)
    | Reject
    | Push(msg: Message)

  /** A new session that has been run with its first topic. */
  function Init(topic: string): System
  {
    System(State([], [Request([topic])], multiset{Resolve}, Idle, 0), [], [], {}, [Request([topic])], [], 0)
  }

  predicate IsRejection(msg: Message)
  {
    msg.Control? && !msg.success && msg.request.Some?
  }

  /** A request the server may accept: no topic twice, none held. */
  predicate Acceptable(args: seq<string>, held: set<string>)
  {
    && (forall i, j :: 0 <= i < j < |args| ==> args[i] != args[j])
    && (forall i :: 0 <= i < |args| ==> args[i] !in held)
  }

  predicate Enabled(s: System, a: Action)
  {
    match a
    case Subscribe(_) => true
    case PhaseDone(op, _) => op in s.session.ops && op in {Resolve, Connect, SslHandshake}
    case HandshakeDone(_) => Handshake in s.session.ops
    case WriteDone(_) => Write in s.session.ops
    case ReadDone => Read in s.session.ops && s.toClient != []
    case ReadFailed => Read in s.session.ops
    case Pump => s.session.handler == Pumping
    case Check => s.session.handler == Checking
    case Accept(reply) => s.toServer != [] && Acceptable(s.toServer[0].args, s.held) && !IsRejection(reply)
    case Reject => s.toServer != []
    case Push(msg) => !IsRejection(msg)
  }

  function Sent(s: State): seq<Request>
  {
    if Front(s).Some? then [Front(s).value] else []
  }

  function Next(s: System, a: Action): System
    requires Enabled(s, a)
  {
    match a
    case Subscribe(topic) =>
      var after := Subscribed(s.session, topic);
      s.(session := after, queued := s.queued + after.requests[|s.session.requests|..])
    case PhaseDone(op, ok) => s.(session := AfterPhase(s.session, op, ok))
    case HandshakeDone(ok) =>
      var sent := if ok then Sent(s.session) else [];
      s.(session := AfterHandshake(s.session, ok), toServer := s.toServer + sent, written := s.written + sent)
    case WriteDone(ok) => s.(session := AfterWrite(s.session, ok))
    case ReadDone => s.(session := AfterRead(s.session, Some(s.toClient[0])), toClient := s.toClient[1..])
    case ReadFailed => s.(session := AfterRead(s.session, None))
    case Pump =>
      var sent := Sent(s.session);
      s.(session := AfterPump(s.session), toServer := s.toServer + sent, written := s.written + sent, pumps := s.pumps + 1)
    case Check => s.(session := AfterCheck(s.session))
    case Accept(reply) =>
      s.(held := s.held + TopicSet(s.toServer[0].args), toServer := s.toServer[1..], toClient := s.toClient + [reply])
    case Reject =>
      s.(toServer := s.toServer[1..], toClient := s.toClient + [Control(false, Some(s.toServer[0]))])
    case Push(msg) => s.(toClient := s.toClient + [msg])
  }

  function TopicSet(args: seq<string>): set<string>
  {
    set i | 0 <= i < |args| :: args[i]
  }

  predicate AllEnabled(s: System, actions: seq<Action>)
    decreases |actions|
  {
    actions != [] ==> Enabled(s, actions[0]) && AllEnabled(Next(s, actions[0]), actions[1..])
  }

  /** The system after a run. */
  function Exec(s: System, actions: seq<Action>): System
    requires AllEnabled(s, actions)
    decreases |actions|
  {
    if actions == [] then s else Exec(Next(s, actions[0]), actions[1..])
  }

  // ---------------------------------------------------------------- what is in flight

  /** The topics of requests on their way to the server. */
  function Topics(requests: seq<Request>): seq<string>
  {
    if requests == [] then [] else requests[0].args + Topics(requests[1..])
  }

  /** The topics of one message, if it is a rejection. */
  function RejectedBy(msg: Message): seq<string>
  {
    if IsRejection(msg) then msg.request.value.args else []
  }

  /** The topics of rejections the client has not read yet. */
  function Rejected(msgs: seq<Message>): seq<string>
  {
    if msgs == [] then []
    else RejectedBy(msgs[0]) + Rejected(msgs[1..])
  }

  /** Client and server agree: the client counts what the server holds and what is in flight. */
  predicate Agree(subscriptions: seq<string>, held: set<string>, toServer: seq<Request>, toClient: seq<Message>)
  {
    multiset(subscriptions) == multiset(held) + multiset(Topics(toServer)) + multiset(Rejected(toClient))
  }

  predicate NoEmptyRequest(requests: seq<Request>)
  {
    forall i :: 0 <= i < |requests| ==> requests[i].args != []
  }

  predicate NoEmptyRejection(msgs: seq<Message>)
  {
    forall i :: 0 <= i < |msgs| && IsRejection(msgs[i]) ==> msgs[i].request.value.args != []
  }

  predicate Connecting(s: State)
  {
    Resolve in s.ops || Connect in s.ops || SslHandshake in s.ops || Handshake in s.ops
  }

  /** At most one operation of the chain is outstanding, and none while the read handler runs. */
  predicate OneAtATime(s: State)
  {
    |s.ops| + (if s.handler == Idle then 0 else 1) <= 1
  }

  predicate Inv(s: System)
  {
    && Agree(s.session.subscriptions, s.held, s.toServer, s.toClient)
    && OneAtATime(s.session)
    && s.queued == s.written + s.session.requests
    && NoEmptyRequest(s.session.requests)
    && NoEmptyRequest(s.toServer)
    && NoEmptyRejection(s.toClient)
    && (Connecting(s.session) ==> s.session.requests != [])
  }

  // ---------------------------------------------------------------- lemmas about topics

  lemma {:induction false} TopicsAppend(requests: seq<Request>, r: Request)
    ensures Topics(requests + [r]) == Topics(requests) + r.args
  {
    if requests == [] {
      assert requests + [r] == [r];
    } else {
      assert (requests + [r])[1..] == requests[1..] + [r];
      TopicsAppend(requests[1..], r);
    }
  }

  lemma {:induction false} RejectedAppend(msgs: seq<Message>, msg: Message)
    ensures Rejected(msgs + [msg]) == Rejected(msgs) + RejectedBy(msg)
  {
    hide IsRejection, RejectedBy;
    if msgs == [] {
      assert msgs + [msg] == [msg];
      assert RejectedBy(msg) + [] == RejectedBy(msg);
    } else {
      assert (msgs + [msg])[1..] == msgs[1..] + [msg];
      RejectedAppend(msgs[1..], msg);
    }
  }

  lemma HeldGrows(held: set<string>, more: set<string>)
    requires held !! more
    ensures multiset(held + more) == multiset(held) + multiset(more)
  {
  }

  lemma TopicSetCons(args: seq<string>)
    requires args != []
    ensures TopicSet(args) == {args[0]} + TopicSet(args[1..])
    ensures forall t :: t in TopicSet(args[1..]) ==> t in args[1..]
  {
  }

  /** Topics without repetition count once each. */
  lemma {:induction false} DistinctTopics(args: seq<string>)
    requires forall i, j :: 0 <= i < j < |args| ==> args[i] != args[j]
    ensures multiset(TopicSet(args)) == multiset(args)
  {
    if args != [] {
      var first, rest := args[0], args[1..];
      DistinctTopics(rest);
      TopicSetCons(args);
      assert first !in rest;
      hide TopicSet;
      HeldGrows({first}, TopicSet(rest));
      assert args == [first] + rest;
      assert multiset(args) == multiset{first} + multiset(rest);
      assert multiset({first}) == multiset{first};
    }
  }

  // ---------------------------------------------------------------- every step keeps the invariant

  lemma AcceptAgrees(subs: seq<string>, held: set<string>, toServer: seq<Request>, toClient: seq<Message>, reply: Message)
    requires Agree(subs, held, toServer, toClient)
    requires toServer != [] && Acceptable(toServer[0].args, held) && !IsRejection(reply)
    ensures Agree(subs, held + TopicSet(toServer[0].args), toServer[1..], toClient + [reply])
  {
    hide Rejected;
    RejectedAppend(toClient, reply);
    DistinctTopics(toServer[0].args);
    HeldGrows(held, TopicSet(toServer[0].args));
  }

  lemma RejectAgrees(subs: seq<string>, held: set<string>, toServer: seq<Request>, toClient: seq<Message>)
    requires Agree(subs, held, toServer, toClient) && toServer != []
    ensures Agree(subs, held, toServer[1..], toClient + [Control(false, Some(toServer[0]))])
  {
    hide Rejected;
    RejectedAppend(toClient, Control(false, Some(toServer[0])));
  }

  lemma PushAgrees(subs: seq<string>, held: set<string>, toServer: seq<Request>, toClient: seq<Message>, msg: Message)
    requires Agree(subs, held, toServer, toClient) && !IsRejection(msg)
    ensures Agree(subs, held, toServer, toClient + [msg])
  {
    hide Rejected, Topics;
    RejectedAppend(toClient, msg);
  }

  lemma SendAgrees(subs: seq<string>, held: set<string>, toServer: seq<Request>, toClient: seq<Message>, r: Request)
    requires Agree(subs, held, toServer, toClient)
    ensures Agree(subs + r.args, held, toServer + [r], toClient)
  {
    hide Rejected, Topics;
    TopicsAppend(toServer, r);
  }

  lemma ReadAgrees(s: State, held: set<string>, toServer: seq<Request>, toClient: seq<Message>)
    requires Agree(s.subscriptions, held, toServer, toClient) && toClient != []
    ensures Agree(Handled(s, toClient[0]).subscriptions, held, toServer, toClient[1..])
  {
    hide EraseEach, Topics;
    if IsRejection(toClient[0]) {
      EraseEachMultiset(s.subscriptions, toClient[0].request.value.args);
    }
  }

  lemma SendKeeps(s: System, session: State)
    requires Inv(s)
    requires session.subscriptions == Taken(s.session).subscriptions && session.requests == Taken(s.session).requests
    ensures Agree(session.subscriptions, s.held, s.toServer + Sent(s.session), s.toClient)
    ensures s.queued == s.written + Sent(s.session) + session.requests
    ensures NoEmptyRequest(session.requests) && NoEmptyRequest(s.toServer + Sent(s.session))
  {
    hide Agree, OneAtATime, Connecting;
    if s.session.requests == [] {
      assert s.toServer + Sent(s.session) == s.toServer;
      assert s.written + Sent(s.session) == s.written;
    } else {
      SendAgrees(s.session.subscriptions, s.held, s.toServer, s.toClient, s.session.requests[0]);
      assert s.session.requests == [s.session.requests[0]] + s.session.requests[1..];
    }
  }

  lemma OpDone(ops: multiset<Op>, op: Op, next: Op)
    requires |ops| <= 1 && op in ops
    ensures ops - multiset{op} == multiset{}
    ensures ops - multiset{op} + multiset{next} == multiset{next}
  {
    assert ops == multiset{op} + (ops - multiset{op});
  }

  lemma StepKeepsInv(s: System, a: Action)
    requires Inv(s) && Enabled(s, a)
    ensures Inv(Next(s, a))
  {
    match a {
      case Subscribe(topic) => SubscribeKeeps(s, topic);
      case PhaseDone(op, ok) => PhaseKeeps(s, op, ok);
      case HandshakeDone(ok) => HandshakeKeeps(s, ok);
      case WriteDone(ok) => WriteKeeps(s, ok);
      case ReadDone => ReadDoneKeeps(s);
      case ReadFailed => ReadFailedKeeps(s);
      case Pump => PumpKeeps(s);
      case Check => CheckKeeps(s);
      case Accept(reply) => AcceptKeeps(s, reply);
      case Reject => RejectKeeps(s);
      case Push(msg) => PushKeeps(s, msg);
    }
  }

  lemma SubscribeKeeps(s: System, topic: string)
    requires Inv(s)
    ensures Inv(Next(s, Subscribe(topic)))
  {
    hide Agree;
    var after := Subscribed(s.session, topic);
    var more := after.requests[|s.session.requests|..];
    assert after.requests == s.session.requests + more;
    assert s.written + s.session.requests + more == s.written + (s.session.requests + more);
  }

  lemma PhaseKeeps(s: System, op: Op, ok: bool)
    requires Inv(s) && Enabled(s, PhaseDone(op, ok))
    ensures Inv(Next(s, PhaseDone(op, ok)))
  {
    hide Agree, NoEmptyRejection, NoEmptyRequest;
    OpDone(s.session.ops, op, NextPhase(op));
  }

  lemma HandshakeKeeps(s: System, ok: bool)
    requires Inv(s) && Enabled(s, HandshakeDone(ok))
    ensures Inv(Next(s, HandshakeDone(ok)))
  {
    hide Agree, NoEmptyRejection, NoEmptyRequest;
    OpDone(s.session.ops, Handshake, Write);
    if ok {
      SendKeeps(s, AfterHandshake(s.session, true));
    } else {
      assert s.toServer + [] == s.toServer && s.written + [] == s.written;
    }
  }

  lemma WriteKeeps(s: System, ok: bool)
    requires Inv(s) && Enabled(s, WriteDone(ok))
    ensures Inv(Next(s, WriteDone(ok)))
  {
    hide Agree, NoEmptyRejection, NoEmptyRequest;
    OpDone(s.session.ops, Write, Read);
  }

  lemma ReadFailedKeeps(s: System)
    requires Inv(s) && Enabled(s, ReadFailed)
    ensures Inv(Next(s, ReadFailed))
  {
    hide Agree, NoEmptyRejection, NoEmptyRequest;
    OpDone(s.session.ops, Read, Read);
  }

  lemma PumpKeeps(s: System)
    requires Inv(s) && Enabled(s, Pump)
    ensures Inv(Next(s, Pump))
  {
    hide Agree, NoEmptyRejection, NoEmptyRequest;
    SendKeeps(s, AfterPump(s.session));
    assert s.session.ops == multiset{};
    assert s.session.ops + multiset{Write} == multiset{Write};
  }

  lemma CheckKeeps(s: System)
    requires Inv(s) && Enabled(s, Check)
    ensures Inv(Next(s, Check))
  {
    hide Agree, NoEmptyRejection, NoEmptyRequest;
    assert s.session.ops == multiset{};
    assert s.session.ops + multiset{Read} == multiset{Read};
  }

  lemma AcceptKeeps(s: System, reply: Message)
    requires Inv(s) && Enabled(s, Accept(reply))
    ensures Inv(Next(s, Accept(reply)))
  {
    hide Agree, Acceptable, OneAtATime;
    AcceptAgrees(s.session.subscriptions, s.held, s.toServer, s.toClient, reply);
  }

  lemma RejectKeeps(s: System)
    requires Inv(s) && Enabled(s, Reject)
    ensures Inv(Next(s, Reject))
  {
    hide Agree, OneAtATime;
    RejectAgrees(s.session.subscriptions, s.held, s.toServer, s.toClient);
  }

  lemma PushKeeps(s: System, msg: Message)
    requires Inv(s) && Enabled(s, Push(msg))
    ensures Inv(Next(s, Push(msg)))
  {
    hide Agree, OneAtATime;
    PushAgrees(s.session.subscriptions, s.held, s.toServer, s.toClient, msg);
  }

  lemma ReadDoneKeeps(s: System)
    requires Inv(s) && Enabled(s, ReadDone)
    ensures Inv(Next(s, ReadDone))
  {
    hide Agree, Acceptable, NoEmptyRequest;
    OpDone(s.session.ops, Read, Read);
    ReadAgrees(s.session, s.held, s.toServer, s.toClient);
  }

  lemma InitInv(topic: string)
    ensures topic != "" ==> Init(topic).session == AfterRun(CREATED, topic)
    ensures Inv(Init(topic))
  {
  }

  lemma {:induction false} ExecKeepsInv(s: System, actions: seq<Action>)
    requires Inv(s) && AllEnabled(s, actions)
    ensures Inv(Exec(s, actions))
    decreases |actions|
  {
    hide Inv, Enabled, Next;
    if actions != [] {
      StepKeepsInv(s, actions[0]);
      ExecKeepsInv(Next(s, actions[0]), actions[1..]);
    }
  }

  // ---------------------------------------------------------------- theorems over every run

  /** A state that some run of a session, under some interleaving, comes to. */
  ghost predicate Reachable(s: System)
  {
    exists topic, actions :: topic != "" && AllEnabled(Init(topic), actions) && Exec(Init(topic), actions) == s
  }

  lemma ReachableInv(s: System)
    requires Reachable(s)
    ensures Inv(s)
  {
    hide Inv, Exec, AllEnabled;
    var topic, actions :| topic != "" && AllEnabled(Init(topic), actions) && Exec(Init(topic), actions) == s;
    InitInv(topic);
    ExecKeepsInv(Init(topic), actions);
  }

  /**
   Topic by topic, the client counts what the server holds, plus what is on its way to the
   server, plus what was rejected and not read yet.
   */
  lemma CountsAgree(s: System, t: string)
    requires Reachable(s)
    ensures multiset(s.session.subscriptions)[t] ==
              (if t in s.held then 1 else 0) + multiset(Topics(s.toServer))[t] + multiset(Rejected(s.toClient))[t]
  {
    hide Reachable, Topics, Rejected;
    ReachableInv(s);
  }

  /** Nothing is on its way, in either direction, that will still change a subscription. */
  predicate Quiet(s: System)
  {
    s.toServer == [] && forall i :: 0 <= i < |s.toClient| ==> !IsRejection(s.toClient[i])
  }

  lemma {:induction false} NothingRejected(msgs: seq<Message>)
    requires forall i :: 0 <= i < |msgs| ==> !IsRejection(msgs[i])
    ensures Rejected(msgs) == []
  {
    if msgs != [] {
      NothingRejected(msgs[1..]);
    }
  }

  /** When nothing is in flight the client lists each topic the server holds, once, and no other. */
  lemma QuietMeansSame(s: System)
    requires Reachable(s) && Quiet(s)
    ensures forall t :: t in s.session.subscriptions <==> t in s.held
    ensures forall t :: multiset(s.session.subscriptions)[t] <= 1
  {
    hide Reachable;
    NothingRejected(s.toClient);
    forall t ensures multiset(s.session.subscriptions)[t] == if t in s.held then 1 else 0 {
      CountsAgree(s, t);
    }
    forall t ensures t in s.session.subscriptions <==> t in s.held {
      assert t in s.session.subscriptions <==> t in multiset(s.session.subscriptions);
    }
  }

  lemma RequestsCount(requests: seq<Request>)
    requires NoEmptyRequest(requests) && requests != []
    ensures |Topics(requests)| > 0
  {
  }

  lemma {:induction false} RejectionsCount(msgs: seq<Message>, i: nat)
    requires i < |msgs| && IsRejection(msgs[i]) && msgs[i].request.value.args != []
    ensures |Rejected(msgs)| > 0
  {
    if i > 0 {
      RejectionsCount(msgs[1..], i - 1);
    }
  }

  /** The session quits: looking for topics, it closes itself. */
  predicate Quits(s: System)
  {
    s.session.handler == Checking && AfterCheck(s.session).closes > s.session.closes
  }

  /** It does so exactly when it counts no topic. */
  lemma QuitsExactlyWithoutTopics(s: System)
    ensures Quits(s) <==> s.session.handler == Checking && s.session.subscriptions == []
  {
  }

  /** A session is closed, once at a time, exactly when it quits or reads what does not parse. */
  lemma ClosesExactlyWhen(s: System, a: Action)
    requires Enabled(s, a)
    ensures Next(s, a).session.closes > s.session.closes <==>
            (a.Check? && Quits(s)) || (a.ReadDone? && s.toClient[0].Malformed?)
    ensures s.session.closes <= Next(s, a).session.closes <= s.session.closes + 1
  {
    hide EraseEach, TopicSet, Acceptable;
  }

  /** When a session quits, the server holds nothing for it and nothing is in flight. */
  lemma QuitIsClean(s: System)
    requires Reachable(s) && Quits(s)
    ensures s.held == {} && Quiet(s)
  {
    hide Reachable;
    ReachableInv(s);
    QuitsExactlyWithoutTopics(s);
    QuitAgrees(s.held, s.toServer, s.toClient);
  }

  lemma UnreadCounts(msgs: seq<Message>, i: nat)
    requires NoEmptyRejection(msgs) && i < |msgs| && IsRejection(msgs[i])
    ensures |Rejected(msgs)| > 0
  {
    RejectionsCount(msgs, i);
  }

  lemma QuitAgrees(held: set<string>, toServer: seq<Request>, toClient: seq<Message>)
    requires Agree([], held, toServer, toClient) && NoEmptyRequest(toServer) && NoEmptyRejection(toClient)
    ensures held == {} && toServer == [] && forall i :: 0 <= i < |toClient| ==> !IsRejection(toClient[i])
  {
    hide Topics, Rejected, NoEmptyRejection, NoEmptyRequest;
    var nothing: seq<string> := [];
    assert |multiset(nothing)| == 0;
    assert |multiset(held)| + |multiset(Topics(toServer))| + |multiset(Rejected(toClient))| == 0;
    if toServer != [] {
      RequestsCount(toServer);
      assert false;
    }
    forall i | 0 <= i < |toClient| ensures !IsRejection(toClient[i]) {
      if IsRejection(toClient[i]) {
        UnreadCounts(toClient, i);
        assert false;
      }
    }
  }

  /** At most one operation of the chain is outstanding, and none while a handler runs. */
  lemma NeverTwoOperations(s: System)
    requires Reachable(s)
    ensures OneAtATime(s.session)
  {
    hide Reachable, OneAtATime;
    ReachableInv(s);
  }

  /** Requests are written in the order in which they were queued, and none is lost on the way. */
  lemma WrittenInOrder(s: System)
    requires Reachable(s)
    ensures s.queued == s.written + s.session.requests
  {
    hide Reachable;
    ReachableInv(s);
  }

  /** The handshake never sends an empty message. */
  lemma FirstWriteCarriesARequest(s: System)
    requires Reachable(s) && Enabled(s, HandshakeDone(true))
    ensures Front(s.session).Some?
  {
    hide Reachable;
    ReachableInv(s);
  }

  // ---------------------------------------------------------------- progress

  lemma StepAdvances(s: System, a: Action)
    requires Enabled(s, a)
    ensures s.queued <= Next(s, a).queued
    ensures var s' := Next(s, a);
            |s'.written| - |s.written| >= Min(|s.session.requests|, s'.pumps - s.pumps) && s'.pumps >= s.pumps
  {
    hide Handled, TopicSet, Acceptable;
  }

  /**
   The k-th oldest queued request has been handed to a write after at most k further
   messages have been read and handled.
   */
  lemma EveryRequestIsWritten(s: System, actions: seq<Action>, k: nat)
    requires Reachable(s) && AllEnabled(s, actions)
    requires k <= |s.session.requests| && Exec(s, actions).pumps >= s.pumps + k
    ensures s.written + s.session.requests[..k] <= Exec(s, actions).written
  {
    hide Inv, AllEnabled, Exec, Reachable;
    ReachableInv(s);
    ExecAdvances(s, actions);
    ExecKeepsInv(s, actions);
    PrefixWritten(s, Exec(s, actions), k);
  }

  lemma PrefixWritten(s: System, e: System, k: nat)
    requires Inv(s) && Inv(e) && s.queued <= e.queued
    requires k <= |s.session.requests| && |e.written| >= |s.written| + k
    ensures s.written + s.session.requests[..k] <= e.written
  {
    var p := s.written + s.session.requests[..k];
    assert p == s.queued[..|p|];
    assert e.queued[..|p|] == s.queued[..|p|];
    assert e.written[..|p|] == e.queued[..|p|];
  }

  lemma {:induction false} ExecAdvances(s: System, actions: seq<Action>)
    requires Inv(s) && AllEnabled(s, actions)
    ensures s.queued <= Exec(s, actions).queued && Exec(s, actions).pumps >= s.pumps
    ensures |Exec(s, actions).written| >= |s.written|
    ensures var e := Exec(s, actions);
            |e.written| - |s.written| >= Min(|s.session.requests|, e.pumps - s.pumps)
    decreases |actions|
  {
    hide Next, Enabled;
    if actions != [] {
      var s' := Next(s, actions[0]);
      StepAdvances(s, actions[0]);
      StepKeepsInv(s, actions[0]);
      ExecAdvances(s', actions[1..]);
      assert |s'.session.requests| + |s'.written| >= |s.session.requests| + |s.written|;
    }
  }
}
