/**
 What a session does not guarantee, and exactly when it fails: topics can be requested twice,
 and a session that quits can leave requests behind.
 */
module SubscriptionLimits {
  import opened SubscriptionProtocol
  import opened SubscriptionSession
  import opened Wrappers

  // ---------------------------------------------------------------- two states worth knowing

  lemma {:induction false} Append(s: System, actions: seq<Action>, a: Action)
    requires AllEnabled(s, actions) && Enabled(Exec(s, actions), a)
    ensures AllEnabled(s, actions + [a]) && Exec(s, actions + [a]) == Next(Exec(s, actions), a)
    decreases |actions|
  {
    hide Next, Enabled;
    if actions == [] {
      assert actions + [a] == [a];
    } else {
      assert (actions + [a])[1..] == actions[1..] + [a];
      Append(Next(s, actions[0]), actions[1..], a);
    }
  }

  lemma ReachInit(topic: string)
    requires topic != ""
    ensures Reachable(Init(topic))
  {
    assert AllEnabled(Init(topic), []) && Exec(Init(topic), []) == Init(topic);
  }

  lemma ReachNext(s: System, a: Action, next: System)
    requires Reachable(s) && Enabled(s, a) && next == Next(s, a)
    ensures Reachable(next)
  {
    hide Next, Enabled, AllEnabled, Exec, Init;
    var topic, actions :| topic != "" && AllEnabled(Init(topic), actions) && Exec(Init(topic), actions) == s;
    Append(Init(topic), actions, a);
  }

  /** The state of a session whose first request has just been written. */
  function Opened(topic: string, more: seq<Request>): System
  {
    var first := Request([topic]);
    System(State([topic], more, multiset{Read}, Idle, 0), [first], [], {}, [first] + more, [first], 0)
  }

  /** Subscribing again before the first write puts the same topic into the queue again. */
  lemma ReachQueued(topic: string, again: bool)
    requires topic != ""
    ensures var all := [Request([topic])] + (if again then [Request([topic])] else []);
            Reachable(Init(topic).(session := State([], all, multiset{Resolve}, Idle, 0), queued := all))
  {
    hide Reachable;
    var first := Request([topic]);
    ReachInit(topic);
    assert [first] + [] == [first];
    if again {
      assert ([first] + [first])[1..] == [first];
      ReachNext(Init(topic), Subscribe(topic),
                Init(topic).(session := State([], [first] + [first], multiset{Resolve}, Idle, 0), queued := [first] + [first]));
    }
  }

  lemma ReachOpened(topic: string, again: bool)
    requires topic != ""
    ensures Reachable(Opened(topic, if again then [Request([topic])] else []))
  {
    hide Reachable, Enabled, Next;
    var first := Request([topic]);
    var more := if again then [first] else [];
    ReachQueued(topic, again);
    var s0 := Init(topic).(session := State([], [first] + more, multiset{Resolve}, Idle, 0), queued := [first] + more);
    var s1 := s0.(session := s0.session.(ops := multiset{Connect}));
    PhaseNext(s0, Resolve, s1);
    ReachNext(s0, PhaseDone(Resolve, true), s1);
    var s2 := s0.(session := s0.session.(ops := multiset{SslHandshake}));
    PhaseNext(s1, Connect, s2);
    ReachNext(s1, PhaseDone(Connect, true), s2);
    var s3 := s0.(session := s0.session.(ops := multiset{Handshake}));
    PhaseNext(s2, SslHandshake, s3);
    ReachNext(s2, PhaseDone(SslHandshake, true), s3);
    var s4 := Opened(topic, more).(session := State([topic], more, multiset{Write}, Idle, 0));
    FirstWrite(s3, topic, more);
    ReachNext(s3, HandshakeDone(true), s4);
    WriteNext(s4);
    ReachNext(s4, WriteDone(true), Opened(topic, more));
  }

  lemma PhaseNext(s: System, op: Op, next: System)
    requires op in {Resolve, Connect, SslHandshake} && s.session.ops == multiset{op}
    requires next == s.(session := s.session.(ops := multiset{NextPhase(op)}))
    ensures Enabled(s, PhaseDone(op, true)) && next == Next(s, PhaseDone(op, true))
  {
  }

  lemma FirstWrite(s: System, topic: string, more: seq<Request>)
    requires var all := [Request([topic])] + more;
             s == System(State([], all, multiset{Handshake}, Idle, 0), [], [], {}, all, [], 0)
    ensures Enabled(s, HandshakeDone(true))
    ensures Next(s, HandshakeDone(true)) == Opened(topic, more).(session := State([topic], more, multiset{Write}, Idle, 0))
  {
  }

  lemma WriteNext(s: System)
    requires s.session.ops == multiset{Write}
    ensures Enabled(s, WriteDone(true))
    ensures Next(s, WriteDone(true)) == s.(session := s.session.(ops := multiset{Read}))
  {
  }

  /** While a duplicate request is in flight the client does list a topic twice. */
  lemma DuplicatesOccur(topic: string)
    requires topic != ""
    ensures exists s :: Reachable(s) && s.session.subscriptions == [topic, topic]
  {
    hide Reachable;
    var first := Request([topic]);
    ReachOpened(topic, true);
    var s0 := Opened(topic, [first]);
    var s1 := s0.(toClient := [Data]);
    ReachNext(s0, Push(Data), s1);
    var s2 := s0.(session := s0.session.(ops := multiset{}, handler := Pumping));
    ReachNext(s1, ReadDone, s2);
    var s3 := s0.(session := State([topic, topic], [], multiset{Write}, Idle, 0), toServer := [first, first],
                  written := [first, first], pumps := 1);
    ReachNext(s2, Pump, s3);
  }

  /** A request queued between the two looks of the handler is left behind by a quitting session. */
  lemma QuitCanStrandARequest(topic: string, late: string)
    requires topic != ""
    ensures exists s :: Reachable(s) && Quits(s) && s.session.requests == [Request([late])]
  {
    hide Reachable;
    var first, last := Request([topic]), Request([late]);
    ReachOpened(topic, false);
    var s0 := Opened(topic, []);
    var rejection := Control(false, Some(first));
    var s1 := s0.(toServer := [], toClient := [rejection]);
    ReachNext(s0, Reject, s1);
    var s2 := s0.(session := State([], [], multiset{}, Pumping, 0), toServer := []);
    assert Handled(s1.session, rejection).subscriptions == [] by {
      assert EraseFirst([topic], topic) == [];
      assert [topic][1..] == [];
      assert EraseEach([], []) == [];
    }
    ReachNext(s1, ReadDone, s2);
    var s3 := s2.(session := s2.session.(handler := Checking), pumps := 1);
    assert s2.toServer + [] == s2.toServer && s2.written + [] == s2.written;
    ReachNext(s2, Pump, s3);
    var s4 := s3.(session := s3.session.(requests := [last]), queued := [first, last]);
    ReachNext(s3, Subscribe(late), s4);
  }

  // ---------------------------------------------------------------- what a quitting session leaves behind

  /** The requests that subscribe calls queue while a list of topics does not change. */
  function LateRequests(subscriptions: seq<string>, late: seq<Action>): seq<Request>
    decreases |late|
  {
    if late == [] then []
    else
      (if late[0].Subscribe? && late[0].topic !in subscriptions then [Request([late[0].topic])] else [])
      + LateRequests(subscriptions, late[1..])
  }

  lemma {:induction false} NoneLateExactlyWhen(subscriptions: seq<string>, late: seq<Action>)
    ensures LateRequests(subscriptions, late) == [] <==>
            forall i :: 0 <= i < |late| && late[i].Subscribe? ==> late[i].topic in subscriptions
    decreases |late|
  {
    if late != [] {
      NoneLateExactlyWhen(subscriptions, late[1..]);
      assert late == [late[0]] + late[1..];
    }
  }

  /** Until it looks for topics, the handler of a session sees only subscribe calls come in between. */
  lemma {:induction false} WhileChecking(s: System, late: seq<Action>)
    requires Inv(s) && s.session.handler == Checking && AllEnabled(s, late) && Check !in late
    ensures var e := Exec(s, late).session;
            && e.handler == Checking && e.subscriptions == s.session.subscriptions
            && e.requests == s.session.requests + LateRequests(s.session.subscriptions, late)
    decreases |late|
  {
    hide Inv, Next, Enabled;
    if late == [] {
      assert s.session.requests + [] == s.session.requests;
    } else {
      var a, s' := late[0], Next(s, late[0]);
      StepKeepsInv(s, a);
      CheckingStep(s, a);
      WhileChecking(s', late[1..]);
      var one := if a.Subscribe? && a.topic !in s.session.subscriptions then [Request([a.topic])] else [];
      var rest := LateRequests(s.session.subscriptions, late[1..]);
      assert (s.session.requests + one) + rest == s.session.requests + (one + rest);
    }
  }

  lemma CheckingStep(s: System, a: Action)
    requires Inv(s) && s.session.handler == Checking && Enabled(s, a) && a != Check
    ensures var next := Next(s, a).session;
            && next.handler == Checking && next.subscriptions == s.session.subscriptions
            && next.requests == s.session.requests +
                 (if a.Subscribe? && a.topic !in s.session.subscriptions then [Request([a.topic])] else [])
  {
    hide Agree, NoEmptyRequest, NoEmptyRejection, TopicSet, Acceptable;
    NothingOutstanding(s.session);
  }

  lemma NothingOutstanding(s: State)
    requires OneAtATime(s) && s.handler != Idle
    ensures forall op :: op !in s.ops
  {
    assert |s.ops| == 0;
  }

  /** A run with one more action, taken apart. */
  lemma {:induction false} Unappend(s: System, actions: seq<Action>, a: Action)
    requires AllEnabled(s, actions + [a])
    ensures AllEnabled(s, actions) && Enabled(Exec(s, actions), a)
    ensures Exec(s, actions + [a]) == Next(Exec(s, actions), a)
    decreases |actions|
  {
    hide Next, Enabled;
    if actions == [] {
      assert actions + [a] == [a];
    } else {
      assert (actions + [a])[1..] == actions[1..] + [a];
      Unappend(Next(s, actions[0]), actions[1..], a);
    }
  }

  predicate NoSubscribe(actions: seq<Action>)
  {
    forall i :: 0 <= i < |actions| ==> !actions[i].Subscribe?
  }

  /** A session found no request waiting in state s, and has not looked for topics since. */
  ghost predicate FoundEmpty(s: System, late: seq<Action>, e: System)
  {
    && Reachable(s) && s.session.handler == Pumping && s.session.requests == []
    && AllEnabled(Next(s, Pump), late) && Check !in late && Exec(Next(s, Pump), late) == e
  }

  lemma OnlyPumpBeginsChecking(s: System, a: Action)
    requires Enabled(s, a) && Next(s, a).session.handler == Checking
    ensures a != Check
    ensures s.session.handler != Checking ==> a == Pump && s.session.handler == Pumping && s.session.requests == []
  {
    hide Handled, TopicSet, Acceptable;
  }

  lemma {:induction false} CheckingBegan(topic: string, actions: seq<Action>) returns (s: System, late: seq<Action>)
    requires topic != "" && AllEnabled(Init(topic), actions) && Exec(Init(topic), actions).session.handler == Checking
    ensures FoundEmpty(s, late, Exec(Init(topic), actions))
    decreases |actions|
  {
    hide Next, Enabled, AllEnabled, Exec;
    if actions == [] {
      NothingRun(topic);
      assert false;
    } else {
      var before, a := actions[..|actions| - 1], actions[|actions| - 1];
      assert actions == before + [a];
      Unappend(Init(topic), before, a);
      var p := Exec(Init(topic), before);
      assert Reachable(p);
      OnlyPumpBeginsChecking(p, a);
      if p.session.handler == Checking {
        s, late := CheckingBegan(topic, before);
        CanPump(s);
        Append(Next(s, Pump), late, a);
        late := late + [a];
      } else {
        s, late := p, [];
        CanPump(s);
        NothingAfter(Next(p, Pump));
      }
    }
  }

  lemma CanPump(s: System)
    requires s.session.handler == Pumping
    ensures Enabled(s, Pump)
  {
  }

  lemma NothingRun(topic: string)
    ensures Exec(Init(topic), []).session.handler == Idle
  {
  }

  lemma NothingAfter(s: System)
    ensures AllEnabled(s, []) && Exec(s, []) == s
  {
  }

  /**
   What a session leaves behind when it decides to quit: exactly the requests of the subscribe
   calls that came after its look into the queue found nothing. So nothing is left behind
   exactly when there was no such call.
   */
  lemma QuitStrandsExactlyTheLate(e: System)
    requires Reachable(e) && Quits(e)
    ensures exists s, late :: FoundEmpty(s, late, e) && e.session.requests == LateRequests([], late)
    ensures forall s: System, late: seq<Action> :: FoundEmpty(s, late, e) ==>
              (e.session.requests == [] <==> NoSubscribe(late))
  {
    hide Reachable, AllEnabled, Exec, FoundEmpty;
    var s, late := EveryQuitBegan(e);
    LateAreLeft(s, late, e);
    forall s: System, late: seq<Action> | FoundEmpty(s, late, e)
      ensures e.session.requests == [] <==> NoSubscribe(late)
    {
      LateAreLeft(s, late, e);
      NoneLateExactlyWhen([], late);
    }
  }

  lemma EveryQuitBegan(e: System) returns (s: System, late: seq<Action>)
    requires Reachable(e) && Quits(e)
    ensures FoundEmpty(s, late, e)
  {
    hide AllEnabled, Exec, FoundEmpty;
    var topic, actions :| topic != "" && AllEnabled(Init(topic), actions) && Exec(Init(topic), actions) == e;
    s, late := CheckingBegan(topic, actions);
  }

  /** After a look into the empty queue, the queue holds what was subscribed late to new topics. */
  lemma LateAreLeft(s: System, late: seq<Action>, e: System)
    requires FoundEmpty(s, late, e)
    ensures e.session.handler == Checking && e.session.subscriptions == s.session.subscriptions
    ensures e.session.requests == LateRequests(s.session.subscriptions, late)
  {
    hide Reachable, AllEnabled, Exec, Inv;
    ReachableInv(s);
    StepKeepsInv(s, Pump);
    WhileChecking(Next(s, Pump), late);
    assert [] + LateRequests(s.session.subscriptions, late) == LateRequests(s.session.subscriptions, late);
  }

  /** The queue is still empty exactly when every late call named a topic that is already counted. */
  lemma QueueStaysEmptyExactlyWhen(s: System, late: seq<Action>, e: System)
    requires FoundEmpty(s, late, e)
    ensures e.session.requests == [] <==>
            forall i :: 0 <= i < |late| && late[i].Subscribe? ==> late[i].topic in s.session.subscriptions
  {
    hide FoundEmpty;
    LateAreLeft(s, late, e);
    NoneLateExactlyWhen(s.session.subscriptions, late);
  }

  // ---------------------------------------------------------------- when topics repeat

  /** How often each topic is named, by list and queue together. */
  function Named(s: State): multiset<string>
  {
    multiset(s.subscriptions) + multiset(Topics(s.requests))
  }

  ghost predicate NoRepeats(s: State)
  {
    forall t :: Named(s)[t] <= 1
  }

  /** The topic of a subscribe call is counted, or no queued request names it. */
  predicate Guarded(s: State, topic: string)
  {
    topic in s.subscriptions || topic !in Topics(s.requests)
  }

  /**
   The queue, which is not consulted, is the missing guard: a subscribe call keeps topics
   from being named twice exactly when its topic is counted already or not queued.
   */
  lemma SubscribeKeepsNoRepeatsExactlyWhen(s: State, topic: string)
    requires NoRepeats(s)
    ensures NoRepeats(Subscribed(s, topic)) <==> Guarded(s, topic)
  {
    hide Topics;
    TopicsAppend(s.requests, Request([topic]));
    var next := Subscribed(s, topic);
    if topic !in s.subscriptions {
      assert Named(next) == Named(s) + multiset{topic};
      assert topic in Topics(s.requests) <==> multiset(Topics(s.requests))[topic] > 0;
      assert Named(next)[topic] == Named(s)[topic] + 1;
    }
  }

  lemma TakenNamesTheSame(s: State)
    ensures Named(Taken(s)) == Named(s)
  {
    if s.requests != [] {
      assert multiset(s.subscriptions + s.requests[0].args) == multiset(s.subscriptions) + multiset(s.requests[0].args);
      assert multiset(Topics(s.requests)) == multiset(s.requests[0].args) + multiset(Topics(s.requests[1..]));
    }
  }

  lemma HandledNamesNoMore(s: State, msg: Message)
    ensures forall t :: Named(Handled(s, msg))[t] <= Named(s)[t]
  {
    hide Topics, EraseEach;
    if IsRejection(msg) {
      EraseEachMultiset(s.subscriptions, msg.request.value.args);
    }
  }

  /** Every other step names no topic more often. */
  lemma OtherStepsNameNoMore(s: System, a: Action)
    requires Enabled(s, a) && !a.Subscribe?
    ensures forall t :: Named(Next(s, a).session)[t] <= Named(s.session)[t]
  {
    hide Topics, Handled, TopicSet, Acceptable, Taken;
    match a
    case HandshakeDone(ok) => TakenNamesTheSame(s.session);
    case Pump => TakenNamesTheSame(s.session);
    case ReadDone => HandledNamesNoMore(s.session, s.toClient[0]);
    case _ =>
  }

  /** Every subscribe call of a run meets the guard. */
  predicate Careful(s: System, actions: seq<Action>)
    requires AllEnabled(s, actions)
    decreases |actions|
  {
    actions != [] ==>
      && (actions[0].Subscribe? ==> Guarded(s.session, actions[0].topic))
      && Careful(Next(s, actions[0]), actions[1..])
  }

  /** No state of a run names a topic twice. */
  ghost predicate NeverRepeats(s: System, actions: seq<Action>)
    requires AllEnabled(s, actions)
    decreases |actions|
  {
    NoRepeats(s.session) && (actions != [] ==> NeverRepeats(Next(s, actions[0]), actions[1..]))
  }

  /** Over any run no topic is ever queued or listed twice exactly when every call meets the guard. */
  lemma {:induction false} NeverRepeatsExactlyWhenCareful(s: System, actions: seq<Action>)
    requires AllEnabled(s, actions) && NoRepeats(s.session)
    ensures NeverRepeats(s, actions) <==> Careful(s, actions)
    decreases |actions|
  {
    hide Named, Guarded, Enabled;
    if actions != [] {
      var a, s' := actions[0], Next(s, actions[0]);
      if a.Subscribe? {
        SubscribeKeepsNoRepeatsExactlyWhen(s.session, a.topic);
      } else {
        OtherStepsNameNoMore(s, a);
      }
      hide Next;
      if NoRepeats(s'.session) {
        NeverRepeatsExactlyWhenCareful(s', actions[1..]);
      }
    }
  }

  lemma NewSessionNamesOnce(topic: string)
    ensures NoRepeats(Init(topic).session)
  {
    assert Topics([Request([topic])]) == [topic] + Topics([]);
    assert [topic] + [] == [topic];
  }

  /** In particular over any run of a new session. */
  lemma NewSessionRepeatsExactlyWhenCareless(topic: string, actions: seq<Action>)
    requires AllEnabled(Init(topic), actions)
    ensures NeverRepeats(Init(topic), actions) <==> Careful(Init(topic), actions)
  {
    hide NeverRepeats, Careful, NoRepeats, AllEnabled;
    NewSessionNamesOnce(topic);
    NeverRepeatsExactlyWhenCareful(Init(topic), actions);
  }
}
