/**
 A WebSocket session: the topics it counts as subscribed, the requests it has queued, and
 the chained asynchronous operations that write the requests and read the replies. User
 threads and handlers share the two lists under one lock, so each critical section is one
 atomic step here, and other threads may come in between the steps of one handler.
 */
module SubscriptionSession {
  import opened Wrappers

  /** A queued subscribe message; its text lists the topics. */
  datatype Request = Request(args: seq<string>)

  /** A message read from the server. A control message may carry the request it answers. */
  datatype Message =
    | Control(success: bool, request: Option<Request>)
    | Data
    | NotAnObject
    | Malformed

  /** The operations a session starts; each completes once, with success or failure. */
  datatype Op = Resolve | Connect | SslHandshake | Handshake | Write | Read

  /** Where the read handler stands: between calls, about to take a request, about to look for topics. */
  datatype Handler = Idle | Pumping | Checking

  datatype State = State(
    subscriptions: seq<string>,
    requests: seq<Request>,
    ops: multiset<Op>,
    handler: Handler,
    closes: nat)

  const CREATED := State([], [], multiset{}, Idle, 0)

  // ---------------------------------------------------------------- critical sections, as functions

  /** Queues a request, unless the topic is already counted as subscribed. The queue is not looked at. */
  function Subscribed(s: State, topic: string): State
  {
    if topic in s.subscriptions then s else s.(requests := s.requests + [Request([topic])])
  }

  /** Running a session queues its first topic and starts the chain; an empty topic is refused. */
  function AfterRun(s: State, topic: string): State
  {
    if topic == "" then s else Subscribed(s, topic).(ops := s.ops + multiset{Resolve})
  }

  /** The oldest request, if there is one. */
  function Front(s: State): Option<Request>
  {
    if s.requests == [] then None else Some(s.requests[0])
  }

  /** Taking the oldest request counts its topics as subscribed at once. */
  function Taken(s: State): State
  {
    if s.requests == [] then s
    else s.(subscriptions := s.subscriptions + s.requests[0].args, requests := s.requests[1..])
  }

  /** Without the first occurrence of a topic. */
  function EraseFirst(topics: seq<string>, topic: string): seq<string>
  {
    if topics == [] then []
    else if topics[0] == topic then topics[1..]
    else [topics[0]] + EraseFirst(topics[1..], topic)
  }

  function EraseEach(topics: seq<string>, args: seq<string>): seq<string>
    decreases |args|
  {
    if args == [] then topics else EraseEach(EraseFirst(topics, args[0]), args[1..])
  }

  /** A failed request takes its topics back. */
  function Handled(s: State, msg: Message): State
  {
    if msg.Control? && !msg.success && msg.request.Some?
    then s.(subscriptions := EraseEach(s.subscriptions, msg.request.value.args))
    else s
  }

  // ---------------------------------------------------------------- handlers, as functions

  function NextPhase(op: Op): Op
    requires op in {Resolve, Connect, SslHandshake}
  {
    match op
    case Resolve => Connect
    case Connect => SslHandshake
    case SslHandshake => Handshake
  }

  function AfterPhase(s: State, op: Op, ok: bool): State
    requires op in {Resolve, Connect, SslHandshake}
  {
    var ended := s.ops - multiset{op};
    s.(ops := if ok then ended + multiset{NextPhase(op)} else ended)
  }

  /** The handshake is answered by writing the oldest request. */
  function AfterHandshake(s: State, ok: bool): State
  {
    var ended := s.ops - multiset{Handshake};
    if ok then Taken(s).(ops := ended + multiset{Write}) else s.(ops := ended)
  }

  function AfterWrite(s: State, ok: bool): State
  {
    var ended := s.ops - multiset{Write};
    s.(ops := if ok then ended + multiset{Read} else ended)
  }

  /** A message is handled under the lock; one that does not parse closes the session for good. */
  function AfterRead(s: State, incoming: Option<Message>): State
  {
    var ended := s.ops - multiset{Read};
    if incoming.None? then s.(ops := ended)
    else if incoming.value.Malformed? then s.(ops := ended, closes := s.closes + 1)
    else Handled(s, incoming.value).(ops := ended, handler := Pumping)
  }

  /** The next request is written, if there is one. */
  function AfterPump(s: State): State
  {
    if s.requests == [] then s.(handler := Checking)
    else Taken(s).(ops := s.ops + multiset{Write}, handler := Idle)
  }

  /** Without topics the session quits; it starts a read in any case. */
  function AfterCheck(s: State): State
  {
    s.(closes := if s.subscriptions == [] then s.closes + 1 else s.closes, ops := s.ops + multiset{Read}, handler := Idle)
  }

  // ---------------------------------------------------------------- the object

  class WebSocketSession {
    var subscriptions: seq<string>
    var subscriptionRequests: seq<Request>
    var ops: multiset<Op>
    var handler: Handler
    var closes: nat

    function Value(): State
      reads this
    {
      State(subscriptions, subscriptionRequests, ops, handler, closes)
    }

    constructor ()
      ensures Value() == CREATED
    {
      subscriptions, subscriptionRequests, ops, handler, closes := [], [], multiset{}, Idle, 0;
    }

    /** An empty topic throws. */
    method Run(topic: string) returns (ok: bool)
      modifies this
      ensures ok <==> topic != ""
      ensures Value() == AfterRun(old(Value()), topic)
    {
      ok := topic != "";
      if !ok {
        return;
      }
      WriteSubscription(topic);
      ops := ops + multiset{Resolve};
    }

    method WriteSubscription(subscription: string)
      modifies this`subscriptionRequests
      ensures Value() == Subscribed(old(Value()), subscription)
    {
      var i := 0;
      while i < |subscriptions|
        invariant 0 <= i <= |subscriptions|
        invariant subscription !in subscriptions[..i]
      {
        if subscriptions[i] == subscription {
          return;
        }
        i := i + 1;
      }
      assert subscriptions[..i] == subscriptions;
      subscriptionRequests := subscriptionRequests + [Request([subscription])];
    }

    method ReadSubscription() returns (retVal: Option<Request>)
      modifies this`subscriptions, this`subscriptionRequests
      ensures retVal == Front(old(Value())) && Value() == Taken(old(Value()))
    {
      if subscriptionRequests == [] {
        return None;
      }
      var front := subscriptionRequests[0];
      var i := 0;
      while i < |front.args|
        invariant 0 <= i <= |front.args|
        invariant subscriptionRequests == old(subscriptionRequests)
        invariant subscriptions == old(subscriptions) + front.args[..i]
      {
        subscriptions := subscriptions + [front.args[i]];
        i := i + 1;
      }
      assert front.args[..i] == front.args;
      retVal := Some(front);
      subscriptionRequests := subscriptionRequests[1..];
    }

    method HandleApiControlMsg(msg: Message)
      modifies this`subscriptions
      ensures Value() == Handled(old(Value()), msg)
    {
      if msg.Control? && !msg.success && msg.request.Some? {
        var args := msg.request.value.args;
        var i := 0;
        while i < |args|
          invariant 0 <= i <= |args|
          invariant EraseEach(subscriptions, args[i..]) == EraseEach(old(subscriptions), args)
        {
          assert args[i..][1..] == args[i + 1..];
          subscriptions := EraseFirst(subscriptions, args[i]);
          i := i + 1;
        }
      }
    }

    /** Looks for the filter among the topics, one by one. */
    method IsSubscribed(filter: string) returns (found: bool)
      ensures found <==> filter in subscriptions
    {
      found := false;
      for i := 0 to |subscriptions|
        invariant filter !in subscriptions[..i]
      {
        if subscriptions[i] == filter {
          return true;
        }
      }
      assert subscriptions[..|subscriptions|] == subscriptions;
    }

    method OnPhase(op: Op, ok: bool)
      requires op in {Resolve, Connect, SslHandshake}
      modifies this`ops
      ensures Value() == AfterPhase(old(Value()), op, ok)
    {
      ops := ops - multiset{op};
      if ok {
        ops := ops + multiset{NextPhase(op)};
      }
    }

    method OnHandshake(ok: bool) returns (sent: Option<Request>)
      modifies this
      ensures Value() == AfterHandshake(old(Value()), ok)
      ensures sent == if ok then Front(old(Value())) else None
    {
      ops := ops - multiset{Handshake};
      sent := None;
      if ok {
        sent := ReadSubscription();
        ops := ops + multiset{Write};
      }
    }

    method OnWrite(ok: bool)
      modifies this`ops
      ensures Value() == AfterWrite(old(Value()), ok)
    {
      ops := ops - multiset{Write};
      if ok {
        ops := ops + multiset{Read};
      }
    }

    /** The read handler, up to and including the handling of the message. */
    method OnRead(incoming: Option<Message>)
      modifies this
      ensures Value() == AfterRead(old(Value()), incoming)
    {
      ops := ops - multiset{Read};
      if incoming.Some? {
        if incoming.value.Malformed? {
          closes := closes + 1;
        } else {
          HandleApiControlMsg(incoming.value);
          handler := Pumping;
        }
      }
    }

    /** The read handler, taking the next request. */
    method OnReadPump() returns (sent: Option<Request>)
      modifies this
      ensures Value() == AfterPump(old(Value()))
      ensures sent == Front(old(Value()))
    {
      sent := ReadSubscription();
      if sent.Some? {
        ops := ops + multiset{Write};
        handler := Idle;
      } else {
        handler := Checking;
      }
    }

    /** The read handler, when no request was waiting. */
    method OnReadCheck()
      modifies this
      ensures Value() == AfterCheck(old(Value()))
    {
      if subscriptions == [] {
        closes := closes + 1;
      }
      ops := ops + multiset{Read};
      handler := Idle;
    }
  }

  // ---------------------------------------------------------------- erasing

  lemma {:induction false} EraseFirstMultiset(topics: seq<string>, topic: string)
    ensures multiset(EraseFirst(topics, topic)) == multiset(topics) - multiset{topic}
  {
    if topics != [] {
      assert topics == [topics[0]] + topics[1..];
      EraseFirstMultiset(topics[1..], topic);
    }
  }

  /** The first occurrence is the one that goes, and the order of the others stays. */
  lemma {:induction false} EraseFirstAt(before: seq<string>, topic: string, after: seq<string>)
    requires topic !in before
    ensures EraseFirst(before + [topic] + after, topic) == before + after
  {
    var all := before + [topic] + after;
    if before == [] {
      assert all[1..] == after && before + after == after;
    } else {
      assert all[1..] == before[1..] + [topic] + after;
      EraseFirstAt(before[1..], topic, after);
      assert [before[0]] + (before[1..] + after) == before + after;
    }
  }

  /** Erasing topics one by one takes away one occurrence for each. */
  lemma {:induction false} EraseEachMultiset(topics: seq<string>, args: seq<string>)
    ensures multiset(EraseEach(topics, args)) == multiset(topics) - multiset(args)
    decreases |args|
  {
    if args != [] {
      hide EraseFirst;
      EraseFirstMultiset(topics, args[0]);
      EraseEachMultiset(EraseFirst(topics, args[0]), args[1..]);
      assert args == [args[0]] + args[1..];
      assert multiset(args) == multiset{args[0]} + multiset(args[1..]);
      MinusTwice(multiset(topics), args[0], multiset(args[1..]));
    }
  }

  lemma MinusTwice(m: multiset<string>, x: string, n: multiset<string>)
    ensures (m - multiset{x}) - n == m - (multiset{x} + n)
  {
  }
}
