/**
 The rate limiter against a server that counts: a quota that is refilled to its capacity
 at the reset time, and reported, with that time, in every reply.
 */
module ServerQuota {
  import opened RateLimiting

  datatype Server = Server(quota: int, resetAt: int)

  /** What the server holds after it has served a request that reached it at its time t. */
  function Serve(sv: Server, capacity: int, t: int, nextReset: int): Server
  {
    var refreshed := if t >= sv.resetAt then Server(capacity, nextReset) else sv;
    refreshed.(quota := if refreshed.quota > 0 then refreshed.quota - 1 else 0)
  }

  datatype System = System(client: State, server: Server, clock: int)

  /** One turn of a sequential client: wait, send, and process the reply. */
  datatype Call = Call(now: int, woken: int, sent: int, nextReset: int)

  /** The server's clock is `lead` ms ahead of the client's. */
  function Turn(s: System, capacity: int, lead: int, c: Call): System
  {
    var waited := AfterWait(s.client, c.now, c.woken);
    var server := Serve(s.server, capacity, c.sent + lead, c.nextReset);
    System(AfterUpdate(waited, Number(server.quota), Number(server.resetAt)), server, c.sent)
  }

  /** The client's clock never runs backwards and its sleeps last as long as asked. */
  predicate Legal(s: System, lead: int, c: Call)
  {
    s.clock <= c.now && c.now + Delay(s.client, c.now) <= c.woken <= c.sent && c.sent + lead < c.nextReset
  }

  predicate LegalRun(s: System, capacity: int, lead: int, calls: seq<Call>)
    decreases |calls|
  {
    calls != [] ==> Legal(s, lead, calls[0]) && LegalRun(Turn(s, capacity, lead, calls[0]), capacity, lead, calls[1..])
  }

  function Run(s: System, capacity: int, lead: int, calls: seq<Call>): System
    decreases |calls|
  {
    if calls == [] then s else Run(Turn(s, capacity, lead, calls[0]), capacity, lead, calls[1..])
  }

  /** The client has processed a reply, and the quota it was told is the server's. */
  predicate Synced(s: System)
  {
    && s.client.serverHeadersFound
    && s.client.remaining == s.server.quota
    && s.client.resetTime == s.server.resetAt
  }

  /** Processing one reply is enough, in whatever state the limiter was. */
  lemma TurnSyncs(s: System, capacity: int, lead: int, c: Call)
    ensures Synced(Turn(s, capacity, lead, c))
  {
  }

  /**
   A caller sleeps exactly when its request, sent at once, would leave fewer than two, and
   then until 50 ms after the reset.
   */
  lemma SleepsExactlyWhenNeeded(s: System, capacity: int, now: int, nextReset: int)
    requires capacity >= 3 && Synced(s)
    ensures Delay(s.client, now) > 0 <==> Serve(s.server, capacity, now, nextReset).quota < 2
    ensures Delay(s.client, now) > 0 ==> now + Delay(s.client, now) == s.server.resetAt + 50
  {
  }

  /** Once a reply has reported at least two, no run ever brings the server below two. */
  ghost predicate QuotaSafe(capacity: int, lead: int)
  {
    forall s: System, calls: seq<Call> ::
      Synced(s) && s.server.quota >= 2 && LegalRun(s, capacity, lead, calls)
      ==> Run(s, capacity, lead, calls).server.quota >= 2
  }

  lemma TurnKeepsTwo(s: System, capacity: int, lead: int, c: Call)
    requires capacity >= 3 && lead >= 0
    requires Synced(s) && s.server.quota >= 2 && Legal(s, lead, c)
    ensures Synced(Turn(s, capacity, lead, c)) && Turn(s, capacity, lead, c).server.quota >= 2
  {
  }

  lemma {:induction false} RunKeepsTwo(s: System, capacity: int, lead: int, calls: seq<Call>)
    requires capacity >= 3 && lead >= 0
    requires Synced(s) && s.server.quota >= 2 && LegalRun(s, capacity, lead, calls)
    ensures Run(s, capacity, lead, calls).server.quota >= 2
    decreases |calls|
  {
    if calls != [] {
      TurnKeepsTwo(s, capacity, lead, calls[0]);
      RunKeepsTwo(Turn(s, capacity, lead, calls[0]), capacity, lead, calls[1..]);
    }
  }

  /**
   The guarantee holds exactly when the server refills to at least three and its clock is
   not behind the client's: the 50 ms added to a sleep do not help a client that finds the
   reset time already past and does not sleep.
   */
  lemma SafeExactlyWhen(capacity: int, lead: int)
    ensures QuotaSafe(capacity, lead) <==> capacity >= 3 && lead >= 0
  {
    if capacity >= 3 && lead >= 0 {
      forall s: System, calls: seq<Call> |
        Synced(s) && s.server.quota >= 2 && LegalRun(s, capacity, lead, calls)
        ensures Run(s, capacity, lead, calls).server.quota >= 2
      {
        RunKeepsTwo(s, capacity, lead, calls);
      }
    } else {
      var s := System(State(2, 0, true, []), Server(2, 0), 0);
      var c := Call(0, 0, 0, if lead < 0 then 1 else lead + 1);
      OneCall(s, capacity, lead, c);
    }
  }

  /** A single call at time 0, with two left and the reset time just reached. */
  lemma OneCall(s: System, capacity: int, lead: int, c: Call)
    requires s == System(State(2, 0, true, []), Server(2, 0), 0)
    requires c == Call(0, 0, 0, if lead < 0 then 1 else lead + 1)
    requires capacity < 3 || lead < 0
    ensures !QuotaSafe(capacity, lead)
  {
    assert Turn(s, capacity, lead, c).server.quota < 2;
    assert [c][1..] == [];
    assert LegalRun(s, capacity, lead, [c]);
    assert Run(s, capacity, lead, [c]).server.quota < 2;
  }
}
