/**
 The client's rate limiter: a sliding window over the times of its recent requests until
 the server has reported a quota, the reported quota from then on. All callers share one
 limiter, whose lock is held while a caller sleeps, so calls never overlap.
 */
module RateLimiting {

  const LOCAL_LIMIT: nat := 10
  const WINDOW_MS: int := 1000

  /** A rate-limit header of a reply. A number that does not parse or does not fit is malformed. */
  datatype Header = Absent | Malformed | Number(value: int)

  datatype State = State(remaining: int, resetTime: int, serverHeadersFound: bool, requestTimes: seq<int>)

  const INITIAL := State(50, 0, false, [])

  // ---------------------------------------------------------------- one call, as functions

  /** Expired entries leave from the front, until one is found that has not expired. */
  function Prune(times: seq<int>, now: int): (kept: seq<int>)
    ensures |kept| <= |times| && kept == times[|times| - |kept|..]
    ensures kept != [] ==> now - kept[0] <= WINDOW_MS
    ensures forall i :: 0 <= i < |times| - |kept| ==> now - times[i] > WINDOW_MS
  {
    if times != [] && now - times[0] > WINDOW_MS then Prune(times[1..], now) else times
  }

  /** How long a caller sleeps in local mode. */
  function LocalDelay(times: seq<int>, now: int): nat
  {
    var kept := Prune(times, now);
    if |kept| >= LOCAL_LIMIT && kept[0] + WINDOW_MS - now + 10 > 0 then kept[0] + WINDOW_MS - now + 10 else 0
  }

  /** The deque after a local call: the time recorded is the one read before sleeping. */
  function LocalTimes(times: seq<int>, now: int, woken: int): seq<int>
  {
    var kept := Prune(times, now);
    (if LocalDelay(times, now) > 0 then Prune(kept, woken) else kept) + [now]
  }

  /** How long a caller sleeps once the server reports a quota. */
  function ServerDelay(s: State, now: int): nat
  {
    if s.remaining <= 2 && s.resetTime > now then s.resetTime - now + 50 else 0
  }

  function Delay(s: State, now: int): nat
  {
    if s.serverHeadersFound then ServerDelay(s, now) else LocalDelay(s.requestTimes, now)
  }

  function AfterWait(s: State, now: int, woken: int): State
  {
    if s.serverHeadersFound then s else s.(requestTimes := LocalTimes(s.requestTimes, now, woken))
  }

  /** Both headers must be there; the first is stored before the second is parsed. */
  function AfterUpdate(s: State, status: Header, reset: Header): State
  {
    if status.Absent? || reset.Absent? || status.Malformed? then s
    else if reset.Malformed? then s.(remaining := status.value)
    else s.(remaining := status.value, resetTime := reset.value, serverHeadersFound := true)
  }

  // ---------------------------------------------------------------- the objects

  /** A clock that never runs backwards, and sleeps that last at least as long as asked. */
  class Clock {
    var time: int

    constructor (start: int)
      ensures time == start
    {
      time := start;
    }

    method Now() returns (t: int)
      modifies this
      ensures old(time) <= t == time
    {
      var elapsed :| elapsed >= 0;
      time := time + elapsed;
      t := time;
    }

    method Sleep(ms: nat)
      modifies this
      ensures time >= old(time) + ms
    {
      var late :| late >= 0;
      time := time + ms + late;
    }
  }

  class RateLimiter {
    var remaining: int
    var resetTime: int
    var serverHeadersFound: bool
    var requestTimes: seq<int>

    function Value(): State
      reads this
    {
      State(remaining, resetTime, serverHeadersFound, requestTimes)
    }

    constructor ()
      ensures Value() == INITIAL
    {
      remaining, resetTime, serverHeadersFound, requestTimes := 50, 0, false, [];
    }

    method Update(status: Header, reset: Header)
      modifies this
      ensures Value() == AfterUpdate(old(Value()), status, reset)
    {
      if !status.Absent? && !reset.Absent? {
        if status.Malformed? {
          return;
        }
        remaining := status.value;
        if reset.Malformed? {
          return;
        }
        resetTime := reset.value;
        serverHeadersFound := true;
      }
    }

    method PopExpired(now: int)
      modifies this
      ensures Value() == old(Value()).(requestTimes := Prune(old(requestTimes), now))
    {
      while requestTimes != [] && now - requestTimes[0] > WINDOW_MS
        invariant Prune(requestTimes, now) == Prune(old(requestTimes), now)
        invariant Value() == old(Value()).(requestTimes := requestTimes)
        decreases |requestTimes|
      {
        requestTimes := requestTimes[1..];
      }
    }

    /**
     One call: `now` is the time it reads first, `asked` is how long it asks the clock to sleep,
     and `woken` is the time at which it is through.
     */
    method Wait(clock: Clock) returns (ghost now: int, ghost asked: nat, ghost woken: int)
      modifies this, clock
      ensures old(clock.time) <= now
      ensures asked == Delay(old(Value()), now) && now + asked <= woken <= clock.time
      ensures Value() == AfterWait(old(Value()), now, woken)
    {
      var t := clock.Now();
      now, asked, woken := t, 0, t;
      if serverHeadersFound {
        if remaining <= 2 {
          if resetTime > t {
            var waitTime := resetTime - t + 50;
            clock.Sleep(waitTime);
            asked := waitTime;
            woken := clock.time;
          }
        }
      } else {
        PopExpired(t);
        if |requestTimes| >= LOCAL_LIMIT {
          var waitTime := requestTimes[0] + WINDOW_MS - t + 10;
          if waitTime > 0 {
            clock.Sleep(waitTime);
            asked := waitTime;
            var nowAfterWait := clock.Now();
            woken := nowAfterWait;
            PopExpired(nowAfterWait);
          }
        }
        requestTimes := requestTimes + [t];
      }
    }
  }

  // ---------------------------------------------------------------- runs

  /**
   Any interleaving of callers is a sequence of calls, since the lock is held throughout.
   A call reads `now`, is through with waiting at `woken`, and releases the lock at `granted`.
   */
  datatype Event = Wait(now: int, woken: int, granted: int) | Update(status: Header, reset: Header)

  function Step(s: State, e: Event): State
  {
    match e
    case Wait(now, woken, _) => AfterWait(s, now, woken)
    case Update(status, reset) => AfterUpdate(s, status, reset)
  }

  /** The limiter after some events. */
  function After(events: seq<Event>): State
  {
    if events == [] then INITIAL else Step(After(events[..|events| - 1]), events[|events| - 1])
  }

  /** The times pushed to the deque, by every call so far. */
  function Recorded(events: seq<Event>): seq<int>
  {
    if events == [] then []
    else
      var e := events[|events| - 1];
      Recorded(events[..|events| - 1]) + if e.Wait? then [e.now] else []
  }

  /** The times at which callers were let through. */
  function Granted(events: seq<Event>): seq<int>
  {
    if events == [] then []
    else
      var e := events[|events| - 1];
      Granted(events[..|events| - 1]) + if e.Wait? then [e.granted] else []
  }

  /** The clock when the last lock was released. */
  function ClockAfter(start: int, events: seq<Event>): int
  {
    var a := Granted(events);
    if a == [] then start else a[|a| - 1]
  }

  /** A run under a clock that never runs backwards. */
  predicate IsRun(start: int, events: seq<Event>)
  {
    events != [] ==>
      var before, e := events[..|events| - 1], events[|events| - 1];
      IsRun(start, before) &&
      match e
      case Wait(now, woken, granted) =>
        ClockAfter(start, before) <= now && now + Delay(After(before), now) <= woken <= granted
      case Update(_, _) => true
  }

  predicate Local(events: seq<Event>)
  {
    !After(events).serverHeadersFound
  }

  // ---------------------------------------------------------------- the local window

  predicate Sorted(times: seq<int>)
  {
    forall i, j :: 0 <= i < j < |times| ==> times[i] <= times[j]
  }

  /** In a sorted deque, popping from the front removes the expired entries and no others. */
  lemma PruneRemovesExactlyTheExpired(times: seq<int>, now: int)
    requires Sorted(times)
    ensures var dropped := |times| - |Prune(times, now)|;
            forall i :: 0 <= i < |times| ==> (i < dropped <==> now - times[i] > WINDOW_MS)
  {
    var kept := Prune(times, now);
    var dropped := |times| - |kept|;
    forall i | dropped <= i < |times| ensures now - times[i] <= WINDOW_MS {
      assert kept[0] == times[dropped];
    }
  }

  /** The deque is the end of the record, and never longer than the limit. */
  predicate DequeIsTail(r: seq<int>, times: seq<int>)
  {
    |times| <= LOCAL_LIMIT && |times| <= |r| && times == r[|r| - |times|..]
  }

  /** Calls follow one another: recorded, granted, then the next is recorded. */
  predicate Interleaved(r: seq<int>, a: seq<int>, clock: int)
  {
    && |r| == |a|
    && (forall i :: 0 <= i < |r| ==> r[i] <= a[i] <= clock)
    && (forall i, j :: 0 <= i < j < |r| ==> a[i] <= r[j])
  }

  /** Whatever has left the deque has expired. */
  predicate DroppedExpired(r: seq<int>, times: seq<int>, clock: int)
  {
    forall i :: 0 <= i < |r| - |times| ==> clock - r[i] > WINDOW_MS
  }

  /** A grant comes more than a window after the time recorded ten calls before. */
  predicate Spread(r: seq<int>, a: seq<int>)
  {
    forall j :: LOCAL_LIMIT <= j < |r| && j < |a| ==> a[j] - r[j - LOCAL_LIMIT] > WINDOW_MS
  }

  /** What every local call keeps, of the recorded times, the grants, the deque and the clock. */
  predicate WindowKept(r: seq<int>, a: seq<int>, times: seq<int>, clock: int)
  {
    DequeIsTail(r, times) && Interleaved(r, a, clock) && DroppedExpired(r, times, clock) && Spread(r, a)
  }

  /** A full window asks for a sleep of 10 to 1010 ms, any other for none. */
  lemma FullDelay(times: seq<int>, now: int)
    requires |times| <= LOCAL_LIMIT
    requires times != [] ==> times[0] <= now
    ensures var kept := Prune(times, now);
            if |kept| >= LOCAL_LIMIT
            then LocalDelay(times, now) == kept[0] + WINDOW_MS - now + 10 && 10 <= LocalDelay(times, now) <= 1010
            else LocalDelay(times, now) == 0
  {
    hide Prune;
    var kept := Prune(times, now);
    if |kept| >= LOCAL_LIMIT {
      assert kept == times;
    }
  }

  /** Pruning at a time when the front has expired frees a slot. */
  lemma FrontLeaves(kept: seq<int>, woken: int)
    requires 0 < |kept| <= LOCAL_LIMIT && woken - kept[0] > WINDOW_MS
    ensures |Prune(kept, woken)| < LOCAL_LIMIT
  {
    hide Prune;
    var live := Prune(kept, woken);
    assert |live| == |kept| ==> live == kept;
  }

  lemma FullWindowSleeps(times: seq<int>, now: int, woken: int)
    requires |times| <= LOCAL_LIMIT
    requires times != [] ==> times[0] <= now
    requires woken >= now + LocalDelay(times, now)
    ensures |Prune(times, now)| < LOCAL_LIMIT ==> LocalDelay(times, now) == 0
    ensures |Prune(times, now)| >= LOCAL_LIMIT ==>
              10 <= LocalDelay(times, now) <= 1010 && now + LocalDelay(times, now) == Prune(times, now)[0] + 1010
    ensures |Prune(times, now)| >= LOCAL_LIMIT ==> |Prune(Prune(times, now), woken)| < LOCAL_LIMIT
  {
    hide Prune, LocalDelay;
    var kept := Prune(times, now);
    FullDelay(times, now);
    if |kept| >= LOCAL_LIMIT {
      FrontLeaves(kept, woken);
    }
  }

  /** The deque after a call, before the new time is pushed. */
  function Live(times: seq<int>, now: int, woken: int): seq<int>
  {
    var kept := Prune(times, now);
    if LocalDelay(times, now) > 0 then Prune(kept, woken) else kept
  }

  lemma LiveIsTail(times: seq<int>, now: int, woken: int)
    ensures var live := Live(times, now, woken);
            && |live| <= |times| && live == times[|times| - |live|..]
            && LocalTimes(times, now, woken) == live + [now]
            && forall i :: 0 <= i < |times| - |live| ==> now - times[i] > WINDOW_MS || woken - times[i] > WINDOW_MS
  {
    hide LocalDelay, Prune;
    var kept := Prune(times, now);
    if LocalDelay(times, now) > 0 {
      PruneTwice(times, kept, Prune(kept, woken), now, woken);
    }
  }

  lemma PruneTwice(times: seq<int>, kept: seq<int>, live: seq<int>, now: int, woken: int)
    requires |kept| <= |times| && kept == times[|times| - |kept|..]
    requires |live| <= |kept| && live == kept[|kept| - |live|..]
    requires forall i :: 0 <= i < |times| - |kept| ==> now - times[i] > WINDOW_MS
    requires forall i :: 0 <= i < |kept| - |live| ==> woken - kept[i] > WINDOW_MS
    ensures live == times[|times| - |live|..]
    ensures forall i :: 0 <= i < |times| - |live| ==> now - times[i] > WINDOW_MS || woken - times[i] > WINDOW_MS
  {
  }

  lemma DequeStep(r: seq<int>, times: seq<int>, live: seq<int>, now: int)
    requires DequeIsTail(r, times) && |live| <= |times| && live == times[|times| - |live|..]
    requires |live| < LOCAL_LIMIT
    ensures DequeIsTail(r + [now], live + [now])
  {
  }

  lemma InterleavedStep(r: seq<int>, a: seq<int>, clock: int, now: int, granted: int)
    requires Interleaved(r, a, clock) && clock <= now <= granted
    ensures Interleaved(r + [now], a + [granted], granted)
  {
  }

  lemma DroppedStep(r: seq<int>, times: seq<int>, live: seq<int>, clock: int, now: int, woken: int, granted: int)
    requires DequeIsTail(r, times) && DroppedExpired(r, times, clock) && |live| <= |times|
    requires clock <= now <= woken <= granted
    requires forall i :: 0 <= i < |times| - |live| ==> now - times[i] > WINDOW_MS || woken - times[i] > WINDOW_MS
    ensures DroppedExpired(r + [now], live + [now], granted)
  {
  }

  lemma SpreadStep(r: seq<int>, a: seq<int>, live: seq<int>, now: int, granted: int)
    requires |r| == |a| && Spread(r, a) && |live| < LOCAL_LIMIT && |live| <= |r|
    requires DroppedExpired(r + [now], live + [now], granted)
    ensures Spread(r + [now], a + [granted])
  {
  }

  lemma WaitKeepsWindow(r: seq<int>, a: seq<int>, times: seq<int>, clock: int, now: int, woken: int, granted: int)
    requires WindowKept(r, a, times, clock)
    requires clock <= now && now + LocalDelay(times, now) <= woken <= granted
    ensures WindowKept(r + [now], a + [granted], LocalTimes(times, now, woken), granted)
  {
    hide DequeIsTail, Interleaved, DroppedExpired, Spread, LocalDelay, Live, LocalTimes;
    var live := Live(times, now, woken);
    TailFacts(r, a, times, clock);
    LiveIsTail(times, now, woken);
    SlotFreed(times, now, woken);
    DequeStep(r, times, live, now);
    InterleavedStep(r, a, clock, now, granted);
    DroppedStep(r, times, live, clock, now, woken, granted);
    SpreadStep(r, a, live, now, granted);
  }

  lemma SlotFreed(times: seq<int>, now: int, woken: int)
    requires |times| <= LOCAL_LIMIT
    requires forall i :: 0 <= i < |times| ==> times[i] <= now
    requires woken >= now + LocalDelay(times, now)
    ensures |Live(times, now, woken)| < LOCAL_LIMIT
  {
    hide Prune, LocalDelay;
    FullWindowSleeps(times, now, woken);
  }

  lemma TailFacts(r: seq<int>, a: seq<int>, times: seq<int>, clock: int)
    requires DequeIsTail(r, times) && Interleaved(r, a, clock)
    ensures Sorted(times) && |times| <= LOCAL_LIMIT && |times| <= |r| && |r| == |a|
    ensures forall i :: 0 <= i < |times| ==> times[i] <= clock
  {
    var d := |r| - |times|;
    forall i, j | 0 <= i < j < |times| ensures times[i] <= times[j] {
      assert times[i] == r[d + i] && times[j] == r[d + j];
      assert r[d + i] <= a[d + i] <= r[d + j];
    }
    forall i | 0 <= i < |times| ensures times[i] <= clock {
      assert times[i] == r[d + i];
    }
  }

  /** One more event, seen by every function of a run. */
  lemma Unfold(start: int, events: seq<Event>)
    requires events != []
    ensures var before, e := events[..|events| - 1], events[|events| - 1];
            && After(events) == Step(After(before), e)
            && Recorded(events) == Recorded(before) + (if e.Wait? then [e.now] else [])
            && Granted(events) == Granted(before) + (if e.Wait? then [e.granted] else [])
            && ClockAfter(start, events) == (if e.Wait? then e.granted else ClockAfter(start, before))
            && (IsRun(start, events) ==> IsRun(start, before))
            && (IsRun(start, events) && e.Wait? ==>
                  ClockAfter(start, before) <= e.now && e.now + Delay(After(before), e.now) <= e.woken <= e.granted)
  {
    hide AfterUpdate, AfterWait, Delay;
  }

  lemma ModeStep(s: State, e: Event)
    requires !Step(s, e).serverHeadersFound
    ensures !s.serverHeadersFound
    ensures e.Update? ==> Step(s, e).requestTimes == s.requestTimes
    ensures e.Wait? ==> Step(s, e).requestTimes == LocalTimes(s.requestTimes, e.now, e.woken)
    ensures e.Wait? ==> Delay(s, e.now) == LocalDelay(s.requestTimes, e.now)
  {
    hide LocalTimes, LocalDelay;
  }

  lemma WindowAtStart(start: int)
    ensures WindowKept(Recorded([]), Granted([]), After([]).requestTimes, ClockAfter(start, []))
  {
  }

  /** One more event of a run in local mode keeps the invariant. */
  lemma WindowStep(start: int, before: seq<Event>, events: seq<Event>)
    requires events != [] && before == events[..|events| - 1] && IsRun(start, events) && Local(events)
    requires WindowKept(Recorded(before), Granted(before), After(before).requestTimes, ClockAfter(start, before))
    ensures WindowKept(Recorded(events), Granted(events), After(events).requestTimes, ClockAfter(start, events))
  {
    hide IsRun, Recorded, Granted, After, WindowKept, Step, Delay, ClockAfter, LocalDelay, LocalTimes;
    var e := events[|events| - 1];
    Unfold(start, events);
    ModeStep(After(before), e);
    if e.Wait? {
      WaitKeepsWindow(Recorded(before), Granted(before), After(before).requestTimes, ClockAfter(start, before),
                      e.now, e.woken, e.granted);
    } else {
      assert Recorded(before) + [] == Recorded(before) && Granted(before) + [] == Granted(before);
    }
  }

  /** A run in local mode was in local mode before its last event. */
  lemma LocalBefore(start: int, events: seq<Event>)
    requires events != [] && IsRun(start, events) && Local(events)
    ensures IsRun(start, events[..|events| - 1]) && Local(events[..|events| - 1])
  {
    hide IsRun, Recorded, Granted, After, Step, Delay, ClockAfter;
    Unfold(start, events);
    ModeStep(After(events[..|events| - 1]), events[|events| - 1]);
  }

  /** The invariant holds in every run that is still in local mode, whatever the callers do. */
  lemma {:induction false} WindowHolds(start: int, events: seq<Event>)
    requires IsRun(start, events) && Local(events)
    ensures WindowKept(Recorded(events), Granted(events), After(events).requestTimes, ClockAfter(start, events))
  {
    hide IsRun, Local, Recorded, Granted, After, WindowKept, ClockAfter;
    if events == [] {
      WindowAtStart(start);
    } else {
      var before := events[..|events| - 1];
      LocalBefore(start, events);
      WindowHolds(start, before);
      WindowStep(start, before, events);
    }
  }

  /**
   A grant comes more than a window after the recorded time ten calls before it, hence more
   than a window after the grant eleven calls before it.
   */
  lemma GrantsAreSpread(start: int, events: seq<Event>, i: nat)
    requires IsRun(start, events) && Local(events) && i < |Granted(events)|
    ensures |Recorded(events)| == |Granted(events)|
    ensures i >= LOCAL_LIMIT ==> Granted(events)[i] - Recorded(events)[i - LOCAL_LIMIT] > WINDOW_MS
    ensures i > LOCAL_LIMIT ==> Granted(events)[i] - Granted(events)[i - LOCAL_LIMIT - 1] > WINDOW_MS
  {
    hide Recorded, Granted, After, IsRun;
    WindowHolds(start, events);
    var r, a := Recorded(events), Granted(events);
    if i > LOCAL_LIMIT {
      assert a[i - LOCAL_LIMIT - 1] <= r[i - LOCAL_LIMIT];
    }
  }

  /** In either mode callers are let through in the order of their calls, the last one now. */
  lemma {:induction false} GrantsAscend(start: int, events: seq<Event>)
    requires IsRun(start, events)
    ensures forall i, j :: 0 <= i <= j < |Granted(events)| ==> Granted(events)[i] <= Granted(events)[j]
  {
    if events != [] {
      hide IsRun, Recorded, Granted, After, Delay, Step;
      Unfold(start, events);
      GrantsAscend(start, events[..|events| - 1]);
    }
  }

  /** Once the server has been heard, the limiter never goes back to the local window. */
  lemma ServerModeIsForever(events: seq<Event>, n: nat)
    requires n <= |events| && !Local(events[..n])
    ensures !Local(events)
    decreases |events|
  {
    if n < |events| {
      hide After, Recorded, Granted;
      assert events[..|events| - 1][..n] == events[..n];
      ServerModeIsForever(events[..|events| - 1], n);
      Unfold(0, events);
    } else {
      assert events[..n] == events;
    }
  }
}
