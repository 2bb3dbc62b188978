/**
 How many callers the local window lets through: never more than eleven in a second, ten
 if no call is held up, and exactly when a call makes eleven possible.
 */
module RateBounds {
  import opened RateLimiting

  // ---------------------------------------------------------------- counting

  /** How many grants fall into the window [t, t + 1000], both ends included. */
  function GrantsIn(a: seq<int>, t: int): nat
  {
    if a == [] then 0
    else GrantsIn(a[..|a| - 1], t) + (if t <= a[|a| - 1] <= t + WINDOW_MS then 1 else 0)
  }

  lemma {:induction false} GrantsInConcat(a: seq<int>, b: seq<int>, t: int)
    ensures GrantsIn(a + b, t) == GrantsIn(a, t) + GrantsIn(b, t)
  {
    if b == [] {
      assert a + b == a;
    } else {
      assert (a + b)[..|a + b| - 1] == a + b[..|b| - 1];
      GrantsInConcat(a, b[..|b| - 1], t);
    }
  }

  lemma {:induction false} NoGrantsIn(a: seq<int>, t: int)
    requires forall i :: 0 <= i < |a| ==> a[i] < t || a[i] > t + WINDOW_MS
    ensures GrantsIn(a, t) == 0
  {
    if a != [] {
      NoGrantsIn(a[..|a| - 1], t);
    }
  }

  lemma {:induction false} FewGrantsIn(a: seq<int>, t: int)
    ensures GrantsIn(a, t) <= |a|
  {
    if a != [] {
      FewGrantsIn(a[..|a| - 1], t);
    }
  }

  /** Grants in order, each more than a window after the one `n` before it. */
  ghost predicate Apart(a: seq<int>, n: nat)
  {
    && (forall i, j :: 0 <= i < j < |a| ==> a[i] <= a[j])
    && (forall i :: n <= i < |a| ==> a[i] - a[i - n] > WINDOW_MS)
  }

  /** When the newest grant is in the window, only the n - 1 before it can be in it too. */
  lemma NewestInside(a: seq<int>, n: nat, t: int)
    requires |a| > 0 && n > 0 && Apart(a, n) && t <= a[|a| - 1] <= t + WINDOW_MS
    ensures GrantsIn(a, t) <= n
  {
    hide GrantsIn;
    if |a| > n {
      var k := |a| - n;
      assert a == a[..k] + a[k..];
      GrantsInConcat(a[..k], a[k..], t);
      NoGrantsIn(a[..k], t);
      FewGrantsIn(a[k..], t);
    } else {
      FewGrantsIn(a, t);
    }
  }

  /** Grants more than a window after the one n before them: a window holds n at most. */
  lemma {:induction false} ApartBoundsWindow(a: seq<int>, n: nat, t: int)
    requires n > 0 && Apart(a, n)
    ensures GrantsIn(a, t) <= n
  {
    if a != [] {
      if t <= a[|a| - 1] <= t + WINDOW_MS {
        NewestInside(a, n, t);
      } else {
        ApartBoundsWindow(a[..|a| - 1], n, t);
      }
    }
  }

  /** No window of 1000 ms, both ends included, holds more than eleven grants. */
  lemma AtMostElevenPerWindow(start: int, events: seq<Event>, t: int)
    requires IsRun(start, events) && Local(events)
    ensures GrantsIn(Granted(events), t) <= LOCAL_LIMIT + 1
  {
    hide Granted, Recorded, IsRun, Local, GrantsIn;
    var a, n := Granted(events), LOCAL_LIMIT + 1;
    GrantsAscend(start, events);
    forall i | n <= i < |a| ensures a[i] - a[i - n] > WINDOW_MS {
      GrantsAreSpread(start, events, i);
    }
    ApartBoundsWindow(a, n, t);
  }

  /** Ten, as intended, when every call is let through at the time it records. */
  lemma AtMostTenWithoutDelay(start: int, events: seq<Event>, t: int)
    requires IsRun(start, events) && Local(events) && Granted(events) == Recorded(events)
    ensures GrantsIn(Granted(events), t) <= LOCAL_LIMIT
  {
    hide Granted, Recorded, IsRun, Local, GrantsIn;
    var a := Granted(events);
    GrantsAscend(start, events);
    forall i | LOCAL_LIMIT <= i < |a| ensures a[i] - a[i - LOCAL_LIMIT] > WINDOW_MS {
      GrantsAreSpread(start, events, i);
    }
    ApartBoundsWindow(a, LOCAL_LIMIT, t);
  }

  // ---------------------------------------------------------------- the bound is tight

  /** n calls that are let through at once, at time t. */
  function Burst(t: int, n: nat): seq<Event>
  {
    if n == 0 then [] else Burst(t, n - 1) + [Wait(t, t, t)]
  }

  function Times(t: int, n: nat): seq<int>
  {
    if n == 0 then [] else Times(t, n - 1) + [t]
  }

  lemma {:induction false} TimesAt(t: int, n: nat)
    ensures |Times(t, n)| == n && forall i :: 0 <= i < n ==> Times(t, n)[i] == t
  {
    if n > 0 {
      TimesAt(t, n - 1);
    }
  }

  /** One more event at the end of a run. */
  lemma Extend(start: int, events: seq<Event>, e: Event)
    requires IsRun(start, events) && e.Wait?
    requires ClockAfter(start, events) <= e.now && e.now + Delay(After(events), e.now) <= e.woken <= e.granted
    ensures IsRun(start, events + [e])
    ensures After(events + [e]) == Step(After(events), e)
    ensures Granted(events + [e]) == Granted(events) + [e.granted]
    ensures ClockAfter(start, events + [e]) == e.granted
  {
    hide AfterWait, AfterUpdate, Delay, LocalTimes, Recorded;
    var all := events + [e];
    assert all[..|all| - 1] == events;
  }

  /** A run in local mode whose live deque and grants are known. */
  ghost predicate Standing(start: int, events: seq<Event>, t: int, live: seq<int>, grants: seq<int>)
  {
    && IsRun(start, events) && Local(events) && ClockAfter(start, events) <= t
    && Prune(After(events).requestTimes, t) == live
    && Granted(events) == grants
  }

  lemma BurstUnfold(events: seq<Event>, t: int, n: nat)
    requires n > 0
    ensures events + Burst(t, n) == (events + Burst(t, n - 1)) + [Wait(t, t, t)]
  {
  }

  lemma TimesUnfold(grants: seq<int>, t: int, n: nat)
    requires n > 0
    ensures grants + Times(t, n) == (grants + Times(t, n - 1)) + [t]
  {
  }

  /** A burst is let through at once when no entry is live before it. */
  lemma {:induction false} BurstRuns(start: int, events: seq<Event>, t: int, n: nat, grants: seq<int>)
    requires Standing(start, events, t, [], grants) && n <= LOCAL_LIMIT
    ensures Standing(start, events + Burst(t, n), t, Times(t, n), grants + Times(t, n))
  {
    hide IsRun, Granted, After, Prune, Standing, Recorded;
    if n == 0 {
      assert events + Burst(t, 0) == events;
      assert grants + Times(t, 0) == grants;
    } else {
      hide Burst, Times;
      BurstRuns(start, events, t, n - 1, grants);
      BurstUnfold(events, t, n);
      TimesUnfold(grants, t, n);
      OneOfBurst(start, events + Burst(t, n - 1), t, n, grants + Times(t, n - 1));
    }
  }

  lemma OneOfBurst(start: int, before: seq<Event>, t: int, n: nat, grants: seq<int>)
    requires 0 < n <= LOCAL_LIMIT && Standing(start, before, t, Times(t, n - 1), grants)
    ensures Standing(start, before + [Wait(t, t, t)], t, Times(t, n), grants + [t])
  {
    hide IsRun, Granted, Recorded, After, Delay, Prune, Step;
    TimesAt(t, n - 1);
    NoDelay(After(before), t);
    Extend(start, before, Wait(t, t, t));
    BurstStep(After(before), t, n);
  }

  lemma NoDelay(s: State, t: int)
    requires !s.serverHeadersFound && |Prune(s.requestTimes, t)| < LOCAL_LIMIT
    ensures Delay(s, t) == 0 && LocalDelay(s.requestTimes, t) == 0
  {
  }

  lemma BurstStep(s: State, t: int, n: nat)
    requires !s.serverHeadersFound && 0 < n <= LOCAL_LIMIT && Prune(s.requestTimes, t) == Times(t, n - 1)
    ensures Prune(Step(s, Wait(t, t, t)).requestTimes, t) == Times(t, n)
    ensures !Step(s, Wait(t, t, t)).serverHeadersFound
  {
  }

  /** Ten calls at time 0, one that has to sleep, and ten more when it wakes. */
  function ElevenAtOnce(): seq<Event>
  {
    Burst(0, 10) + [Wait(0, 1010, 1010)] + Burst(1010, 10)
  }

  /**
   Eleven is reached, and within a single instant: the call that slept recorded the time
   before its sleep, so it does not count against the calls that follow it.
   */
  lemma ElevenIsReached()
    ensures IsRun(0, ElevenAtOnce()) && Local(ElevenAtOnce())
    ensures GrantsIn(Granted(ElevenAtOnce()), 1010) == LOCAL_LIMIT + 1
  {
    hide IsRun, Granted, Recorded, After, Burst, Times, GrantsIn, Standing, Local;
    var ten, e := Burst(0, 10), Wait(0, 1010, 1010);
    assert [] + ten == ten && [] + Times(0, 10) == Times(0, 10);
    EmptyRun();
    BurstRuns(0, [], 0, 10, []);
    SleepingCall(ten, Times(0, 10));
    BurstRuns(0, ten + [e], 1010, 10, Times(0, 10) + [1010]);
    StandingIsRun(0, ElevenAtOnce(), 1010, Times(1010, 10), Times(0, 10) + [1010] + Times(1010, 10));
    ElevenGrants(Granted(ElevenAtOnce()));
  }

  lemma StandingIsRun(start: int, events: seq<Event>, t: int, live: seq<int>, grants: seq<int>)
    requires Standing(start, events, t, live, grants)
    ensures IsRun(start, events) && Local(events) && Granted(events) == grants
  {
  }

  lemma EmptyRun()
    ensures Standing(0, [], 0, [], [])
  {
  }

  lemma SleepingCall(ten: seq<Event>, grants: seq<int>)
    requires Standing(0, ten, 0, Times(0, 10), grants)
    ensures Standing(0, ten + [Wait(0, 1010, 1010)], 1010, [], grants + [1010])
  {
    hide IsRun, Granted, Recorded, After, Step, Delay, Prune;
    SleepingStep(After(ten));
    Extend(0, ten, Wait(0, 1010, 1010));
  }

  lemma SleepingStep(s: State)
    requires !s.serverHeadersFound && Prune(s.requestTimes, 0) == Times(0, 10)
    ensures Delay(s, 0) == 1010
    ensures Prune(Step(s, Wait(0, 1010, 1010)).requestTimes, 1010) == []
    ensures !Step(s, Wait(0, 1010, 1010)).serverHeadersFound
  {
    TimesAt(0, 10);
    PruneAll(Times(0, 10), 1010);
  }

  lemma {:induction false} PruneAll(times: seq<int>, t: int)
    requires forall i :: 0 <= i < |times| ==> t - times[i] > WINDOW_MS
    ensures Prune(times, t) == []
  {
  }

  lemma ElevenGrants(a: seq<int>)
    requires a == Times(0, 10) + [1010] + Times(1010, 10)
    ensures GrantsIn(a, 1010) == LOCAL_LIMIT + 1
  {
    hide Times;
    TimesAt(0, 10);
    NoGrantsIn(Times(0, 10), 1010);
    AllGrantsIn(1010, 10);
    GrantsInConcat(Times(0, 10) + [1010], Times(1010, 10), 1010);
    GrantsInConcat(Times(0, 10), [1010], 1010);
  }

  lemma {:induction false} AllGrantsIn(t: int, n: nat)
    ensures GrantsIn(Times(t, n), t) == n
  {
    if n > 0 {
      AllGrantsIn(t, n - 1);
      assert Times(t, n)[..|Times(t, n)| - 1] == Times(t, n - 1);
    }
  }

  // ---------------------------------------------------------------- which calls make eleven possible

  /** A longer local run in which the last caller and ten more are let through within a window. */
  ghost predicate ElevenFrom(start: int, events: seq<Event>, more: seq<Event>)
  {
    && IsRun(start, events + more) && Local(events + more)
    && |Granted(events + more)| == |Granted(events)| + LOCAL_LIMIT
    && |Granted(events)| > 0
    && Granted(events + more)[|Granted(events + more)| - 1] <= Granted(events)[|Granted(events)| - 1] + WINDOW_MS
  }

  /** A longer run has recorded and granted what the shorter one had. */
  lemma {:induction false} RunGrows(events: seq<Event>, more: seq<Event>)
    ensures Granted(events) <= Granted(events + more) && Recorded(events) <= Recorded(events + more)
  {
    if more == [] {
      assert events + more == events;
    } else {
      hide Granted, Recorded, IsRun, After;
      var all := events + more;
      assert all[..|all| - 1] == events + more[..|more| - 1];
      RunGrows(events, more[..|more| - 1]);
      Unfold(0, all);
    }
  }

  lemma LastCall(start: int, events: seq<Event>)
    requires events != [] && events[|events| - 1].Wait?
    ensures var e, r, a := events[|events| - 1], Recorded(events), Granted(events);
            && r != [] && r[|r| - 1] == e.now && a != [] && a[|a| - 1] == e.granted == ClockAfter(start, events)
  {
    hide IsRun, After;
    Unfold(start, events);
  }

  lemma ElevenNeedsDelay(start: int, events: seq<Event>, more: seq<Event>)
    requires events != [] && events[|events| - 1].Wait? && IsRun(start, events) && Local(events)
    requires ElevenFrom(start, events, more)
    ensures events[|events| - 1].granted > events[|events| - 1].now
  {
    hide Granted, Recorded, IsRun, Local;
    LastCall(start, events);
    RunGrows(events, more);
    var a, k := Granted(events + more), |Granted(events)| - 1;
    GrantsAreSpread(start, events, k);
    GrantsAreSpread(start, events + more, k + LOCAL_LIMIT);
    assert a[k] == Granted(events)[k] && Recorded(events + more)[k] == Recorded(events)[k];
  }

  /** Once the time recorded has expired, and with it all others, ten calls are let through at once. */
  lemma DelayAllowsEleven(start: int, events: seq<Event>) returns (more: seq<Event>)
    requires events != [] && events[|events| - 1].Wait? && IsRun(start, events) && Local(events)
    requires events[|events| - 1].granted > events[|events| - 1].now
    ensures ElevenFrom(start, events, more)
  {
    hide Granted, Recorded, IsRun, Local, After, ClockAfter, Burst, Times, Prune;
    var e := events[|events| - 1];
    var t := if e.granted > e.now + WINDOW_MS then e.granted else e.now + WINDOW_MS + 1;
    LastCall(start, events);
    EmptyAt(start, events, t);
    more := Burst(t, LOCAL_LIMIT);
    BurstRuns(start, events, t, LOCAL_LIMIT, Granted(events));
    TimesAt(t, LOCAL_LIMIT);
  }

  lemma EmptyAt(start: int, events: seq<Event>, t: int)
    requires events != [] && events[|events| - 1].Wait? && IsRun(start, events) && Local(events)
    requires t > events[|events| - 1].now + WINDOW_MS && t >= ClockAfter(start, events)
    ensures Standing(start, events, t, [], Granted(events))
  {
    hide Granted, Recorded, IsRun, After, ClockAfter, Prune;
    LastCall(start, events);
    WindowHolds(start, events);
    var r, times := Recorded(events), After(events).requestTimes;
    forall i | 0 <= i < |times| ensures t - times[i] > WINDOW_MS {
      assert times[i] == r[|r| - |times| + i];
      RecordAscends(r, Granted(events), times, ClockAfter(start, events), |r| - |times| + i);
    }
    PruneAll(times, t);
  }

  lemma RecordAscends(r: seq<int>, a: seq<int>, times: seq<int>, clock: int, i: nat)
    requires WindowKept(r, a, times, clock) && i < |r|
    ensures r[i] <= r[|r| - 1]
  {
    hide DroppedExpired, Spread, DequeIsTail;
    if i < |r| - 1 {
      assert r[i] <= a[i] <= r[|r| - 1];
    }
  }

  /**
   The intended limit of ten fails after exactly those calls that were let through later
   than the time they recorded: then, and only then, can ten more callers follow a call
   within the same window.
   */
  lemma ElevenExactlyWhenDelayed(start: int, events: seq<Event>)
    requires events != [] && events[|events| - 1].Wait? && IsRun(start, events) && Local(events)
    ensures (exists more :: ElevenFrom(start, events, more)) <==>
            events[|events| - 1].granted > events[|events| - 1].now
  {
    hide ElevenFrom, IsRun, Local;
    if more :| ElevenFrom(start, events, more) {
      ElevenNeedsDelay(start, events, more);
    }
    if events[|events| - 1].granted > events[|events| - 1].now {
      var more := DelayAllowsEleven(start, events);
    }
  }
}
