/** What the limiter knows of the server, over any run: what the replies have reported, and nothing else. */
module RateReplies {
  import opened RateLimiting

  /** A reply with both headers, of which the first reads: it reports what remains. */
  predicate ReportsRemaining(e: Event)
  {
    e.Update? && e.status.Number? && !e.reset.Absent?
  }

  /** A reply with both headers, both well formed: it reports the reset time too. */
  predicate ReportsReset(e: Event)
  {
    e.Update? && e.status.Number? && e.reset.Number?
  }

  /** A reply that lacks one of the headers changes nothing. */
  lemma MissingHeaderChangesNothing(s: State, status: Header, reset: Header)
    requires status.Absent? || reset.Absent?
    ensures AfterUpdate(s, status, reset) == s
  {
  }

  /** Waiting changes nothing but the window, and in server mode not even that. */
  lemma WaitChangesOnlyTheWindow(s: State, now: int, woken: int)
    ensures var next := AfterWait(s, now, woken);
            && next.remaining == s.remaining && next.resetTime == s.resetTime
            && next.serverHeadersFound == s.serverHeadersFound
            && (s.serverHeadersFound ==> next == s)
  {
  }

  /** What the last reply that reports it says remains, or 50. */
  function LastRemaining(events: seq<Event>): int
  {
    if events == [] then 50
    else
      var e := events[|events| - 1];
      if ReportsRemaining(e) then e.status.value else LastRemaining(events[..|events| - 1])
  }

  /** The reset time of the last reply that reports it, or 0. */
  function LastReset(events: seq<Event>): int
  {
    if events == [] then 0
    else
      var e := events[|events| - 1];
      if ReportsReset(e) then e.reset.value else LastReset(events[..|events| - 1])
  }

  lemma KnownAfter(s: State, e: Event)
    ensures Step(s, e).remaining == if ReportsRemaining(e) then e.status.value else s.remaining
    ensures Step(s, e).resetTime == if ReportsReset(e) then e.reset.value else s.resetTime
  {
    hide LocalTimes;
  }

  /** Over every run the limiter knows what was reported last. */
  lemma {:induction false} KnowsWhatWasReported(events: seq<Event>)
    ensures After(events).remaining == LastRemaining(events) && After(events).resetTime == LastReset(events)
  {
    if events != [] {
      hide Step, ReportsRemaining, ReportsReset;
      var before := events[..|events| - 1];
      KnowsWhatWasReported(before);
      KnownAfter(After(before), events[|events| - 1]);
    }
  }

  /** Some reply has carried both headers, well formed. */
  ghost predicate Heard(events: seq<Event>)
  {
    exists i :: 0 <= i < |events| && ReportsReset(events[i])
  }

  lemma HeardStep(before: seq<Event>, e: Event)
    ensures Heard(before + [e]) <==> Heard(before) || ReportsReset(e)
  {
    hide ReportsReset;
    var events := before + [e];
    if i :| 0 <= i < |before| && ReportsReset(before[i]) {
      assert ReportsReset(events[i]);
    }
    assert events[|before|] == e;
  }

  lemma ModeAfter(s: State, e: Event)
    ensures Step(s, e).serverHeadersFound <==> s.serverHeadersFound || ReportsReset(e)
  {
    hide LocalTimes;
  }

  /** A run is in server mode exactly when some reply has carried both headers, well formed. */
  lemma {:induction false} ServerModeExactlyWhenReported(events: seq<Event>)
    ensures !Local(events) <==> Heard(events)
  {
    if events != [] {
      hide Heard, Step, ReportsReset;
      var before, e := events[..|events| - 1], events[|events| - 1];
      assert events == before + [e];
      ServerModeExactlyWhenReported(before);
      HeardStep(before, e);
      ModeAfter(After(before), e);
    }
  }
}
