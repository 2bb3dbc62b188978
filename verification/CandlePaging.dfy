/**
 Downloading candles page by page. The server is an assumption: its k-th request is
 answered from the k-th snapshot of a history that may grow while the download runs.
 */
module CandlePaging {
  import opened Arithmetic
  import opened Enums
  import opened Requests
  import opened TimeSeries
  import opened Wrappers

  datatype Prices = Prices(open: real, high: real, low: real, close: real, volume: real, turnover: real)

  type Candle = Record<Prices>

  /** Snapshot k is what the server knows when it answers request k. */
  datatype Schedule = Schedule(at: nat -> seq<Candle>)

  // ---------------------------------------------------------------- the server

  function Snapshot(server: Schedule, k: nat): seq<Candle>
  {
    server.at(k)
  }

  /** The `limit` oldest candles from `from` on. */
  function Oldest(h: seq<Candle>, from: int, limit: nat): seq<Candle>
  {
    Since(h, from)[..Min(limit, |Since(h, from)|)]
  }

  /** A reply lists them newest first. */
  function Page(h: seq<Candle>, from: int, limit: nat): seq<Candle>
  {
    Reverse(Oldest(h, from, limit))
  }

  /** Any two candles are at least `ms` apart. */
  predicate Spaced(h: seq<Candle>, ms: int)
  {
    forall i, j :: 0 <= i < j < |h| ==> h[j].time - h[i].time >= ms
  }

  /** The finished candles: all but the newest, whose prices may still change. */
  function Finished(h: seq<Candle>): seq<Candle>
  {
    if h == [] then [] else h[..|h| - 1]
  }

  /** A later snapshot keeps every finished candle and the newest one's start, and may append. */
  predicate Evolves(h: seq<Candle>, later: seq<Candle>)
  {
    && |h| <= |later|
    && Finished(h) == later[..|Finished(h)|]
    && (h != [] ==> later[|h| - 1].time == h[|h| - 1].time)
  }

  /** What a growing server promises about an earlier and a later snapshot. */
  ghost predicate Keeps(server: Schedule, j: nat, k: nat)
  {
    && Ascending(Snapshot(server, j))
    && Ascending(Snapshot(server, k))
    && Evolves(Snapshot(server, j), Snapshot(server, k))
  }

  /** A growing server: snapshots ascend and only grow. */
  ghost predicate Growing(server: Schedule)
  {
    forall j: nat, k: nat :: j <= k ==> Keeps(server, j, k)
  }

  function Static(h: seq<Candle>): Schedule
  {
    Schedule(k => h)
  }

  // ------------------------------------------------- one call, as a function

  /** The page loses its last candle unless that candle starts a full interval past `to`. */
  function Trim(page: seq<Candle>, to: int, ms: int): seq<Candle>
    requires page != []
  {
    if page[|page| - 1].time - to < ms then page[..|page| - 1] else page
  }

  /** Nothing a round keeps lies before its lower end, so the next one starts later. */
  lemma KeptFrom(h: seq<Candle>, from: int, to: int, ms: int, limit: nat)
    ensures var kept := Kept(h, from, to, ms, limit);
            |kept| > 0 ==> kept[|kept| - 1].time >= from
  {
    SinceBound(h, from);
  }

  /** What a round keeps of the page it receives. */
  function Kept(h: seq<Candle>, from: int, to: int, ms: int, limit: nat): seq<Candle>
  {
    var page := Oldest(h, from, limit);
    if page == [] then [] else Trim(page, to, ms)
  }

  /** A round goes on exactly when it kept something and all of it lies at or before `to`. */
  predicate GoesOn(kept: seq<Candle>, to: int)
  {
    |kept| > 0 && kept[|kept| - 1].time <= to
  }

  /** The candles kept by each request, from request k on. */
  function Rounds(server: Schedule, k: nat, from: int, to: int, ms: int, limit: nat): (rounds: seq<seq<Candle>>)
    requires ms > 0
    ensures |rounds| >= 1
    decreases if from <= to then to + ms - from else 0
  {
    var kept := Kept(Snapshot(server, k), from, to, ms, limit);
    if GoesOn(kept, to) then
      KeptFrom(Snapshot(server, k), from, to, ms, limit);
      [kept] + Rounds(server, k + 1, kept[|kept| - 1].time + ms, to, ms, limit)
    else [kept]
  }

  /** What the call returns: every batch whole, except that the last one is cut at `to`. */
  function Returned(rounds: seq<seq<Candle>>, to: int): seq<Candle>
  {
    if rounds == [] then []
    else if |rounds| == 1 then UpTo(rounds[0], to)
    else rounds[0] + Returned(rounds[1..], to)
  }

  /** What the batch callback receives: every batch unfiltered, unless it is empty. */
  function Batches(rounds: seq<seq<Candle>>): seq<seq<Candle>>
  {
    if rounds == [] || rounds[|rounds| - 1] != [] then rounds else rounds[..|rounds| - 1]
  }

  lemma {:induction false} ReturnedAfter(done: seq<seq<Candle>>, rest: seq<seq<Candle>>, to: int)
    requires |rest| > 0
    ensures Returned(done + rest, to) == Flatten(done) + Returned(rest, to)
  {
    if done == [] {
      assert done + rest == rest;
    } else {
      assert (done + rest)[1..] == done[1..] + rest;
      ReturnedAfter(done[1..], rest, to);
    }
  }

  lemma ReturnedLast(kept: seq<Candle>, to: int)
    ensures Returned([kept], to) == UpTo(kept, to)
  {
  }

  lemma ReturnedFirst(kept: seq<Candle>, rest: seq<seq<Candle>>, to: int)
    requires |rest| > 0
    ensures Returned([kept] + rest, to) == kept + Returned(rest, to)
  {
  }

  /** One turn of the loop: the batches so far, and the rounds from request k on. */
  lemma OneRound(rounds: seq<seq<Candle>>, done: seq<seq<Candle>>, server: Schedule, k: nat, from: int, to: int, ms: int,
                 limit: nat, kept: seq<Candle>)
    requires ms > 0 && rounds == done + Rounds(server, k, from, to, ms, limit)
    requires kept == Kept(Snapshot(server, k), from, to, ms, limit)
    ensures if GoesOn(kept, to)
            then from <= kept[|kept| - 1].time
              && rounds == (done + [kept]) + Rounds(server, k + 1, kept[|kept| - 1].time + ms, to, ms, limit)
            else rounds == done + [kept]
  {
    hide Kept;
    KeptFrom(Snapshot(server, k), from, to, ms, limit);
    if GoesOn(kept, to) {
      var rest := Rounds(server, k + 1, kept[|kept| - 1].time + ms, to, ms, limit);
      assert done + ([kept] + rest) == (done + [kept]) + rest;
    }
  }

  /** The last round: its batch is cut for the caller and, unless empty, whole for the callback. */
  lemma LastRound(done: seq<seq<Candle>>, kept: seq<Candle>, to: int)
    ensures Returned(done + [kept], to) == Flatten(done) + UpTo(kept, to)
    ensures |kept| == 0 ==> Returned(done + [kept], to) == Flatten(done)
    ensures Batches(done + [kept]) == if |kept| == 0 then done else done + [kept]
  {
    ReturnedAfter(done, [kept], to);
    assert (done + [kept])[..|done|] == done;
  }

  // ------------------------------------------------- the client's loop

  /** The inner loop over the last batch. */
  method AppendUpTo(before: seq<Candle>, candles: seq<Candle>, to: int) returns (retVal: seq<Candle>)
    ensures retVal == before + UpTo(candles, to)
  {
    retVal := before;
    for i := 0 to |candles|
      invariant retVal + UpTo(candles[i..], to) == before + UpTo(candles, to)
    {
      assert candles[i..][1..] == candles[i + 1..];
      if candles[i].time <= to {
        retVal := retVal + [candles[i]];
      }
    }
  }

  /** What turning the page round and trimming it leaves is what the round keeps. */
  lemma TrimmedPage(h: seq<Candle>, from: int, to: int, ms: int, limit: nat)
    ensures var page := Reverse(Page(h, from, limit));
            Kept(h, from, to, ms, limit) == if |page| == 0 then [] else Trim(page, to, ms)
  {
    ReverseTwice(Oldest(h, from, limit));
  }

  /**
   The call. `first` numbers its first request, and a request that `fails` throws, which ends
   the call without a result; `batches` are the calls of the batch callback, in order.
   */
  method GetHistoricalPrices(server: Schedule, fails: nat -> bool, first: nat, interval: CandleInterval, start: int,
                             to: int, limit: nat)
    returns (r: Option<seq<Candle>>, batches: seq<seq<Candle>>, requests: nat)
    ensures var rounds := Rounds(server, first, start, to, NumberOfMs(interval), limit);
            && (r.Some? <==> Answered(fails, first, |rounds|))
            && (r.Some? ==> r.value == Returned(rounds, to) && batches == Batches(rounds) && requests == |rounds|)
            && (r.None? ==>
                  && 0 < requests <= |rounds| && fails(first + requests - 1)
                  && Answered(fails, first, requests - 1)
                  && batches == rounds[..requests - 1])
  {
    hide Rounds, Returned, Batches, Flatten, UpTo, Kept, Page, Reverse, Answered;
    var ms := NumberOfMs(interval);
    var from := start;
    ghost var rounds := Rounds(server, first, start, to, ms, limit);
    var retVal: seq<Candle> := [];
    batches, requests := [], 1;
    NothingYet<Candle>();
    OneAnswer(fails, first, 0, |rounds|);
    if fails(first) {
      return None, batches, requests;
    }
    var candles := Page(Snapshot(server, first), from, limit);
    while |candles| > 0
      invariant requests == |batches| + 1
      invariant candles == Page(Snapshot(server, first + |batches|), from, limit)
      invariant rounds == batches + Rounds(server, first + |batches|, from, to, ms, limit)
      invariant retVal == Flatten(batches)
      invariant Answered(fails, first, requests)
      decreases if from <= to then to + ms - from else 0
    {
      ghost var k := first + |batches|;
      TrimmedPage(Snapshot(server, k), from, to, ms, limit);
      candles := Reverse(candles);
      if candles[|candles| - 1].time - to < ms {
        candles := candles[..|candles| - 1];
      }
      OneRound(rounds, batches, server, k, from, to, ms, limit, candles);
      LastRound(batches, candles, to);
      if |candles| == 0 {
        return Some(retVal), batches, requests;
      }
      var last := candles[|candles| - 1];
      if to < last.time {
        retVal := AppendUpTo(retVal, candles, to);
        batches := batches + [candles];
        return Some(retVal), batches, requests;
      }
      FlattenOne(batches, candles);
      retVal := retVal + candles;
      from := last.time + ms;
      batches := batches + [candles];
      OneAnswer(fails, first, requests, |rounds|);
      requests := requests + 1;
      if fails(first + |batches|) {
        return None, batches, requests;
      }
      candles := Page(Snapshot(server, first + |batches|), from, limit);
    }
    TrimmedPage(Snapshot(server, first + |batches|), from, to, ms, limit);
    OneRound(rounds, batches, server, first + |batches|, from, to, ms, limit, []);
    LastRound(batches, [], to);
    r := Some(retVal);
  }
}
