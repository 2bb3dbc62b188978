/**
 Candle downloads from a growing server, candle by candle: which are final, in which order they
 come, and exactly when none is lost. Nothing here needs candles to be spaced.
 */
module CandleLive {
  import opened TimeSeries
  import opened CandlePaging
  import opened CandleStatic
  import opened CandleTheorems

  // ---------------------------------------------------------------- finality

  lemma KeptIsFinished(h: seq<Candle>, from: int, to: int, ms: int, limit: nat, c: Candle)
    requires Ascending(h) && ms > 0 && c in Kept(h, from, to, ms, limit) && c.time <= to
    ensures from <= c.time && c in Finished(h)
  {
    hide Kept, Ascending, FirstAt;
    AscendingTail(h, from);
    KeptSlice(h, from, to, ms, limit);
    var a, kept := FirstAt(h, from), Kept(h, from, to, ms, limit);
    var i :| 0 <= i < |kept| && kept[i] == c;
    assert h[a + i] == c;
    assert Finished(h)[a + i] == c;
  }

  lemma KeptIsInTime(h: seq<Candle>, from: int, to: int, ms: int, limit: nat, c: Candle)
    requires Ascending(h) && c in Kept(h, from, to, ms, limit) && GoesOn(Kept(h, from, to, ms, limit), to)
    ensures c.time <= to
  {
    hide Kept;
    KeptAscends(h, from, to, ms, limit);
  }

  /** The request that fetched a returned candle: the candle was finished then. */
  lemma {:induction false} WhereFetched(server: Schedule, k: nat, from: int, to: int, ms: int, limit: nat, c: Candle)
    returns (r: nat)
    requires ms > 0 && Growing(server) && c in Returned(Rounds(server, k, from, to, ms, limit), to)
    ensures from <= c.time <= to
    ensures r < |Rounds(server, k, from, to, ms, limit)| && c in Rounds(server, k, from, to, ms, limit)[r]
    ensures c in Finished(Snapshot(server, k + r))
    decreases if from <= to then to + ms - from else 0
  {
    hide Returned, Kept, Finished, Ascending, Growing, UpTo;
    var h := Snapshot(server, k);
    var kept := Kept(h, from, to, ms, limit);
    KeptFrom(h, from, to, ms, limit);
    SnapshotAscends(server, k);
    r := 0;
    if GoesOn(kept, to) {
      var from' := kept[|kept| - 1].time + ms;
      var rest := Rounds(server, k + 1, from', to, ms, limit);
      ReturnedFirst(kept, rest, to);
      if c in kept {
        KeptIsInTime(h, from, to, ms, limit, c);
        KeptIsFinished(h, from, to, ms, limit, c);
      } else {
        var later := WhereFetched(server, k + 1, from', to, ms, limit, c);
        r := later + 1;
      }
    } else {
      ReturnedLast(kept, to);
      UpToMembers(kept, to, c);
      KeptIsFinished(h, from, to, ms, limit, c);
    }
  }

  /** The server holds a candle, finished, from snapshot n on. */
  ghost predicate HeldFrom(server: Schedule, n: nat, c: Candle)
  {
    forall j: nat :: j >= n ==> c in Finished(Snapshot(server, j))
  }

  /**
   Every candle returned is in range, and final when it is fetched: it has its successor in the
   snapshot that the request fetching it meets, and the server holds it unchanged ever after.
   */
  lemma LiveDownloadIsFinal(server: Schedule, k: nat, from: int, to: int, ms: int, limit: nat, c: Candle)
    requires ms > 0 && Growing(server) && c in Returned(Rounds(server, k, from, to, ms, limit), to)
    ensures from <= c.time <= to
    ensures var rounds := Rounds(server, k, from, to, ms, limit);
            exists r :: 0 <= r < |rounds| && c in rounds[r] && HeldFrom(server, k + r, c)
  {
    hide Returned, Rounds, Growing, Finished, Snapshot;
    var r := WhereFetched(server, k, from, to, ms, limit, c);
    forall j: nat | j >= k + r ensures c in Finished(Snapshot(server, j)) {
      FinishedStays(server, k + r, j, c);
    }
  }

  // ---------------------------------------------------------------- order

  lemma AscendingJoin(a: seq<Candle>, b: seq<Candle>)
    requires Ascending(a) && Ascending(b)
    requires forall i, j :: 0 <= i < |a| && 0 <= j < |b| ==> a[i].time < b[j].time
    ensures Ascending(a + b)
  {
  }

  lemma AscendingPrefix(a: seq<Candle>, b: seq<Candle>)
    requires a <= b && Ascending(b)
    ensures Ascending(a)
  {
  }

  /** Whatever a download from a growing server returns is strictly ascending, for every page size. */
  lemma {:induction false} LiveDownloadAscends(server: Schedule, k: nat, from: int, to: int, ms: int, limit: nat)
    requires ms > 0 && Growing(server)
    ensures Ascending(Returned(Rounds(server, k, from, to, ms, limit), to))
    decreases if from <= to then to + ms - from else 0
  {
    hide Returned, Kept, Ascending, Growing, UpTo;
    var h := Snapshot(server, k);
    var kept := Kept(h, from, to, ms, limit);
    KeptFrom(h, from, to, ms, limit);
    SnapshotAscends(server, k);
    KeptAscends(h, from, to, ms, limit);
    if GoesOn(kept, to) {
      var from' := kept[|kept| - 1].time + ms;
      var rest := Rounds(server, k + 1, from', to, ms, limit);
      var later := Returned(rest, to);
      LiveDownloadAscends(server, k + 1, from', to, ms, limit);
      ReturnedFirst(kept, rest, to);
      forall i, j | 0 <= i < |kept| && 0 <= j < |later| ensures kept[i].time < later[j].time {
        var r := WhereFetched(server, k + 1, from', to, ms, limit, later[j]);
        LastIsLatest(kept, i);
      }
      AscendingJoin(kept, later);
    } else {
      ReturnedLast(kept, to);
      UpToIsPrefix(kept, to);
      AscendingPrefix(UpTo(kept, to), kept);
    }
  }

  lemma LastIsLatest(s: seq<Candle>, i: nat)
    requires Ascending(s) && i < |s|
    ensures s[i].time <= s[|s| - 1].time
  {
  }

  // ---------------------------------------------------------------- completeness

  /**
   A candle that was finished in an earlier snapshot, seen by a later round that goes on: it is
   kept, or the next round starts at or before it.
   */
  lemma KeptOrNext(was: seq<Candle>, h: seq<Candle>, from: int, to: int, ms: int, limit: nat, c: Candle)
    requires Ascending(was) && Ascending(h) && Evolves(was, h) && ms > 0 && limit >= 2
    requires SpacedFrom(Finished(was), limit - 2, ms) && c in Finished(was) && from <= c.time
    requires GoesOn(Kept(h, from, to, ms, limit), to)
    ensures var kept := Kept(h, from, to, ms, limit);
            c in kept || kept[|kept| - 1].time + ms <= c.time
  {
    hide Kept, Ascending, SpacedFrom, Evolves, FirstAt, Finished;
    var a, kept := FirstAt(h, from), Kept(h, from, to, ms, limit);
    var m := a + |kept|;
    var i :| 0 <= i < |Finished(was)| && Finished(was)[i] == c;
    SamePlace(was, h, i);
    KeptSlice(h, from, to, ms, limit);
    if i < m {
      assert h[a..m][i - a] == c;
    } else {
      SamePlace(was, h, m);
      SamePlace(was, h, m - 1);
      GapBefore(was, m, i, ms, limit - 2);
      assert h[a..m][m - 1 - a] == h[m - 1];
    }
  }

  lemma SamePlace(was: seq<Candle>, h: seq<Candle>, i: nat)
    requires Evolves(was, h) && i < |Finished(was)|
    ensures i < |h| - 1 && h[i] == was[i] == Finished(was)[i]
  {
    assert h[..|Finished(was)|][i] == h[i];
  }

  lemma GapBefore(was: seq<Candle>, m: nat, i: nat, ms: int, p: nat)
    requires Ascending(was) && SpacedFrom(Finished(was), p, ms) && 0 < m <= i < |Finished(was)| && p <= m - 1
    ensures was[m - 1].time + ms <= was[i].time
  {
    assert Gap(Finished(was), m - 1) >= ms;
    assert m == i || was[m].time < was[i].time;
  }

  lemma {:induction false} CompleteFrom(server: Schedule, first: nat, k: nat, from: int, to: int, ms: int, limit: nat,
                                        c: Candle)
    requires ms > 0 && limit >= 2 && Growing(server) && first <= k
    requires SpacedFrom(Finished(Snapshot(server, first)), limit - 2, ms)
    requires c in Finished(Snapshot(server, first)) && from <= c.time <= to
    ensures c in Returned(Rounds(server, k, from, to, ms, limit), to)
    decreases if from <= to then to + ms - from else 0
  {
    hide Returned, Kept, Finished, Ascending, Evolves, SpacedFrom, UpTo, Range;
    var h := Snapshot(server, k);
    var kept := Kept(h, from, to, ms, limit);
    KeptFrom(h, from, to, ms, limit);
    assert Keeps(server, first, k);
    if GoesOn(kept, to) {
      var from' := kept[|kept| - 1].time + ms;
      ReturnedFirst(kept, Rounds(server, k + 1, from', to, ms, limit), to);
      KeptOrNext(Snapshot(server, first), h, from, to, ms, limit, c);
      if c !in kept {
        CompleteFrom(server, first, k + 1, from', to, ms, limit, c);
      }
    } else {
      FinishedStays(server, first, k, c);
      StoppingRound(h, from, to, ms, limit);
      RangeMembers(Finished(h), from, to, c);
      ReturnedLast(kept, to);
    }
  }

  /** Every candle that was finished when the call began, and is in range, is returned as it was. */
  ghost predicate NothingLost(server: Schedule, k: nat, from: int, to: int, ms: int, limit: nat)
    requires ms > 0
  {
    forall c :: c in Finished(Snapshot(server, k)) && from <= c.time <= to ==>
      c in Returned(Rounds(server, k, from, to, ms, limit), to)
  }

  /** No candle is lost if those the first request meets are spaced from position limit - 2 on. */
  lemma LiveDownloadIsComplete(server: Schedule, k: nat, from: int, to: int, ms: int, limit: nat)
    requires ms > 0 && limit >= 2 && Growing(server)
    requires SpacedFrom(Finished(Snapshot(server, k)), limit - 2, ms)
    ensures NothingLost(server, k, from, to, ms, limit)
  {
    hide Returned, Rounds, Growing, Finished, SpacedFrom, Snapshot;
    forall c | c in Finished(Snapshot(server, k)) && from <= c.time <= to
      ensures c in Returned(Rounds(server, k, from, to, ms, limit), to)
    {
      CompleteFrom(server, k, k, from, to, ms, limit, c);
    }
  }

  /** A gap that is too short at the end of the first page loses the candle after it. */
  lemma LostAtTheEndOfAPage(server: Schedule, k: nat, i: nat, ms: int, limit: nat)
    requires ms > 0 && limit >= 2 && Growing(server)
    requires var g := Finished(Snapshot(server, k)); limit - 2 <= i < |g| - 1 && Gap(g, i) < ms
    ensures var h := Snapshot(server, k);
            i + 1 < |h| - 1 && !NothingLost(server, k, h[i + 2 - limit].time, h[i + 1].time, ms, limit)
  {
    hide Returned, Rounds, Growing, Kept;
    var h, a := Snapshot(server, k), i + 2 - limit;
    var g := Finished(h);
    assert g[i] == h[i] && g[i + 1] == h[i + 1];
    SnapshotAscends(server, k);
    FirstPage(h, a, i + 1, ms, limit);
    assert h[a..i + 1][i - a] == h[i];
    OnlyPage(server, k, h[a..i + 1], h[a].time, h[i + 1].time, ms, limit);
    NotBefore(h, a, i + 1);
    assert g[i + 1] in g && h[a].time <= h[i + 1].time;
  }

  /**
   When does no download that begins at request k lose a candle, however the server grows? For
   a page size of at least two, exactly when the finished candles that request k meets are at
   least one interval apart from position limit - 2 on.
   */
  lemma NothingLostExactlyWhenPageSpaced(server: Schedule, k: nat, ms: int, limit: nat)
    requires ms > 0 && limit >= 2 && Growing(server)
    ensures (forall from: int, to: int :: NothingLost(server, k, from, to, ms, limit)) <==>
            SpacedFrom(Finished(Snapshot(server, k)), limit - 2, ms)
  {
    hide NothingLost, Growing, Finished, Snapshot;
    if SpacedFrom(Finished(Snapshot(server, k)), limit - 2, ms) {
      forall from: int, to: int ensures NothingLost(server, k, from, to, ms, limit) {
        LiveDownloadIsComplete(server, k, from, to, ms, limit);
      }
    } else {
      var g := Finished(Snapshot(server, k));
      var i :| limit - 2 <= i < |g| - 1 && Gap(g, i) < ms;
      LostAtTheEndOfAPage(server, k, i, ms, limit);
    }
  }

  /** A non-empty download from a growing server whose last snapshot is gapless passes the check. */
  lemma LiveGaplessPassesCheck(server: Schedule, k: nat, from: int, to: int, ms: int, limit: nat)
    requires ms > 0 && limit >= 2 && Growing(server)
    requires Gapless(Snapshot(server, LastRequest(server, k, from, to, ms, limit)), ms)
    ensures var got := Returned(Rounds(server, k, from, to, ms, limit), to); got != [] ==> CheckCandles(got, ms)
  {
    hide Range, Returned, Rounds, Growing, Snapshot, LastRequest, Finished, Gapless, Spaced;
    var last := Snapshot(server, LastRequest(server, k, from, to, ms, limit));
    GaplessIsSpaced(last, ms);
    FinishedIsSpaced(last, ms);
    LiveDownloadIsAtomic(server, k, from, to, ms, limit);
    GaplessRange(last, from, to, ms);
  }
}
