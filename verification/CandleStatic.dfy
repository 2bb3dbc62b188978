/** Candle downloads from a history that stands still: exactness, its exact condition, and cost. */
module CandleStatic {
  import opened Enums
  import opened TimeSeries
  import opened CandlePaging
  import opened CandleTheorems

  /** What the call returns when every request meets the same history. */
  function Fetched(h: seq<Candle>, from: int, to: int, ms: int, limit: nat): seq<Candle>
    requires ms > 0
  {
    Returned(Rounds(Static(h), 0, from, to, ms, limit), to)
  }

  lemma StaticIsGrowing(h: seq<Candle>)
    requires Ascending(h)
    ensures Growing(Static(h))
  {
  }

  /** The download is the one-line specification over the finished candles. */
  ghost predicate Exact(h: seq<Candle>, ms: int, from: int, to: int, limit: nat)
    requires ms > 0
  {
    Fetched(h, from, to, ms, limit) == Range(Finished(h), from, to)
  }

  ghost predicate AlwaysExact(h: seq<Candle>, ms: int)
    requires ms > 0
  {
    forall from: int, to: int, limit: nat :: limit >= 2 ==> Exact(h, ms, from, to, limit)
  }

  /** Nothing is returned from a lower end past `to`. */
  lemma PastTheEnd(server: Schedule, k: nat, from: int, to: int, ms: int, limit: nat)
    requires ms > 0 && from > to
    ensures Returned(Rounds(server, k, from, to, ms, limit), to) == []
  {
    hide Range, Oldest, UpTo, Flatten;
    var h := Snapshot(server, k);
    var kept := Kept(h, from, to, ms, limit);
    KeptFrom(h, from, to, ms, limit);
    assert !GoesOn(kept, to);
    OldestFrom(h, from, limit);
    ReturnedLast(kept, to);
    NothingUpTo(kept, to);
  }

  lemma OldestFrom(h: seq<Candle>, from: int, limit: nat)
    ensures forall i :: 0 <= i < |Oldest(h, from, limit)| ==> Oldest(h, from, limit)[i].time >= from
  {
    SinceBound(h, from);
  }

  // ---------------------------------------------------------------- exactness for a page size

  /** From position p on, each candle starts at least an interval after the one before it. */
  ghost predicate SpacedFrom(h: seq<Candle>, p: nat, ms: int)
  {
    forall i :: p <= i < |h| - 1 ==> Gap(h, i) >= ms
  }

  function Gap(h: seq<Candle>, i: nat): int
    requires i < |h| - 1
  {
    h[i + 1].time - h[i].time
  }

  /** A page that goes on ends at position limit - 2 or later: only the gaps from there on matter. */
  lemma GoingPage(h: seq<Candle>, from: int, to: int, ms: int, limit: nat)
    requires Ascending(h) && ms > 0 && limit >= 2 && SpacedFrom(Finished(h), limit - 2, ms)
    requires GoesOn(Kept(h, from, to, ms, limit), to)
    ensures var kept := Kept(h, from, to, ms, limit);
            Range(Finished(h), from, to) == kept + Range(Finished(h), kept[|kept| - 1].time + ms, to)
  {
    hide Kept, Range, Ascending, FirstAt, SpacedFrom;
    var a, kept := FirstAt(h, from), Kept(h, from, to, ms, limit);
    KeptSlice(h, from, to, ms, limit);
    GapAfterPage(h, a + |kept|, ms, limit);
    LaterSlice(h, h, a, a + |kept|, from, to, ms);
  }

  lemma GapAfterPage(h: seq<Candle>, m: nat, ms: int, limit: nat)
    requires Ascending(h) && limit >= 2 && SpacedFrom(Finished(h), limit - 2, ms)
    requires 0 < m < |h| && (m < |h| - 1 ==> m - 1 >= limit - 2)
    ensures NextStartsLater(h, h, m, ms)
  {
    var g := Finished(h);
    if m < |g| {
      assert Gap(g, m - 1) >= ms;
      assert forall i :: m < i < |g| ==> g[m].time < g[i].time;
    }
  }

  lemma {:induction false} PageSpacedIsExact(h: seq<Candle>, k: nat, from: int, to: int, ms: int, limit: nat)
    requires Ascending(h) && ms > 0 && limit >= 2 && SpacedFrom(Finished(h), limit - 2, ms)
    ensures Returned(Rounds(Static(h), k, from, to, ms, limit), to) == Range(Finished(h), from, to)
    decreases if from <= to then to + ms - from else 0
  {
    hide Range, Returned, Kept, Finished, Ascending, SpacedFrom, UpTo, Flatten;
    var kept := Kept(h, from, to, ms, limit);
    KeptFrom(h, from, to, ms, limit);
    assert Snapshot(Static(h), k) == h;
    if GoesOn(kept, to) {
      var from' := kept[|kept| - 1].time + ms;
      var rest := Rounds(Static(h), k + 1, from', to, ms, limit);
      PageSpacedIsExact(h, k + 1, from', to, ms, limit);
      GoingPage(h, from, to, ms, limit);
      ReturnedFirst(kept, rest, to);
    } else {
      StoppingRound(h, from, to, ms, limit);
      ReturnedLast(kept, to);
    }
  }

  /** A download from position a on, up to a candle that ends its first page. */
  lemma FirstPage(h: seq<Candle>, a: nat, m: nat, ms: int, limit: nat)
    requires Ascending(h) && ms > 0 && a < m < |h| && m + 1 == a + limit
    ensures Kept(h, h[a].time, h[m].time, ms, limit) == h[a..m]
  {
    hide Kept;
    assert FirstAt(h, h[a].time) == a;
    KeptSlice(h, h[a].time, h[m].time, ms, limit);
  }

  /** It returns that page alone, from any server, when the next request would start past the end. */
  lemma OnlyPage(server: Schedule, k: nat, kept: seq<Candle>, from: int, to: int, ms: int, limit: nat)
    requires ms > 0 && kept == Kept(Snapshot(server, k), from, to, ms, limit)
    requires GoesOn(kept, to) && kept[|kept| - 1].time + ms > to
    ensures Returned(Rounds(server, k, from, to, ms, limit), to) == kept
  {
    hide Kept, Returned;
    var from' := kept[|kept| - 1].time + ms;
    KeptFrom(Snapshot(server, k), from, to, ms, limit);
    ReturnedFirst(kept, Rounds(server, k + 1, from', to, ms, limit), to);
    PastTheEnd(server, k + 1, from', to, ms, limit);
    assert kept + [] == kept;
  }

  /** Two finished candles closer than the interval at the end of a page: the second one is skipped. */
  lemma SkippedCandle(h: seq<Candle>, i: nat, ms: int, limit: nat)
    requires Ascending(h) && ms > 0 && limit >= 2
    requires limit - 2 <= i && i + 1 < |h| - 1 && h[i + 1].time - h[i].time < ms
    ensures Fetched(h, h[i + 2 - limit].time, h[i + 1].time, ms, limit) == h[i + 2 - limit..i + 1]
    ensures h[i + 1] in Range(Finished(h), h[i + 2 - limit].time, h[i + 1].time)
  {
    hide Range, Kept, Returned, Rounds;
    var a := i + 2 - limit;
    FirstPage(h, a, i + 1, ms, limit);
    assert h[a..i + 1][i - a] == h[i];
    OnlyPage(Static(h), 0, h[a..i + 1], h[a].time, h[i + 1].time, ms, limit);
    assert Finished(h)[i + 1] == h[i + 1];
    RangeMembers(Finished(h), h[a].time, h[i + 1].time, h[i + 1]);
  }

  lemma NotExact(h: seq<Candle>, i: nat, ms: int, limit: nat)
    requires Ascending(h) && ms > 0 && limit >= 2
    requires limit - 2 <= i < |Finished(h)| - 1 && Gap(Finished(h), i) < ms
    ensures !Exact(h, ms, h[i + 2 - limit].time, h[i + 1].time, limit)
  {
    hide Range, Fetched;
    assert Finished(h)[i] == h[i] && Finished(h)[i + 1] == h[i + 1];
    SkippedCandle(h, i, ms, limit);
    NotBefore(h, i + 2 - limit, i + 1);
  }

  lemma NotBefore(h: seq<Candle>, a: nat, b: nat)
    requires Ascending(h) && a <= b < |h|
    ensures h[b] !in h[a..b]
  {
    forall i | a <= i < b ensures h[i] != h[b] {
      assert h[i].time < h[b].time;
    }
  }

  /**
   For which histories is every download with a given page size exact? Exactly for those whose
   finished candles are at least one interval apart from position limit - 2 on.
   */
  lemma ExactExactlyWhenPageSpaced(h: seq<Candle>, ms: int, limit: nat)
    requires Ascending(h) && ms > 0 && limit >= 2
    ensures (forall from: int, to: int :: Exact(h, ms, from, to, limit)) <==> SpacedFrom(Finished(h), limit - 2, ms)
  {
    hide Ascending, Returned, Rounds, Range, Finished, Exact;
    if SpacedFrom(Finished(h), limit - 2, ms) {
      forall from: int, to: int ensures Exact(h, ms, from, to, limit) {
        PageSpacedFetched(h, from, to, ms, limit);
      }
    } else {
      var i :| limit - 2 <= i < |Finished(h)| - 1 && Gap(Finished(h), i) < ms;
      FinishedIsShorter(h);
      NotExact(h, i, ms, limit);
    }
  }

  lemma FinishedIsShorter(h: seq<Candle>)
    ensures |Finished(h)| == if h == [] then 0 else |h| - 1
  {
  }

  lemma PageSpacedFetched(h: seq<Candle>, from: int, to: int, ms: int, limit: nat)
    requires Ascending(h) && ms > 0 && limit >= 2 && SpacedFrom(Finished(h), limit - 2, ms)
    ensures Exact(h, ms, from, to, limit)
  {
    hide Ascending, Returned, Rounds, Range, Finished, SpacedFrom;
    PageSpacedIsExact(h, 0, from, to, ms, limit);
  }

  /** A history that fits on one page downloads exactly, whatever its gaps. */
  lemma OnePageIsExact(h: seq<Candle>, from: int, to: int, ms: int, limit: nat)
    requires Ascending(h) && ms > 0 && limit >= 2 && |h| <= limit
    ensures Exact(h, ms, from, to, limit)
  {
    hide Ascending, Returned, Rounds, Range, Exact;
    PageSpacedFetched(h, from, to, ms, limit);
  }

  lemma {:induction false} SpacedApart(h: seq<Candle>, ms: int, i: nat, j: nat)
    requires SpacedFrom(h, 0, ms) && ms > 0 && i < j < |h|
    ensures h[j].time - h[i].time >= ms
  {
    assert Gap(h, j - 1) >= ms;
    if i < j - 1 {
      SpacedApart(h, ms, i, j - 1);
    }
  }

  lemma SpacedFromStart(h: seq<Candle>, ms: int)
    requires ms > 0
    ensures SpacedFrom(h, 0, ms) <==> Spaced(h, ms)
  {
    if SpacedFrom(h, 0, ms) {
      forall i, j | 0 <= i < j < |h| ensures h[j].time - h[i].time >= ms {
        SpacedApart(h, ms, i, j);
      }
    }
  }

  /** Over all page sizes, every download is exact exactly when all finished candles are spaced. */
  lemma ExactExactlyWhenSpaced(h: seq<Candle>, ms: int)
    requires Ascending(h) && ms > 0
    ensures AlwaysExact(h, ms) <==> Spaced(Finished(h), ms)
  {
    hide Ascending, Spaced, Range, Finished, Exact;
    SpacedFromStart(Finished(h), ms);
    ExactExactlyWhenPageSpaced(h, ms, 2);
    if Spaced(Finished(h), ms) {
      forall from: int, to: int, limit: nat | limit >= 2 ensures Exact(h, ms, from, to, limit) {
        assert SpacedFrom(Finished(h), limit - 2, ms);
        ExactExactlyWhenPageSpaced(h, ms, limit);
      }
    }
  }

  /** A still server with spaced candles returns exactly the finished candles in range. */
  lemma StaticIsExact(h: seq<Candle>, from: int, to: int, ms: int, limit: nat)
    requires Ascending(h) && Spaced(Finished(h), ms) && ms > 0 && limit >= 2
    ensures Exact(h, ms, from, to, limit)
  {
    hide Ascending, Spaced, Range, Finished, Rounds, Returned;
    StaticIsGrowing(h);
    assert Snapshot(Static(h), LastRequest(Static(h), 0, from, to, ms, limit)) == h;
    LiveDownloadIsAtomic(Static(h), 0, from, to, ms, limit);
  }

  /** Thirty days is too long a stride for February: at a page size of two the March candle is skipped. */
  lemma MarchIsSkipped(feb: Prices, mar: Prices, apr: Prices)
    ensures var h := [Record(1675209600000, feb), Record(1677628800000, mar), Record(1680307200000, apr)];
            && h[1] in Range(Finished(h), h[0].time, h[1].time)
            && Fetched(h, h[0].time, h[1].time, NumberOfMs(IM), 2) == [h[0]]
  {
    hide Range, Fetched;
    var h := [Record(1675209600000, feb), Record(1677628800000, mar), Record(1680307200000, apr)];
    SkippedCandle(h, 0, NumberOfMs(IM), 2);
    assert h[0..1] == [h[0]];
  }

  /** With a page size of one nothing is ever returned. */
  lemma LimitOneReturnsNothing(server: Schedule, k: nat, from: int, to: int, ms: int)
    requires ms > 0
    ensures Returned(Rounds(server, k, from, to, ms, 1), to) == []
  {
    hide Since, UpTo, Flatten;
    var kept := Kept(Snapshot(server, k), from, to, ms, 1);
    assert |kept| <= 1 && (|kept| == 1 ==> kept[0].time > to);
    ReturnedLast(kept, to);
    NothingUpTo(kept, to);
  }

  // ---------------------------------------------------------------- batches

  lemma {:induction false} FlattenBatches(rounds: seq<seq<Candle>>)
    ensures Flatten(Batches(rounds)) == Flatten(rounds)
  {
    if rounds != [] && rounds[|rounds| - 1] == [] {
      var front := rounds[..|rounds| - 1];
      assert rounds == front + [[]];
      FlattenOne(front, []);
    }
  }

  /**
   The returned vector is the concatenation of the callback's batches cut at `to`, and
   only its end is cut off.
   */
  lemma ReturnedIsCutBatches(server: Schedule, k: nat, from: int, to: int, ms: int, limit: nat)
    requires ms > 0 && forall j: nat :: Ascending(Snapshot(server, j))
    ensures var rounds := Rounds(server, k, from, to, ms, limit);
            var handed := Flatten(Batches(rounds));
            Returned(rounds, to) == UpTo(handed, to) && Returned(rounds, to) <= handed
  {
    hide Rounds, Returned, UpTo, Flatten, Batches, Ascending;
    FlattenBatches(Rounds(server, k, from, to, ms, limit));
    ReturnedIsCut(server, k, from, to, ms, limit);
  }

  lemma {:induction false} ReturnedIsCut(server: Schedule, k: nat, from: int, to: int, ms: int, limit: nat)
    requires ms > 0 && forall j: nat :: Ascending(Snapshot(server, j))
    ensures var rounds := Rounds(server, k, from, to, ms, limit);
            Returned(rounds, to) == UpTo(Flatten(rounds), to) && Returned(rounds, to) <= Flatten(rounds)
    decreases if from <= to then to + ms - from else 0
  {
    hide Returned, UpTo, Flatten, Kept, Ascending;
    var h := Snapshot(server, k);
    var kept := Kept(h, from, to, ms, limit);
    KeptFrom(h, from, to, ms, limit);
    KeptAscends(h, from, to, ms, limit);
    if GoesOn(kept, to) {
      var rest := Rounds(server, k + 1, kept[|kept| - 1].time + ms, to, ms, limit);
      ReturnedIsCut(server, k + 1, kept[|kept| - 1].time + ms, to, ms, limit);
      ReturnedFirst(kept, rest, to);
      FlattenFirst(kept, rest);
      UpToConcat(kept, Flatten(rest), to);
      AllUpTo(kept, to);
    } else {
      ReturnedLast(kept, to);
      FlattenFirst(kept, []);
      NothingYet<Candle>();
      UpToIsPrefix(kept, to);
    }
  }

  lemma FlattenFirst(kept: seq<Candle>, rest: seq<seq<Candle>>)
    ensures Flatten([kept] + rest) == kept + Flatten(rest)
    ensures rest == [] ==> Flatten([kept]) == kept
  {
  }

  lemma KeptAscends(h: seq<Candle>, from: int, to: int, ms: int, limit: nat)
    requires Ascending(h)
    ensures Ascending(Kept(h, from, to, ms, limit))
  {
    hide Kept;
    KeptSlice(h, from, to, ms, limit);
  }

  lemma AllUpTo(kept: seq<Candle>, to: int)
    requires Ascending(kept) && GoesOn(kept, to)
    ensures UpTo(kept, to) == kept
  {
  }

  // ---------------------------------------------------------------- cost

  lemma FirstAfter(h: seq<Candle>, i: nat, t: int)
    requires Ascending(h) && i < |h| && h[i].time < t
    ensures FirstAt(h, t) > i
  {
  }

  /** A round that goes on and did not fill its page is followed by just one more request. */
  lemma ShortPage(h: seq<Candle>, k: nat, from: int, to: int, ms: int, limit: nat)
    requires Ascending(h) && ms > 0 && limit >= 2
    requires GoesOn(Kept(h, from, to, ms, limit), to) && |Kept(h, from, to, ms, limit)| != limit - 1
    ensures var kept := Kept(h, from, to, ms, limit);
            |Rounds(Static(h), k, kept[|kept| - 1].time + ms, to, ms, limit)| == 1
  {
    hide Kept, UpTo, Range, Ascending, FirstAt, Since;
    var kept := Kept(h, from, to, ms, limit);
    var from' := kept[|kept| - 1].time + ms;
    KeptSlice(h, from, to, ms, limit);
    KeptSlice(h, from', to, ms, limit);
    assert h[|h| - 2] == kept[|kept| - 1];
    FirstAfter(h, |h| - 2, from');
    assert Snapshot(Static(h), k) == h;
  }

  /**
   On a still server N returned candles cost at most ceil(N / (limit - 1)) + 1 requests,
   written without division: (requests - 1) * (limit - 1) <= N + (limit - 2).
   */
  lemma {:induction false} RequestBound(h: seq<Candle>, k: nat, from: int, to: int, ms: int, limit: nat)
    requires Ascending(h) && ms > 0 && limit >= 2
    ensures var rounds := Rounds(Static(h), k, from, to, ms, limit);
            (|rounds| - 1) * (limit - 1) <= |Returned(rounds, to)| + (limit - 2)
    decreases if from <= to then to + ms - from else 0
  {
    hide Returned, Kept, Ascending, Range, UpTo, Flatten;
    var kept := Kept(h, from, to, ms, limit);
    KeptFrom(h, from, to, ms, limit);
    assert Snapshot(Static(h), k) == h;
    if GoesOn(kept, to) {
      var from' := kept[|kept| - 1].time + ms;
      var rest := Rounds(Static(h), k + 1, from', to, ms, limit);
      ReturnedFirst(kept, rest, to);
      if |kept| == limit - 1 {
        RequestBound(h, k + 1, from', to, ms, limit);
        assert |rest| * (limit - 1) == (|rest| - 1) * (limit - 1) + (limit - 1);
      } else {
        ShortPage(h, k + 1, from, to, ms, limit);
      }
    }
  }

  // ---------------------------------------------------------------- gapless histories

  /** Each candle one interval after the one before it. */
  ghost predicate Gapless(h: seq<Candle>, ms: int)
  {
    forall i, j :: 0 <= i < |h| && i < j < |h| && j == i + 1 ==> h[j].time - h[i].time == ms
  }

  /** The check that the repository's own test applies to a download. */
  ghost predicate CheckCandles(candles: seq<Candle>, ms: int)
  {
    candles != [] && Gapless(candles, ms)
  }

  lemma {:induction false} GaplessApart(h: seq<Candle>, ms: int, i: nat, j: nat)
    requires Gapless(h, ms) && ms > 0 && i < j < |h|
    ensures h[j].time - h[i].time >= ms
  {
    if j == i + 1 {
    } else {
      GaplessApart(h, ms, i, j - 1);
      assert h[j].time - h[j - 1].time == ms;
    }
  }

  lemma GaplessIsSpaced(h: seq<Candle>, ms: int)
    requires Gapless(h, ms) && ms > 0
    ensures Ascending(h) && Spaced(h, ms)
  {
    hide Gapless;
    forall i, j | 0 <= i < j < |h| ensures h[j].time - h[i].time >= ms {
      GaplessApart(h, ms, i, j);
    }
  }

  lemma FinishedIsSpaced(h: seq<Candle>, ms: int)
    requires Spaced(h, ms)
    ensures Spaced(Finished(h), ms)
  {
  }

  lemma GaplessSlice(h: seq<Candle>, ms: int, lo: nat, hi: nat)
    requires Gapless(h, ms) && lo <= hi <= |Finished(h)|
    ensures Gapless(Finished(h)[lo..hi], ms)
  {
  }

  /** Any non-empty range of a gapless history passes the check. */
  lemma GaplessRange(h: seq<Candle>, from: int, to: int, ms: int)
    requires Gapless(h, ms) && ms > 0
    ensures var got := Range(Finished(h), from, to); got != [] ==> CheckCandles(got, ms)
  {
    hide Range, Spaced, Ascending, Gapless;
    GaplessIsSpaced(h, ms);
    FinishedAscends(h);
    RangeSlice(Finished(h), from, to);
    var lo, hi := FirstAt(Finished(h), from), FirstAt(Finished(h), to + 1);
    if lo <= hi {
      GaplessSlice(h, ms, lo, hi);
    }
  }

  /** A non-empty download from a gapless history passes that check. */
  lemma GaplessPassesCheck(h: seq<Candle>, from: int, to: int, ms: int, limit: nat)
    requires Gapless(h, ms) && ms > 0 && limit >= 2
    ensures var got := Fetched(h, from, to, ms, limit); got != [] ==> CheckCandles(got, ms)
  {
    hide Range, Fetched, Spaced, Ascending, Gapless;
    GaplessIsSpaced(h, ms);
    FinishedIsSpaced(h, ms);
    StaticIsExact(h, from, to, ms, limit);
    GaplessRange(h, from, to, ms);
  }
}
