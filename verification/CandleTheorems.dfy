/** What a candle download returns, over every history and every schedule of a live server. */
module CandleTheorems {
  import opened Arithmetic
  import opened TimeSeries
  import opened CandlePaging

  // ---------------------------------------------------------------- pages as slices

  /** In an ascending history the page is the slice that starts at the first candle from `from` on. */
  lemma OldestSlice(h: seq<Candle>, from: int, limit: nat)
    requires Ascending(h)
    ensures var a := FirstAt(h, from); Oldest(h, from, limit) == h[a..Min(a + limit, |h|)]
  {
    hide Since;
    SinceSlice(h, from);
  }

  /** What a round keeps is a slice of the history, one short of the page unless the page ends late. */
  lemma KeptSlice(h: seq<Candle>, from: int, to: int, ms: int, limit: nat)
    requires Ascending(h)
    ensures var a, kept := FirstAt(h, from), Kept(h, from, to, ms, limit);
            var b := Min(a + limit, |h|);
            && a + |kept| <= b
            && kept == h[a..a + |kept|]
            && a + |kept| == (if a < b && h[b - 1].time - to < ms then b - 1 else b)
  {
    hide Oldest, Ascending, FirstAt;
    OldestSlice(h, from, limit);
    var a := FirstAt(h, from);
    var b := Min(a + limit, |h|);
    assert a < b ==> h[a..b][..b - a - 1] == h[a..b - 1];
  }

  // ---------------------------------------------------------------- one round

  /** The candles before position m, seen in a later snapshot, are the same and finished. */
  lemma StillThere(h: seq<Candle>, later: seq<Candle>, m: nat)
    requires Evolves(h, later) && m < |h|
    ensures m <= |Finished(later)| && Finished(later)[..m] == h[..m]
  {
    assert Finished(h)[..m] == h[..m];
    assert later[..|Finished(h)|][..m] == later[..m];
  }

  /** A round that stops returns exactly the finished candles of its own snapshot that are in range. */
  lemma StoppingRound(h: seq<Candle>, from: int, to: int, ms: int, limit: nat)
    requires Ascending(h) && ms > 0 && limit >= 2
    requires !GoesOn(Kept(h, from, to, ms, limit), to)
    ensures UpTo(Kept(h, from, to, ms, limit), to) == Range(Finished(h), from, to)
  {
    hide Kept, UpTo, Range, Ascending;
    var kept := Kept(h, from, to, ms, limit);
    var a := FirstAt(h, from);
    KeptSlice(h, from, to, ms, limit);
    AscendingTail(h, from);
    if |kept| == 0 {
      RangeNone(Finished(h), from, to);
      UpToRange<Prices>([], from, to);
      RangeNone<Prices>([], from, to);
    } else {
      UpToRange(kept, from, to);
      StoppingSlice(h, a, a + |kept|, from, to);
    }
  }

  lemma AscendingTail(h: seq<Candle>, from: int)
    requires Ascending(h)
    ensures forall i :: FirstAt(h, from) <= i < |h| ==> from <= h[i].time
  {
  }

  lemma StoppingSlice(h: seq<Candle>, a: nat, m: nat, from: int, to: int)
    requires Ascending(h) && a < m <= |h| && to < h[m - 1].time
    requires forall i :: 0 <= i < a ==> h[i].time < from
    ensures Range(h[a..m], from, to) == Range(Finished(h), from, to)
  {
    hide Range;
    var g, n := Finished(h), m - 1;
    assert g == h[..a] + (h[a..n] + g[n..]);
    RangeSkip(h[..a], h[a..n] + g[n..], from, to);
    RangeDrop(h[a..n], g[n..], from, to);
    assert h[a..m] == h[a..n] + [h[n]];
    RangeDrop(h[a..n], [h[n]], from, to);
  }

  /** A round that goes on, seen in any later snapshot of the server. */
  lemma GoingRound(h: seq<Candle>, later: seq<Candle>, from: int, to: int, ms: int, limit: nat)
    requires Ascending(h) && Ascending(later) && Evolves(h, later) && Spaced(Finished(later), ms) && ms > 0
    requires GoesOn(Kept(h, from, to, ms, limit), to)
    ensures var kept := Kept(h, from, to, ms, limit);
            Range(Finished(later), from, to) == kept + Range(Finished(later), kept[|kept| - 1].time + ms, to)
  {
    hide Kept, Range, Evolves, Spaced, Ascending;
    var a, kept := FirstAt(h, from), Kept(h, from, to, ms, limit);
    KeptSlice(h, from, to, ms, limit);
    SpacedLater(h, later, a + |kept|, ms);
    LaterSlice(h, later, a, a + |kept|, from, to, ms);
  }

  /** Nothing finished after position m starts within the interval before it. */
  ghost predicate NextStartsLater(h: seq<Candle>, later: seq<Candle>, m: nat, ms: int)
    requires 0 < m <= |h|
  {
    m <= |Finished(later)| ==> forall i :: m <= i < |Finished(later)| ==> h[m - 1].time + ms <= Finished(later)[i].time
  }

  lemma SpacedLater(h: seq<Candle>, later: seq<Candle>, m: nat, ms: int)
    requires Evolves(h, later) && Spaced(Finished(later), ms) && 0 < m < |h|
    ensures NextStartsLater(h, later, m, ms)
  {
    hide Evolves, Finished;
    StillThere(h, later, m);
    assert Finished(later)[..m][m - 1] == h[..m][m - 1];
  }

  lemma LaterSlice(h: seq<Candle>, later: seq<Candle>, a: nat, m: nat, from: int, to: int, ms: int)
    requires Ascending(h) && Ascending(later) && Evolves(h, later) && ms > 0
    requires a < m < |h| && a == FirstAt(h, from) && h[m - 1].time <= to && NextStartsLater(h, later, m, ms)
    ensures Range(Finished(later), from, to) == h[a..m] + Range(Finished(later), h[m - 1].time + ms, to)
  {
    hide Range, Evolves, Finished;
    var g, from' := Finished(later), h[m - 1].time + ms;
    StillThere(h, later, m);
    SplitAt(h, g, a, m);
    AscendingSlice(h, from, m);
    hide Ascending;
    RangeParts(h[..a], h[a..m], g[m..], from, from', to);
  }

  lemma AscendingSlice(h: seq<Candle>, from: int, m: nat)
    requires Ascending(h) && FirstAt(h, from) < m <= |h|
    ensures forall i :: 0 <= i < |h[FirstAt(h, from)..m]| ==> from <= h[FirstAt(h, from)..m][i].time <= h[m - 1].time
  {
  }

  lemma SplitAt(h: seq<Candle>, g: seq<Candle>, a: nat, m: nat)
    requires a < m <= |h| && m <= |g| && g[..m] == h[..m]
    ensures g == h[..a] + (h[a..m] + g[m..]) && g[m - 1] == h[m - 1]
  {
  }

  // ---------------------------------------------------------------- growing servers

  /** The number of the last request of a download. */
  function LastRequest(server: Schedule, k: nat, from: int, to: int, ms: int, limit: nat): (last: nat)
    requires ms > 0
    ensures last >= k
  {
    k + |Rounds(server, k, from, to, ms, limit)| - 1
  }

  /**
   A download from a growing server reads as one atomic look at the last snapshot served, if
   the finished candles of that snapshot are spaced: it returns those with from <= start <= to,
   each once, in ascending order, although they arrived in pages of different snapshots.
   */
  lemma {:induction false} LiveDownloadIsAtomic(server: Schedule, k: nat, from: int, to: int, ms: int, limit: nat)
    requires ms > 0 && limit >= 2 && Growing(server)
    requires Spaced(Finished(Snapshot(server, LastRequest(server, k, from, to, ms, limit))), ms)
    ensures Returned(Rounds(server, k, from, to, ms, limit), to) ==
            Range(Finished(Snapshot(server, LastRequest(server, k, from, to, ms, limit))), from, to)
    decreases if from <= to then to + ms - from else 0
  {
    hide Range, Returned, Kept, Finished, Ascending, Spaced, Evolves, UpTo, Flatten;
    var h := Snapshot(server, k);
    var kept := Kept(h, from, to, ms, limit);
    KeptFrom(h, from, to, ms, limit);
    assert Keeps(server, k, k);
    if GoesOn(kept, to) {
      var from' := kept[|kept| - 1].time + ms;
      var rest := Rounds(server, k + 1, from', to, ms, limit);
      assert LastRequest(server, k + 1, from', to, ms, limit) == LastRequest(server, k, from, to, ms, limit);
      LiveDownloadIsAtomic(server, k + 1, from', to, ms, limit);
      assert Keeps(server, k, k + |rest|);
      GoingRound(h, Snapshot(server, k + |rest|), from, to, ms, limit);
      ReturnedFirst(kept, rest, to);
    } else {
      StoppingRound(h, from, to, ms, limit);
      ReturnedLast(kept, to);
    }
  }

  lemma FinishedStays(server: Schedule, j: nat, k: nat, c: Candle)
    requires Growing(server) && j <= k && c in Finished(Snapshot(server, j))
    ensures c in Finished(Snapshot(server, k))
  {
    assert Keeps(server, j, k);
    var h, later := Snapshot(server, j), Snapshot(server, k);
    var i :| 0 <= i < |Finished(h)| && Finished(h)[i] == c;
    assert later[..|Finished(h)|][i] == c;
    assert Finished(later)[i] == c;
  }

  lemma FinishedAscends(h: seq<Candle>)
    requires Ascending(h)
    ensures Ascending(Finished(h))
  {
  }

  lemma SnapshotAscends(server: Schedule, k: nat)
    requires Growing(server)
    ensures Ascending(Snapshot(server, k))
  {
    hide Ascending, Evolves;
    assert Keeps(server, k, k);
  }

  // ---------------------------------------------------------------- cost

  lemma OneIntervalLess(d: int, less: int, ms: int)
    requires ms > 0 && 0 <= less <= d - ms
    ensures less / ms + 1 <= d / ms
  {
    var q, p := less / ms, d / ms;
    if p < q + 1 {
      Multiples(p, q, ms);
    }
  }

  lemma PastTheEndIsLast(server: Schedule, k: nat, from: int, to: int, ms: int, limit: nat)
    requires ms > 0 && from > to
    ensures |Rounds(server, k, from, to, ms, limit)| == 1
  {
    hide Kept;
    KeptFrom(Snapshot(server, k), from, to, ms, limit);
  }

  /** However the history grows, a download sends at most one request an interval, and two more. */
  lemma {:induction false} RequestsAreBounded(server: Schedule, k: nat, from: int, to: int, ms: int, limit: nat)
    requires ms > 0 && from <= to
    ensures |Rounds(server, k, from, to, ms, limit)| <= (to - from) / ms + 2
    decreases if from <= to then to + ms - from else 0
  {
    hide Kept, Rounds;
    var kept := Kept(Snapshot(server, k), from, to, ms, limit);
    NextStart(server, k, from, to, ms, limit);
    if GoesOn(kept, to) {
      var from' := kept[|kept| - 1].time + ms;
      if from' <= to {
        RequestsAreBounded(server, k + 1, from', to, ms, limit);
        OneIntervalLess(to - from, to - from', ms);
      } else {
        PastTheEndIsLast(server, k + 1, from', to, ms, limit);
        QuotientIsNat(to - from, ms);
      }
    } else {
      QuotientIsNat(to - from, ms);
    }
  }

  lemma NextStart(server: Schedule, k: nat, from: int, to: int, ms: int, limit: nat)
    requires ms > 0
    ensures var kept := Kept(Snapshot(server, k), from, to, ms, limit);
            && (GoesOn(kept, to) ==>
                  && from + ms <= kept[|kept| - 1].time + ms
                  && |Rounds(server, k, from, to, ms, limit)| == 1 + |Rounds(server, k + 1, kept[|kept| - 1].time + ms, to, ms, limit)|)
            && (!GoesOn(kept, to) ==> |Rounds(server, k, from, to, ms, limit)| == 1)
  {
    hide Kept;
    KeptFrom(Snapshot(server, k), from, to, ms, limit);
  }
}
