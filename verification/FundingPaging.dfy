/**
 Downloading funding rates page by page, newest first. The server is an assumption: a
 request for [from, to] is answered with the newest `limit` records in that interval, the
 k-th request from the k-th snapshot of a history that may grow while the download runs.
 */
module FundingPaging {
  import opened Arithmetic
  import opened Requests
  import opened TimeSeries
  import opened Wrappers

  type FundingRate = Record<real>

  // ---------------------------------------------------------------- the server

  /** The newest `limit` records in [from, to], oldest first. */
  function Newest(h: seq<FundingRate>, from: int, to: int, limit: nat): seq<FundingRate>
  {
    var r := Range(h, from, to);
    if |r| <= limit then r else r[|r| - limit..]
  }

  /** A reply lists them newest first. */
  function Page(h: seq<FundingRate>, from: int, to: int, limit: nat): seq<FundingRate>
  {
    Reverse(Newest(h, from, to, limit))
  }

  // ---------------------------------------------------------------- one call, as a function

  /** No request is sent unless the interval has two distinct ends. */
  function Fetch(h: seq<FundingRate>, from: int, to: int, limit: nat): seq<FundingRate>
  {
    if from < to then Page(h, from, to, limit) else []
  }

  /** Everything collected from `to` down, newest first, when the server stands still. */
  function Collect(h: seq<FundingRate>, from: int, to: int, limit: nat): seq<FundingRate>
    decreases if from < to then to - from else 0
  {
    var page := Fetch(h, from, to, limit);
    if |page| > 0 then
      PageBounds(h, from, to, limit);
      page + Collect(h, from, page[|page| - 1].time - 1, limit)
    else []
  }

  lemma PageBounds(h: seq<FundingRate>, from: int, to: int, limit: nat)
    ensures var page := Page(h, from, to, limit); forall i :: 0 <= i < |page| ==> from <= page[i].time <= to
  {
    hide Range, Reverse;
    RangeBounds(h, from, to);
    ReverseAt(Newest(h, from, to, limit));
  }

  // ---------------------------------------------------------------- the client's loop

  /** Snapshot k is what the server knows when it answers request k. */
  function At(server: nat -> seq<FundingRate>, k: nat): seq<FundingRate>
  {
    server(k)
  }

  /** Everything collected from request k on, when the server may change between requests. */
  function CollectLive(server: nat -> seq<FundingRate>, k: nat, from: int, to: int, limit: nat): seq<FundingRate>
    decreases if from < to then to - from else 0
  {
    var page := Fetch(At(server, k), from, to, limit);
    if |page| > 0 then
      PageBounds(At(server, k), from, to, limit);
      page + CollectLive(server, k + 1, from, page[|page| - 1].time - 1, limit)
    else []
  }

  lemma Rest(server: nat -> seq<FundingRate>, k: nat, from: int, to: int, limit: nat, all: seq<FundingRate>,
             got: seq<FundingRate>)
    requires all == got + CollectLive(server, k, from, to, limit)
    ensures var page := Fetch(At(server, k), from, to, limit);
            && (|page| == 0 ==> all == got)
            && (|page| > 0 ==> page[|page| - 1].time <= to && from < to)
            && (|page| > 0 ==> all == (got + page) + CollectLive(server, k + 1, from, page[|page| - 1].time - 1, limit))
  {
    hide Page, At;
    var page := Fetch(At(server, k), from, to, limit);
    if |page| == 0 {
    } else {
      PageBounds(At(server, k), from, to, limit);
      var rest := CollectLive(server, k + 1, from, page[|page| - 1].time - 1, limit);
      assert got + (page + rest) == (got + page) + rest;
    }
  }

  /** How many requests a download sends from request k on. */
  function Sent(server: nat -> seq<FundingRate>, k: nat, from: int, to: int, limit: nat): nat
    decreases if from < to then to - from else 0
  {
    var page := Fetch(At(server, k), from, to, limit);
    if from >= to then 0
    else if |page| > 0 then
      PageBounds(At(server, k), from, to, limit);
      1 + Sent(server, k + 1, from, page[|page| - 1].time - 1, limit)
    else 1
  }

  lemma SentRest(server: nat -> seq<FundingRate>, k: nat, from: int, to: int, limit: nat)
    ensures from >= to ==> Sent(server, k, from, to, limit) == 0
    ensures var page := Fetch(At(server, k), from, to, limit);
            && (|page| > 0 ==>
                  Sent(server, k, from, to, limit) == 1 + Sent(server, k + 1, from, page[|page| - 1].time - 1, limit))
            && (from < to && |page| == 0 ==> Sent(server, k, from, to, limit) == 1)
  {
    hide Page, At;
  }

  /**
   The call. `first` numbers its first request, and a request that `fails` throws, which ends
   the call without a result.
   */
  method GetFundingRates(server: nat -> seq<FundingRate>, fails: nat -> bool, first: nat, startTime: int, end: int,
                         limit: nat)
    returns (r: Option<seq<FundingRate>>)
    ensures r.Some? <==> Answered(fails, first, Sent(server, first, startTime, end, limit))
    ensures r.Some? ==> r.value == Reverse(CollectLive(server, first, startTime, end, limit))
  {
    hide CollectLive, Sent, Page, Reverse, Answered;
    var endTime := end;
    var k := first;
    ghost var all, sent := CollectLive(server, first, startTime, end, limit), Sent(server, first, startTime, end, limit);
    var retVal: seq<FundingRate> := [];
    var fr := [];
    SentRest(server, k, startTime, endTime, limit);
    OneAnswer(fails, first, 0, sent);
    if startTime < endTime {
      if fails(k) {
        return None;
      }
      fr := Page(At(server, k), startTime, endTime, limit);
    }
    while |fr| > 0
      invariant k >= first
      invariant fr == Fetch(At(server, k), startTime, endTime, limit)
      invariant all == retVal + CollectLive(server, k, startTime, endTime, limit)
      invariant sent == k - first + Sent(server, k, startTime, endTime, limit)
      invariant Answered(fails, first, k - first + if startTime < endTime then 1 else 0)
      decreases if startTime < endTime then endTime - startTime else 0
    {
      Rest(server, k, startTime, endTime, limit, all, retVal);
      SentRest(server, k, startTime, endTime, limit);
      retVal := retVal + fr;
      endTime := fr[|fr| - 1].time - 1;
      k := k + 1;
      fr := [];
      SentRest(server, k, startTime, endTime, limit);
      OneAnswer(fails, first, k - first, sent);
      if startTime < endTime {
        if fails(k) {
          return None;
        }
        fr := Page(At(server, k), startTime, endTime, limit);
      }
    }
    Rest(server, k, startTime, endTime, limit, all, retVal);
    SentRest(server, k, startTime, endTime, limit);
    r := Some(Reverse(retVal));
  }

  // ---------------------------------------------------------------- what is returned

  /** What a call returns, in the caller's order. */
  function Rates(h: seq<FundingRate>, from: int, to: int, limit: nat): seq<FundingRate>
  {
    Reverse(Collect(h, from, to, limit))
  }

  ghost predicate Has(h: seq<FundingRate>, t: int)
  {
    exists i :: 0 <= i < |h| && h[i].time == t
  }

  /**
   When is the record at `from` left out? When the interval is a single instant, or when
   the pages end just after a record at `from + 1`.
   */
  ghost predicate Misses(h: seq<FundingRate>, from: int, to: int, limit: nat)
    requires limit >= 1
  {
    && Has(h, from)
    && (from == to || (from < to && Has(h, from + 1) && |Range(h, from + 1, to)| % limit == 0))
  }

  /** Where a range starts and ends in an ascending history. */
  lemma RangeAt(h: seq<FundingRate>, from: int, to: int)
    requires Ascending(h) && from <= to + 1
    ensures var lo, hi := FirstAt(h, from), FirstAt(h, to + 1);
            lo <= hi && Range(h, from, to) == h[lo..hi]
  {
    hide Range;
    RangeSlice(h, from, to);
    FirstAtGrows(h, from, to + 1);
  }

  lemma {:induction false} FirstAtGrows(h: seq<FundingRate>, s: int, t: int)
    requires s <= t
    ensures FirstAt(h, s) <= FirstAt(h, t)
  {
  }

  lemma FirstAtRecord(h: seq<FundingRate>, i: nat)
    requires Ascending(h) && i < |h|
    ensures FirstAt(h, h[i].time) == i
  {
  }

  lemma FirstAtNext(h: seq<FundingRate>, t: int)
    requires Ascending(h)
    ensures FirstAt(h, t + 1) == FirstAt(h, t) + (if Has(h, t) then 1 else 0)
    ensures Has(h, t) <==> FirstAt(h, t) < |h| && h[FirstAt(h, t)].time == t
  {
    hide Ascending;
    var i, k := FirstAt(h, t), FirstAt(h, t + 1);
    FirstAtGrows(h, t, t + 1);
    if Has(h, t) {
      var j :| 0 <= j < |h| && h[j].time == t;
      FirstAtRecord(h, j);
      if j + 1 < k {
        After(h, j + 1, j + 1);
      }
    } else {
      assert i < |h| ==> h[i].time != t;
    }
  }

  /** The position of the oldest record on a page, and the page as a slice. */
  function PageStart(h: seq<FundingRate>, from: int, to: int, limit: nat): int
  {
    var lo, hi := FirstAt(h, from), FirstAt(h, to + 1);
    if hi - lo <= limit then lo else hi - limit
  }

  lemma PageSlice(h: seq<FundingRate>, from: int, to: int, limit: nat)
    requires Ascending(h) && from < to && limit >= 1 && |Page(h, from, to, limit)| > 0
    ensures var p, lo, hi := PageStart(h, from, to, limit), FirstAt(h, from), FirstAt(h, to + 1);
            var page := Page(h, from, to, limit);
            && lo <= p < hi && Reverse(page) == h[p..hi] && page[|page| - 1] == h[p]
  {
    hide Range, Ascending, FirstAt, Reverse;
    RangeAt(h, from, to);
    ReverseTwice(Newest(h, from, to, limit));
    ReverseAt(Newest(h, from, to, limit));
  }

  /** A page cuts its slice off the upper end of the range. */
  lemma RangeLess(h: seq<FundingRate>, b: int, to: int, p: nat)
    requires Ascending(h) && p < FirstAt(h, to + 1) && b <= h[p].time
    ensures h[p].time <= to
    ensures Range(h, b, to) == Range(h, b, h[p].time - 1) + h[p..FirstAt(h, to + 1)]
  {
    hide Range, Ascending, FirstAt;
    var lo, hi, t := FirstAt(h, b), FirstAt(h, to + 1), h[p].time;
    RangeAt(h, b, to);
    RangeAt(h, b, t - 1);
    FirstAtRecord(h, p);
    assert t - 1 + 1 == t;
    assert h[lo..hi] == h[lo..p] + h[p..hi];
  }

  lemma ModLess(x: nat, limit: nat)
    requires limit >= 1 && x >= limit
    ensures (x - limit) % limit == x % limit
  {
    var q, r := x / limit, x % limit;
    assert x - limit == (q - 1) * limit + r;
    ModUnique(x - limit, limit, q - 1, r);
  }

  /** How many records above `from` a page leaves to the pages after it. */
  lemma CountNext(h: seq<FundingRate>, from: int, to: int, limit: nat)
    requires Ascending(h) && from < to && limit >= 1 && |Page(h, from, to, limit)| > 0 && Has(h, from)
    ensures 0 <= PageStart(h, from, to, limit) < |h|
    ensures var t := h[PageStart(h, from, to, limit)].time;
            && from <= t
            && (t == from ==> |Range(h, from + 1, to)| < limit && (Has(h, from + 1) ==> |Range(h, from + 1, to)| > 0))
            && (t == from + 1 ==> Has(h, from + 1) && |Range(h, from + 1, to)| == limit)
            && (t > from + 1 ==> |Range(h, from + 1, to)| == |Range(h, from + 1, t - 1)| + limit)
  {
    hide Range, Page, Reverse, Ascending, Has, FirstAt;
    var p, lo, l1, hi := PageStart(h, from, to, limit), FirstAt(h, from), FirstAt(h, from + 1), FirstAt(h, to + 1);
    PageSlice(h, from, to, limit);
    FirstAtNext(h, from);
    FirstAtNext(h, from + 1);
    RangeAt(h, from + 1, to);
    FirstAtGrows(h, from + 2, to + 1);
    FirstAtRecord(h, p);
    if p > lo {
      After(h, l1, p);
      RangeAt(h, from + 1, h[p].time - 1);
    }
  }

  /** Whether the record at `from` is missed does not depend on the pages already taken. */
  lemma MissesNext(h: seq<FundingRate>, from: int, to: int, limit: nat)
    requires Ascending(h) && from < to && limit >= 1 && |Page(h, from, to, limit)| > 0
    ensures 0 <= PageStart(h, from, to, limit) < |h|
    ensures Misses(h, from, to, limit) <==> Misses(h, from, h[PageStart(h, from, to, limit)].time - 1, limit)
  {
    hide Range, Page, Reverse, Ascending, Has, FirstAt, PageStart;
    PageSlice(h, from, to, limit);
    if Has(h, from) {
      CountNext(h, from, to, limit);
      var t, n := h[PageStart(h, from, to, limit)].time, |Range(h, from + 1, to)|;
      if t == from {
        if n > 0 {
          SmallMod(n, limit);
        }
      } else if t == from + 1 {
        ModUnique(n, limit, 1, 0);
      } else {
        ModLess(n, limit);
      }
    }
  }

  lemma After(h: seq<FundingRate>, i: nat, p: nat)
    requires Ascending(h) && 0 < i <= p < |h|
    ensures h[i - 1].time < h[p].time
  {
  }

  lemma SmallMod(x: nat, limit: nat)
    requires 0 < x < limit
    ensures x % limit != 0
  {
  }

  /**
   Funding rates come back in ascending order, each once, and are exactly the records in
   [from, to], except that the one lying at `from` is left out under `Misses`.
   */
  lemma {:induction false} RatesAreExact(h: seq<FundingRate>, from: int, to: int, limit: nat)
    requires Ascending(h) && limit >= 1
    ensures Rates(h, from, to, limit) == Range(h, if Misses(h, from, to, limit) then from + 1 else from, to)
    decreases if from < to then to - from else 0
  {
    hide Range, Page, Reverse, Ascending, Misses;
    var page := Fetch(h, from, to, limit);
    if |page| == 0 {
      NoPage(h, from, to, limit);
    } else {
      var p, hi := PageStart(h, from, to, limit), FirstAt(h, to + 1);
      PageSlice(h, from, to, limit);
      MissesNext(h, from, to, limit);
      var to' := h[p].time - 1;
      PageBounds(h, from, to, limit);
      RatesAreExact(h, from, to', limit);
      ReverseConcat(page, Collect(h, from, to', limit));
      var b := if Misses(h, from, to, limit) then from + 1 else from;
      MissedIsOlder(h, from, to, limit, p);
      RangeLess(h, b, to, p);
    }
  }

  /** A page that contains the record at `from` is the end of a complete download. */
  lemma MissedIsOlder(h: seq<FundingRate>, from: int, to: int, limit: nat, p: nat)
    requires Ascending(h) && from < to && limit >= 1 && |Page(h, from, to, limit)| > 0
    requires p == PageStart(h, from, to, limit)
    ensures p < |h| && from <= h[p].time
    ensures Misses(h, from, to, limit) ==> from + 1 <= h[p].time
  {
    hide Range, Page, Reverse;
    PageSlice(h, from, to, limit);
    MissesNext(h, from, to, limit);
    var lo := FirstAt(h, from);
    assert h[lo].time <= h[p].time;
    assert h[p].time == from ==> !Misses(h, from, h[p].time - 1, limit);
  }

  lemma NoPage(h: seq<FundingRate>, from: int, to: int, limit: nat)
    requires Ascending(h) && limit >= 1 && |Fetch(h, from, to, limit)| == 0
    ensures Rates(h, from, to, limit) == Range(h, if Misses(h, from, to, limit) then from + 1 else from, to)
  {
    hide Range;
    if from < to {
      assert |Range(h, from, to)| == 0;
      if Has(h, from) {
        FirstAtNext(h, from);
        RangeAt(h, from, to);
        FirstAtGrows(h, from + 1, to + 1);
        assert false;
      }
    } else if from == to {
      if Has(h, from) {
        RangeNone(h, from + 1, to);
      } else {
        RangeNone(h, from, to);
      }
    } else {
      RangeNone(h, from, to);
    }
  }

  /** A call is complete exactly when it does not miss the record at `from`. */
  lemma CompleteExactlyWhenNotMissed(h: seq<FundingRate>, from: int, to: int, limit: nat)
    requires Ascending(h) && limit >= 1
    ensures Rates(h, from, to, limit) == Range(h, from, to) <==> !Misses(h, from, to, limit)
  {
    hide Range, Page, Reverse, Rates, Ascending;
    RatesAreExact(h, from, to, limit);
    if Misses(h, from, to, limit) {
      var i :| 0 <= i < |h| && h[i].time == from;
      RangeMembers(h, from, to, h[i]);
      RangeMembers(h, from + 1, to, h[i]);
    }
  }

  /** Funding is paid hours apart: two milliseconds are enough for completeness. */
  lemma TwoMillisecondsApartIsComplete(h: seq<FundingRate>, from: int, to: int, limit: nat)
    requires Ascending(h) && limit >= 1 && from < to
    requires forall i, j :: 0 <= i < j < |h| ==> h[j].time - h[i].time >= 2
    ensures Rates(h, from, to, limit) == Range(h, from, to)
  {
    hide Range, Rates;
    CompleteExactlyWhenNotMissed(h, from, to, limit);
  }

  /** With two records one millisecond apart and a page size of one, the first is left out. */
  lemma FirstRateCanBeMissed(a: real, b: real)
    ensures var h := [Record(0, a), Record(1, b)]; Rates(h, 0, 1, 1) == [h[1]]
  {
    var h := [Record(0, a), Record(1, b)];
    hide Range, Rates;
    RangeAt(h, 1, 1);
    assert h[1..2] == [h[1]];
    assert Has(h, 0) && Has(h, 1) by {
      assert h[0].time == 0 && h[1].time == 1;
    }
    ModUnique(|Range(h, 1, 1)|, 1, 1, 0);
    RatesAreExact(h, 0, 1, 1);
  }

  // ---------------------------------------------------------------- a server that grows

  /** Records are only appended, each later than all before it. */
  ghost predicate Grows(h: seq<FundingRate>, later: seq<FundingRate>)
  {
    h <= later && Ascending(later)
  }

  ghost predicate AppendOnly(server: nat -> seq<FundingRate>)
  {
    forall j: nat, k: nat :: j <= k ==> Grows(At(server, j), At(server, k))
  }

  /** Nothing that was appended lies at or before `to`. */
  ghost predicate SameUpTo(h: seq<FundingRate>, later: seq<FundingRate>, to: int)
  {
    h <= later && forall i :: |h| <= i < |later| ==> later[i].time > to
  }

  lemma FetchTheSame(h: seq<FundingRate>, later: seq<FundingRate>, from: int, to: int, limit: nat)
    requires SameUpTo(h, later, to)
    ensures Fetch(later, from, to, limit) == Fetch(h, from, to, limit)
  {
    hide Range, Reverse;
    assert later == h + later[|h|..];
    RangeDrop(h, later[|h|..], from, to);
  }

  lemma SameBelow(h: seq<FundingRate>, later: seq<FundingRate>, to: int, lower: int)
    requires SameUpTo(h, later, to) && lower <= to
    ensures SameUpTo(h, later, lower)
  {
  }

  lemma {:induction false} CollectTheSame(h: seq<FundingRate>, later: seq<FundingRate>, from: int, to: int, limit: nat)
    requires SameUpTo(h, later, to)
    ensures Collect(later, from, to, limit) == Collect(h, from, to, limit)
    decreases if from < to then to - from else 0
  {
    hide Page, SameUpTo;
    FetchTheSame(h, later, from, to, limit);
    var page := Fetch(h, from, to, limit);
    if |page| > 0 {
      PageBounds(h, from, to, limit);
      SameBelow(h, later, to, page[|page| - 1].time - 1);
      CollectTheSame(h, later, from, page[|page| - 1].time - 1, limit);
    }
  }

  /** What is appended lies after every record of a page taken before. */
  lemma AppendedLater(h: seq<FundingRate>, later: seq<FundingRate>, p: nat)
    requires Grows(h, later) && p < |h|
    ensures SameUpTo(h, later, h[p].time - 1)
  {
    assert h[p] == later[p];
  }

  lemma {:induction false} LiveIsStill(server: nat -> seq<FundingRate>, k: nat, from: int, to: int, limit: nat)
    requires AppendOnly(server) && limit >= 1
    ensures CollectLive(server, k, from, to, limit) == Collect(At(server, k), from, to, limit)
    decreases if from < to then to - from else 0
  {
    hide Page, At, Ascending, Reverse;
    var h, page := At(server, k), Fetch(At(server, k), from, to, limit);
    if |page| > 0 {
      assert Grows(h, h) && Grows(h, At(server, k + 1));
      PageBounds(h, from, to, limit);
      PageSlice(h, from, to, limit);
      var to' := page[|page| - 1].time - 1;
      LiveIsStill(server, k + 1, from, to', limit);
      AppendedLater(h, At(server, k + 1), PageStart(h, from, to, limit));
      CollectTheSame(h, At(server, k + 1), from, to', limit);
    }
  }

  /**
   A download from a server that only appends returns what it would have returned had the
   server stood still from its first request on: pages go down, and records are added above.
   */
  lemma LiveRatesAreOfTheFirstSnapshot(server: nat -> seq<FundingRate>, first: nat, from: int, to: int, limit: nat)
    requires AppendOnly(server) && limit >= 1
    ensures Reverse(CollectLive(server, first, from, to, limit)) == Rates(At(server, first), from, to, limit)
  {
    hide AppendOnly, CollectLive, Collect, At;
    LiveIsStill(server, first, from, to, limit);
  }

  // ---------------------------------------------------------------- the connector

  predicate OldestFirst(s: seq<FundingRate>)
  {
    forall i, j :: 0 <= i < j < |s| ==> s[i].time <= s[j].time
  }

  lemma TailInOrder(s: seq<FundingRate>)
    requires s != []
    ensures OldestFirst(s) ==> OldestFirst(s[1..])
    ensures Ascending(s) ==> Ascending(s[1..])
  {
  }

  lemma TailMultiset(s: seq<FundingRate>)
    requires s != []
    ensures s == [s[0]] + s[1..] && multiset(s[1..]) == multiset(s) - multiset{s[0]}
  {
    assert s == [s[0]] + s[1..];
  }

  lemma SameLength(s: seq<FundingRate>, t: seq<FundingRate>)
    requires multiset(s) == multiset(t)
    ensures |s| == |t|
  {
    assert |s| == |multiset(s)| == |multiset(t)| == |t|;
  }

  lemma {:induction false} SameMultiset(s: seq<FundingRate>, t: seq<FundingRate>)
    requires Ascending(s) && OldestFirst(t) && multiset(s) == multiset(t)
    ensures s == t
  {
    hide Ascending, OldestFirst;
    SameLength(s, t);
    if s != [] {
      HeadsAgree(s, t);
      TailInOrder(s);
      TailInOrder(t);
      TailMultiset(s);
      TailMultiset(t);
      SameMultiset(s[1..], t[1..]);
    }
  }

  lemma FirstIsOldest(s: seq<FundingRate>, r: FundingRate)
    requires OldestFirst(s) && r in s
    ensures s[0].time <= r.time
    ensures Ascending(s) && r.time == s[0].time ==> r == s[0]
  {
  }

  lemma HeadsAgree(s: seq<FundingRate>, t: seq<FundingRate>)
    requires Ascending(s) && OldestFirst(t) && multiset(s) == multiset(t) && |s| > 0 && |t| > 0
    ensures s[0] == t[0]
  {
    assert s[0] in multiset(t) && t[0] in multiset(s);
    FirstIsOldest(s, t[0]);
    FirstIsOldest(t, s[0]);
  }

  /** The connector sorts the rates again by time; any sort leaves them as they are. */
  lemma SortingChangesNothing(h: seq<FundingRate>, from: int, to: int, limit: nat, sorted: seq<FundingRate>)
    requires Ascending(h) && limit >= 1
    requires multiset(sorted) == multiset(Rates(h, from, to, limit))
    requires OldestFirst(sorted)
    ensures sorted == Rates(h, from, to, limit)
  {
    hide Rates, Range, Ascending, Misses;
    RatesAreExact(h, from, to, limit);
    RangeAscends(h, if Misses(h, from, to, limit) then from + 1 else from, to);
    SameMultiset(Rates(h, from, to, limit), sorted);
  }
}
