/** The names of streams: how a subscription is spelled, and how a topic is read back. */
module StreamTopics {
  import opened Enums
  import opened Text

  predicate OccursAt(s: string, part: string, i: nat)
  {
    i + |part| <= |s| && s[i..i + |part|] == part
  }

  predicate Contains(s: string, part: string)
  {
    exists i :: 0 <= i <= |s| && OccursAt(s, part, i)
  }

  /** The symbol is the last record of a topic. */
  function ReadSymbol(topic: string): string
  {
    var records := Split(topic, '.');
    records[|records| - 1]
  }

  function TickerFilter(pair: string): string
  {
    "tickers." + pair
  }

  function KlinePrefix(interval: CandleInterval): string
  {
    "kline." + Name(interval) + "."
  }

  function KlineFilter(pair: string, interval: CandleInterval): string
  {
    KlinePrefix(interval) + pair
  }

  datatype Branch = Ticker | Kline | Neither

  /** Which branch of the event callback a topic takes. */
  function BranchOf(topic: string): Branch
  {
    if Contains(topic, "tickers") then Ticker else if Contains(topic, "kline") then Kline else Neither
  }

  /** What comes before a separator does not matter for the last record. */
  lemma {:induction false} SymbolAfterDot(before: string, pair: string)
    ensures ReadSymbol(before + "." + pair) == ReadSymbol(pair)
  {
    var s := before + "." + pair;
    if before == [] {
      assert s[1..] == pair && s[0] == '.';
    } else {
      assert s[1..] == before[1..] + "." + pair;
      SymbolAfterDot(before[1..], pair);
      var rest := Split(s[1..], '.');
      if before[0] != '.' && |rest| == 1 {
        SplitHasDot(s[1..], |before| - 1);
      }
    }
  }

  lemma {:induction false} SplitHasDot(s: string, i: nat)
    requires i < |s| && s[i] == '.'
    ensures |Split(s, '.')| >= 2
  {
    if i > 0 {
      SplitHasDot(s[1..], i - 1);
    }
  }

  /** The symbol read from a filter is the pair it was built for. */
  lemma FilterNamesPair(pair: string, interval: CandleInterval)
    requires '.' !in pair
    ensures ReadSymbol(TickerFilter(pair)) == pair
    ensures ReadSymbol(KlineFilter(pair, interval)) == pair
  {
    hide Split;
    SplitPlain(pair, '.');
    SymbolAfterDot("tickers", pair);
    assert TickerFilter(pair) == "tickers" + "." + pair;
    SymbolAfterDot("kline." + Name(interval), pair);
    assert KlineFilter(pair, interval) == ("kline." + Name(interval)) + "." + pair;
  }

  /** A filter consists of its kind, for candles the interval, and the pair. */
  lemma FilterRecords(pair: string, interval: CandleInterval)
    requires '.' !in pair
    ensures Split(TickerFilter(pair), '.') == ["tickers", pair]
    ensures Split(KlineFilter(pair, interval), '.') == ["kline", Name(interval), pair]
  {
    hide Split;
    SplitPlain(pair, '.');
    SplitFirst("tickers", '.', pair);
    assert TickerFilter(pair) == "tickers" + "." + pair;
    SplitFirst(Name(interval), '.', pair);
    SplitFirst("kline", '.', Name(interval) + "." + pair);
    assert KlineFilter(pair, interval) == "kline" + "." + (Name(interval) + "." + pair);
  }

  lemma NamesDiffer(a: CandleInterval, b: CandleInterval)
    requires Name(a) == Name(b)
    ensures a == b
  {
  }

  /** Different pairs or intervals have different filters. */
  lemma KlineFilterIsInjective(p: string, a: CandleInterval, q: string, b: CandleInterval)
    requires '.' !in p && '.' !in q && KlineFilter(p, a) == KlineFilter(q, b)
    ensures p == q && a == b
  {
    hide ReadSymbol, Name;
    FilterNamesPair(p, a);
    FilterNamesPair(q, b);
    var n := |KlinePrefix(a)|;
    assert KlineFilter(p, a)[..n] == KlinePrefix(a);
    assert KlineFilter(q, b)[..n] == KlinePrefix(b);
    assert KlinePrefix(a)[6..n - 1] == Name(a) && KlinePrefix(b)[6..n - 1] == Name(b);
    NamesDiffer(a, b);
  }

  /** A text occurs in the second part of another exactly where it occurs in the whole, shifted. */
  lemma OccursShifted(before: string, s: string, part: string, i: nat)
    ensures OccursAt(s, part, i) <==> OccursAt(before + s, part, |before| + i)
  {
  }

  lemma OccursLetter(s: string, part: string, i: nat, j: nat)
    requires OccursAt(s, part, i) && j < |part|
    ensures s[i + j] == part[j]
  {
  }

  /** A text contains another exactly when it is made of it and what stands before and after it. */
  lemma ContainsExactlyWhen(s: string, part: string)
    ensures Contains(s, part) <==> exists before: string, after: string :: s == before + part + after
  {
    if Contains(s, part) {
      var i :| 0 <= i <= |s| && OccursAt(s, part, i);
      assert s == s[..i] + part + s[i + |part|..];
    }
    if before: string, after: string :| s == before + part + after {
      assert s[|before|..|before| + |part|] == part;
      assert OccursAt(s, part, |before|);
    }
  }

  /** No part of a candle filter but the pair can spell "tickers". */
  lemma TickersOnlyInPair(pair: string, interval: CandleInterval, i: nat)
    requires i < |KlinePrefix(interval)|
    ensures !OccursAt(KlineFilter(pair, interval), "tickers", i)
  {
    var s, n := KlineFilter(pair, interval), |KlinePrefix(interval)|;
    assert 8 <= n <= 10 && s[n - 1] == '.';
    assert s[i] == 't' ==> i >= 6 by {
      assert i < 6 ==> s[i] == "kline."[i];
    }
    if OccursAt(s, "tickers", i) {
      OccursLetter(s, "tickers", i, 0);
      OccursLetter(s, "tickers", i, n - 1 - i);
      assert false;
    }
  }

  /**
   A topic built for candles reaches the candle branch exactly when its pair does not spell
   "tickers"; a topic built for tickers always reaches the ticker branch.
   */
  lemma FilterReachesItsBranch(pair: string, interval: CandleInterval)
    ensures BranchOf(TickerFilter(pair)) == Ticker
    ensures BranchOf(KlineFilter(pair, interval)) == Kline <==> !Contains(pair, "tickers")
  {
    hide OccursAt;
    TickersInPair(pair, interval);
    StartsWithItsKind(pair, interval);
  }

  lemma StartsWithItsKind(pair: string, interval: CandleInterval)
    ensures OccursAt(TickerFilter(pair), "tickers", 0) && OccursAt(KlineFilter(pair, interval), "kline", 0)
  {
  }

  lemma TickersInPair(pair: string, interval: CandleInterval)
    ensures Contains(KlineFilter(pair, interval), "tickers") <==> Contains(pair, "tickers")
  {
    hide OccursAt, KlinePrefix;
    var s, n := KlineFilter(pair, interval), |KlinePrefix(interval)|;
    if Contains(pair, "tickers") {
      var i :| 0 <= i <= |pair| && OccursAt(pair, "tickers", i);
      OccursShifted(KlinePrefix(interval), pair, "tickers", i);
    }
    if Contains(s, "tickers") {
      var i :| 0 <= i <= |s| && OccursAt(s, "tickers", i);
      if i < n {
        TickersOnlyInPair(pair, interval, i);
        assert false;
      } else {
        OccursShifted(KlinePrefix(interval), pair, "tickers", i - n);
      }
    }
  }
}
