/**
 The cache behind the stream readers: the last known ticker of each symbol, and the last
 candle of each symbol and interval, kept up to date by the event callback.
 */
module StreamCache {
  import opened Enums
  import opened StreamTopics
  import opened Wrappers

  /** A field of an event: the key is absent, or its value does not read, or it reads as a value. */
  datatype Json<T> = Absent | Malformed | Carries(value: T)

  datatype TickerData = TickerData(
    symbol: Json<string>,
    ask1Price: Json<real>,
    ask1Size: Json<real>,
    bid1Price: Json<real>,
    bid1Size: Json<real>,
    lastPrice: Json<real>)

  datatype KlineData = KlineData(
    start: Json<int>,
    end: Json<int>,
    interval: Json<string>,
    open: Json<real>,
    high: Json<real>,
    low: Json<real>,
    close: Json<real>,
    volume: Json<real>,
    turnover: Json<real>,
    confirm: Json<bool>,
    timestamp: Json<int>)

  datatype Payload = TickerPayload(ticker: TickerData) | KlinePayload(candles: seq<KlineData>)

  datatype Event = Event(topic: string, data: Payload)

  datatype EventTicker = EventTicker(
    symbol: string, ask1Price: real, ask1Size: real, bid1Price: real, bid1Size: real, lastPrice: real)

  datatype EventCandlestick = EventCandlestick(
    start: int, end: int, interval: string, open: real, high: real, low: real, close: real,
    volume: real, turnover: real, confirm: bool, timestamp: int)

  const NO_TICKER := EventTicker("", 0.0, 0.0, 0.0, 0.0, 0.0)

  /** A reader that keeps the default when the key is absent. */
  function Or<T>(field: Json<T>, default: T): T
  {
    if field.Carries? then field.value else default
  }

  predicate Complete(d: TickerData)
  {
    !(d.symbol.Malformed? || d.ask1Price.Malformed? || d.ask1Size.Malformed? || d.bid1Price.Malformed?
      || d.bid1Size.Malformed? || d.lastPrice.Malformed?)
  }

  /**
   Snapshots and deltas alike overwrite the fields they carry, one by one; a malformed field
   throws, and what was overwritten before it stays so.
   */
  function Merged(t: EventTicker, d: TickerData): EventTicker
  {
    var t1 := t.(symbol := Or(d.symbol, t.symbol));
    var t2 := t1.(ask1Price := Or(d.ask1Price, t.ask1Price));
    var t3 := t2.(ask1Size := Or(d.ask1Size, t.ask1Size));
    var t4 := t3.(bid1Price := Or(d.bid1Price, t.bid1Price));
    var t5 := t4.(bid1Size := Or(d.bid1Size, t.bid1Size));
    if d.symbol.Malformed? then t
    else if d.ask1Price.Malformed? then t1
    else if d.ask1Size.Malformed? then t2
    else if d.bid1Price.Malformed? then t3
    else if d.bid1Size.Malformed? then t4
    else if d.lastPrice.Malformed? then t5
    else t5.(lastPrice := Or(d.lastPrice, t.lastPrice))
  }

  /** The reader of a ticker; it throws exactly at data that are not complete. */
  method ReadInto(ticker: EventTicker, d: TickerData) returns (t: EventTicker, ok: bool)
    ensures t == Merged(ticker, d) && ok == Complete(d)
  {
    t := ticker;
    ok := false;
    if d.symbol.Malformed? {
      return;
    }
    t := t.(symbol := Or(d.symbol, t.symbol));
    if d.ask1Price.Malformed? {
      return;
    }
    t := t.(ask1Price := Or(d.ask1Price, t.ask1Price));
    if d.ask1Size.Malformed? {
      return;
    }
    t := t.(ask1Size := Or(d.ask1Size, t.ask1Size));
    if d.bid1Price.Malformed? {
      return;
    }
    t := t.(bid1Price := Or(d.bid1Price, t.bid1Price));
    if d.bid1Size.Malformed? {
      return;
    }
    t := t.(bid1Size := Or(d.bid1Size, t.bid1Size));
    if d.lastPrice.Malformed? {
      return;
    }
    t := t.(lastPrice := Or(d.lastPrice, t.lastPrice));
    ok := true;
  }

  predicate CompleteCandle(d: KlineData)
  {
    !(d.start.Malformed? || d.end.Malformed? || d.interval.Malformed? || d.open.Malformed? || d.high.Malformed?
      || d.low.Malformed? || d.close.Malformed? || d.volume.Malformed? || d.turnover.Malformed?
      || d.confirm.Malformed? || d.timestamp.Malformed?)
  }

  /** A candle is read afresh, from defaults. */
  function CandleOf(d: KlineData): EventCandlestick
  {
    EventCandlestick(Or(d.start, 0), Or(d.end, 0), Or(d.interval, ""), Or(d.open, 0.0), Or(d.high, 0.0), Or(d.low, 0.0),
                     Or(d.close, 0.0), Or(d.volume, 0.0), Or(d.turnover, 0.0), Or(d.confirm, false), Or(d.timestamp, 0))
  }

  function IntervalOf(name: string): Option<CandleInterval>
  {
    if name == "1" then Some(I1) else if name == "3" then Some(I3) else if name == "5" then Some(I5)
    else if name == "15" then Some(I15) else if name == "30" then Some(I30) else if name == "60" then Some(I60)
    else if name == "120" then Some(I120) else if name == "240" then Some(I240) else if name == "360" then Some(I360)
    else if name == "720" then Some(I720) else if name == "D" then Some(ID) else if name == "M" then Some(IM)
    else if name == "W" then Some(IW) else None
  }

  /** A text is read as an interval exactly when it is its name. */
  lemma IntervalOfName(name: string, interval: CandleInterval)
    ensures IntervalOf(name) == Some(interval) <==> name == Name(interval)
  {
  }

  // ---------------------------------------------------------------- the callback, as a function

  datatype Cache = Cache(tickers: map<string, EventTicker>, candlesticks: map<string, map<CandleInterval, EventCandlestick>>)

  const EMPTY := Cache(map[], map[])

  /**
   The behaviour of the callback is defined: the candle branch does not look at the first
   element of an empty list, nor store under the interval of an unknown name.
   */
  predicate Defined(e: Event)
  {
    BranchOf(e.topic) == Kline && e.data.KlinePayload? ==>
      && e.data.candles != []
      && (CompleteCandle(e.data.candles[0]) ==> IntervalOf(CandleOf(e.data.candles[0]).interval).Some?)
  }

  /** An event that throws is logged; what it had stored by then stays. */
  function AfterEvent(c: Cache, e: Event): Cache
    requires Defined(e)
  {
    match BranchOf(e.topic)
    case Ticker =>
      var symbol := ReadSymbol(e.topic);
      if !e.data.TickerPayload? then c
      else if symbol in c.tickers then c.(tickers := c.tickers[symbol := Merged(c.tickers[symbol], e.data.ticker)])
      else if !Complete(e.data.ticker) then c
      else
        var t := Merged(NO_TICKER, e.data.ticker);
        c.(tickers := c.tickers[t.symbol := t])
    case Kline =>
      if !e.data.KlinePayload? || !CompleteCandle(e.data.candles[0]) then c
      else
        var symbol, candle := ReadSymbol(e.topic), CandleOf(e.data.candles[0]);
        var known := if symbol in c.candlesticks then c.candlesticks[symbol] else map[];
        c.(candlesticks := c.candlesticks[symbol := known[IntervalOf(candle.interval).value := candle]])
    case Neither => c
  }

  function ReadTicker(c: Cache, pair: string): Option<EventTicker>
  {
    if pair in c.tickers then Some(c.tickers[pair]) else None
  }

  function ReadCandle(c: Cache, pair: string, interval: CandleInterval): Option<EventCandlestick>
  {
    if pair in c.candlesticks && interval in c.candlesticks[pair] then Some(c.candlesticks[pair][interval]) else None
  }

  // ---------------------------------------------------------------- the object

  class StreamManager {
    var tickers: map<string, EventTicker>
    var candlesticks: map<string, map<CandleInterval, EventCandlestick>>

    function Value(): Cache
      reads this
    {
      Cache(tickers, candlesticks)
    }

    constructor ()
      ensures Value() == EMPTY
    {
      tickers, candlesticks := map[], map[];
    }

    method OnEvent(e: Event)
      requires Defined(e)
      modifies this
      ensures Value() == AfterEvent(old(Value()), e)
    {
      if Contains(e.topic, "tickers") {
        if e.data.TickerPayload? {
          var symbol := ReadSymbol(e.topic);
          if symbol !in tickers {
            var eventTicker, ok := ReadInto(NO_TICKER, e.data.ticker);
            if ok {
              tickers := tickers[eventTicker.symbol := eventTicker];
            }
          } else {
            var eventTicker, ok := ReadInto(tickers[symbol], e.data.ticker);
            tickers := tickers[symbol := eventTicker];
          }
        }
      } else if Contains(e.topic, "kline") {
        if e.data.KlinePayload? && CompleteCandle(e.data.candles[0]) {
          var candle := CandleOf(e.data.candles[0]);
          var symbol := ReadSymbol(e.topic);
          if symbol !in candlesticks {
            candlesticks := candlesticks[symbol := map[]];
          }
          var interval := IntervalOf(candle.interval).value;
          candlesticks := candlesticks[symbol := candlesticks[symbol][interval := candle]];
        }
      }
    }
  }

  // ---------------------------------------------------------------- the readers

  /** A reader gives up after a hundred looks for each second, or when the timeout is set to zero. */
  predicate GivesUp(timeout: int, timeouts: nat -> int, k: nat)
  {
    k > 100 * timeout || timeouts(k) == 0
  }

  /**
   The reader looks again and again, while other threads may change the cache and the timeout:
   caches(k) and timeouts(k) are what it meets when it looks for the k-th time, from 0.
   It returns what its first successful look finds, after `tries` looks that found nothing.
   */
  method ReadEventTicker(caches: nat -> Cache, timeout: int, timeouts: nat -> int, pair: string)
    returns (t: Option<EventTicker>, tries: nat)
    ensures forall k :: 0 <= k < tries ==> !GivesUp(timeout, timeouts, k) && ReadTicker(caches(k), pair) == None
    ensures t.Some? ==> !GivesUp(timeout, timeouts, tries) && ReadTicker(caches(tries), pair) == t
    ensures t.None? ==> GivesUp(timeout, timeouts, tries)
  {
    tries := 0;
    var maxNumTries := 100 * timeout;
    while tries <= maxNumTries
      invariant forall k :: 0 <= k < tries ==> !GivesUp(timeout, timeouts, k) && ReadTicker(caches(k), pair) == None
    {
      if timeouts(tries) == 0 {
        break;
      }
      var tickers := caches(tries).tickers;
      if pair in tickers {
        return Some(tickers[pair]), tries;
      }
      tries := tries + 1;
    }
    t := None;
  }

  method ReadEventCandlestick(
      caches: nat -> Cache, timeout: int, timeouts: nat -> int, pair: string, interval: CandleInterval)
    returns (c: Option<EventCandlestick>, tries: nat)
    ensures forall k :: 0 <= k < tries ==> !GivesUp(timeout, timeouts, k) && ReadCandle(caches(k), pair, interval) == None
    ensures c.Some? ==> !GivesUp(timeout, timeouts, tries) && ReadCandle(caches(tries), pair, interval) == c
    ensures c.None? ==> GivesUp(timeout, timeouts, tries)
  {
    tries := 0;
    var maxNumTries := 100 * timeout;
    while tries <= maxNumTries
      invariant forall k :: 0 <= k < tries ==> !GivesUp(timeout, timeouts, k) && ReadCandle(caches(k), pair, interval) == None
    {
      if timeouts(tries) == 0 {
        break;
      }
      var candlesticks := caches(tries).candlesticks;
      if pair in candlesticks {
        if interval in candlesticks[pair] {
          return Some(candlesticks[pair][interval]), tries;
        }
      }
      tries := tries + 1;
    }
    c := None;
  }

  /** Undisturbed, a reader that finds nothing looks a hundred times for each second and once more. */
  lemma UndisturbedLooks(timeout: nat, timeouts: nat -> int, k: nat)
    requires forall j: nat :: timeouts(j) != 0
    ensures GivesUp(timeout, timeouts, k) <==> k >= 100 * timeout + 1
  {
  }

  /** A timeout of zero, or below, ends it at once. */
  lemma ZeroTimeoutStops(timeout: int, timeouts: nat -> int, k: nat)
    requires timeouts(k) == 0 || timeout < 0
    ensures GivesUp(timeout, timeouts, k)
  {
  }

  // ---------------------------------------------------------------- logs

  datatype Stream = TickerStream(symbol: string) | KlineStream(pair: string, interval: CandleInterval)

  /** Whether an event belongs to a stream, and can be read as one of its kind. */
  predicate On(e: Event, stream: Stream)
  {
    match stream
    case TickerStream(symbol) => BranchOf(e.topic) == Ticker && ReadSymbol(e.topic) == symbol && e.data.TickerPayload?
    case KlineStream(pair, interval) =>
      && BranchOf(e.topic) == Kline && ReadSymbol(e.topic) == pair && e.data.KlinePayload? && e.data.candles != []
      && CompleteCandle(e.data.candles[0])
      && e.data.candles[0].interval == Carries(Name(interval))
  }

  /** The events of one stream, in order. */
  function Project(log: seq<Event>, stream: Stream): seq<Event>
  {
    if log == [] then []
    else
      var e := log[|log| - 1];
      Project(log[..|log| - 1], stream) + if On(e, stream) then [e] else []
  }

  /**
   A well-formed log: a ticker event that names a symbol names that of its topic, and the first
   one of a symbol does so and is complete. Any other event may be malformed.
   */
  predicate WellFormed(log: seq<Event>)
  {
    log != [] ==>
      var before, e := log[..|log| - 1], log[|log| - 1];
      && WellFormed(before)
      && Defined(e)
      && (BranchOf(e.topic) == Ticker && e.data.TickerPayload? ==>
            Introduced(e.data.ticker, ReadSymbol(e.topic), Project(before, TickerStream(ReadSymbol(e.topic))) != []))
  }

  predicate Introduced(d: TickerData, symbol: string, known: bool)
  {
    && (d.symbol.Carries? ==> d.symbol.value == symbol)
    && (!known ==> d.symbol.Carries? && Complete(d))
  }

  /** The cache after a log. */
  function CacheOf(log: seq<Event>): Cache
    requires WellFormed(log)
  {
    if log == [] then EMPTY else AfterEvent(CacheOf(log[..|log| - 1]), log[|log| - 1])
  }

  // ---------------------------------------------------------------- what the cache should hold

  datatype Field = Ask1Price | Ask1Size | Bid1Price | Bid1Size | LastPrice

  function Raw(d: TickerData, f: Field): Json<real>
  {
    match f
    case Ask1Price => d.ask1Price
    case Ask1Size => d.ask1Size
    case Bid1Price => d.bid1Price
    case Bid1Size => d.bid1Size
    case LastPrice => d.lastPrice
  }

  /** Nothing that is read before a field is malformed. */
  predicate Reached(d: TickerData, f: Field)
  {
    && !d.symbol.Malformed?
    && match f
       case Ask1Price => true
       case Ask1Size => !d.ask1Price.Malformed?
       case Bid1Price => !d.ask1Price.Malformed? && !d.ask1Size.Malformed?
       case Bid1Size => !d.ask1Price.Malformed? && !d.ask1Size.Malformed? && !d.bid1Price.Malformed?
       case LastPrice =>
         !d.ask1Price.Malformed? && !d.ask1Size.Malformed? && !d.bid1Price.Malformed? && !d.bid1Size.Malformed?
  }

  /** The value an event carries for a field, up to its first malformed one. */
  function Carried(d: TickerData, f: Field): Option<real>
  {
    if Reached(d, f) && Raw(d, f).Carries? then Some(Raw(d, f).value) else None
  }

  function Get(t: EventTicker, f: Field): real
  {
    match f
    case Ask1Price => t.ask1Price
    case Ask1Size => t.ask1Size
    case Bid1Price => t.bid1Price
    case Bid1Size => t.bid1Size
    case LastPrice => t.lastPrice
  }

  /** The last value that a sequence of ticker events carries for a field, or 0. */
  function LastCarried(events: seq<Event>, f: Field): real
  {
    if events == [] then 0.0
    else
      var e := events[|events| - 1];
      if e.data.TickerPayload? && Carried(e.data.ticker, f).Some? then Carried(e.data.ticker, f).value
      else LastCarried(events[..|events| - 1], f)
  }

  /** What the reader of a ticker should get, from the events of its own stream alone. */
  ghost predicate TickerIsLatest(t: Option<EventTicker>, symbol: string, own: seq<Event>)
  {
    if own == [] then t == None
    else t.Some? && t.value.symbol == symbol && forall f :: Get(t.value, f) == LastCarried(own, f)
  }

  /** A value read from a field: the one it carries, or the default. */
  predicate Reads<T(==)>(value: T, field: Json<T>, default: T)
  {
    match field
    case Carries(v) => value == v
    case Absent => value == default
    case Malformed => false
  }

  /** A candle holds each field of the data under its own name. */
  predicate HoldsFields(c: EventCandlestick, d: KlineData)
  {
    && Reads(c.start, d.start, 0) && Reads(c.end, d.end, 0) && Reads(c.interval, d.interval, "")
    && Reads(c.open, d.open, 0.0) && Reads(c.high, d.high, 0.0) && Reads(c.low, d.low, 0.0)
    && Reads(c.close, d.close, 0.0) && Reads(c.volume, d.volume, 0.0) && Reads(c.turnover, d.turnover, 0.0)
    && Reads(c.confirm, d.confirm, false) && Reads(c.timestamp, d.timestamp, 0)
  }

  /** What the reader of a candle should get, from the events of its own stream alone. */
  predicate CandleIsLatest(c: Option<EventCandlestick>, own: seq<Event>)
  {
    if own == [] then c == None
    else
      var e := own[|own| - 1];
      c.Some? && e.data.KlinePayload? && e.data.candles != [] && HoldsFields(c.value, e.data.candles[0])
  }

  // ---------------------------------------------------------------- theorems over every log

  lemma MergedFields(t: EventTicker, d: TickerData, f: Field)
    ensures Get(Merged(t, d), f) == if Carried(d, f).Some? then Carried(d, f).value else Get(t, f)
  {
  }

  lemma MergedSymbol(t: EventTicker, d: TickerData, symbol: string, known: bool)
    requires Introduced(d, symbol, known) && (known ==> t.symbol == symbol)
    ensures Merged(t, d).symbol == symbol
  {
  }

  lemma TickerStep(c: Cache, e: Event, symbol: string, own: seq<Event>)
    requires BranchOf(e.topic) == Ticker && e.data.TickerPayload?
    requires TickerIsLatest(ReadTicker(c, symbol), symbol, own)
    requires Introduced(e.data.ticker, ReadSymbol(e.topic), ReadSymbol(e.topic) in c.tickers)
    ensures var own' := if On(e, TickerStream(symbol)) then own + [e] else own;
            TickerIsLatest(ReadTicker(AfterEvent(c, e), symbol), symbol, own')
  {
    hide BranchOf, ReadSymbol, Merged, Get, Carried;
    var key, d := ReadSymbol(e.topic), e.data.ticker;
    var t := if key in c.tickers then c.tickers[key] else NO_TICKER;
    if key == symbol {
      var own' := own + [e];
      assert own'[..|own'| - 1] == own;
      MergedSymbol(t, d, symbol, symbol in c.tickers);
      NoTickerIsZero();
      forall f ensures Get(Merged(t, d), f) == LastCarried(own', f) {
        MergedFields(t, d, f);
      }
    } else if key !in c.tickers {
      MergedSymbol(t, d, key, false);
    }
  }

  lemma NoTickerIsZero()
    ensures forall f :: Get(NO_TICKER, f) == 0.0
  {
  }

  /**
   Each cached ticker holds, field by field, the last value its own stream carried, and
   exists exactly when that stream has had an event.
   */
  lemma {:induction false} TickersAreLatest(log: seq<Event>, symbol: string)
    requires WellFormed(log)
    ensures TickerIsLatest(ReadTicker(CacheOf(log), symbol), symbol, Project(log, TickerStream(symbol)))
  {
    if log != [] {
      hide TickerIsLatest, BranchOf, ReadSymbol, Merged, Defined, Introduced;
      var before, e := log[..|log| - 1], log[|log| - 1];
      var c, own := CacheOf(before), Project(before, TickerStream(symbol));
      assert own + [] == own;
      TickersAreLatest(before, symbol);
      if BranchOf(e.topic) == Ticker && e.data.TickerPayload? {
        TickersAreLatest(before, ReadSymbol(e.topic));
        HasTicker(c, ReadSymbol(e.topic), Project(before, TickerStream(ReadSymbol(e.topic))));
        TickerStep(c, e, symbol, own);
      } else {
        assert AfterEvent(c, e).tickers == c.tickers;
      }
    }
  }

  lemma HasTicker(c: Cache, symbol: string, own: seq<Event>)
    requires TickerIsLatest(ReadTicker(c, symbol), symbol, own)
    ensures symbol in c.tickers <==> own != []
  {
  }

  lemma CandleHoldsFields(d: KlineData)
    requires CompleteCandle(d)
    ensures HoldsFields(CandleOf(d), d)
  {
  }

  lemma CandleStep(c: Cache, e: Event, pair: string, interval: CandleInterval, own: seq<Event>)
    requires Defined(e) && CandleIsLatest(ReadCandle(c, pair, interval), own)
    ensures var own' := if On(e, KlineStream(pair, interval)) then own + [e] else own;
            CandleIsLatest(ReadCandle(AfterEvent(c, e), pair, interval), own')
  {
    hide BranchOf, ReadSymbol, Merged, IntervalOf, CompleteCandle, HoldsFields;
    if BranchOf(e.topic) == Kline && e.data.KlinePayload? && CompleteCandle(e.data.candles[0]) {
      var d := e.data.candles[0];
      CandleHoldsFields(d);
      IntervalOfName(Or(d.interval, ""), IntervalOf(Or(d.interval, "")).value);
      IntervalOfName(Or(d.interval, ""), interval);
      NamesAreNotEmpty();
    }
  }

  lemma NamesAreNotEmpty()
    ensures forall interval :: Name(interval) != ""
  {
  }

  /**
   Each cached candle holds, field by field, what the last event of its own stream carries, or
   the defaults, and exists exactly when that stream has had an event.
   */
  lemma {:induction false} CandlesAreLatest(log: seq<Event>, pair: string, interval: CandleInterval)
    requires WellFormed(log)
    ensures CandleIsLatest(ReadCandle(CacheOf(log), pair, interval), Project(log, KlineStream(pair, interval)))
  {
    if log != [] {
      hide CandleIsLatest, Defined, Introduced, On;
      var before, e := log[..|log| - 1], log[|log| - 1];
      var own := Project(before, KlineStream(pair, interval));
      assert own + [] == own;
      CandlesAreLatest(before, pair, interval);
      CandleStep(CacheOf(before), e, pair, interval, own);
    }
  }

  lemma FieldsDetermineCandle(a: EventCandlestick, b: EventCandlestick, d: KlineData)
    requires HoldsFields(a, d) && HoldsFields(b, d)
    ensures a == b
  {
  }

  /** Fields determine a ticker, but for its symbol. */
  lemma SameFields(a: EventTicker, b: EventTicker)
    requires a.symbol == b.symbol && forall f :: Get(a, f) == Get(b, f)
    ensures a == b
  {
    assert Get(a, Ask1Price) == Get(b, Ask1Price);
    assert Get(a, Ask1Size) == Get(b, Ask1Size);
    assert Get(a, Bid1Price) == Get(b, Bid1Price);
    assert Get(a, Bid1Size) == Get(b, Bid1Size);
    assert Get(a, Field.LastPrice) == Get(b, Field.LastPrice);
  }

  /** The cache does not depend on how the streams are interleaved. */
  lemma InterleavingDoesNotMatter(log: seq<Event>, other: seq<Event>, symbol: string, interval: CandleInterval)
    requires WellFormed(log) && WellFormed(other)
    requires forall stream :: Project(log, stream) == Project(other, stream)
    ensures ReadTicker(CacheOf(log), symbol) == ReadTicker(CacheOf(other), symbol)
    ensures ReadCandle(CacheOf(log), symbol, interval) == ReadCandle(CacheOf(other), symbol, interval)
  {
    hide WellFormed, CacheOf, Project, ReadTicker, ReadCandle, HoldsFields, LastCarried;
    CandlesAreLatest(log, symbol, interval);
    CandlesAreLatest(other, symbol, interval);
    TickersAreLatest(log, symbol);
    TickersAreLatest(other, symbol);
    var own := Project(log, TickerStream(symbol));
    assert own == Project(other, TickerStream(symbol));
    if own != [] {
      SameFields(ReadTicker(CacheOf(log), symbol).value, ReadTicker(CacheOf(other), symbol).value);
    }
    var candles := Project(log, KlineStream(symbol, interval));
    assert candles == Project(other, KlineStream(symbol, interval));
    if candles != [] {
      FieldsDetermineCandle(ReadCandle(CacheOf(log), symbol, interval).value,
                            ReadCandle(CacheOf(other), symbol, interval).value,
                            candles[|candles| - 1].data.candles[0]);
    }
  }

  /**
   A candle event on the topic that a pair and an interval subscribe to lands under exactly
   the key that the reader of that pair and interval looks up.
   */
  lemma CandleLandsWhereRead(c: Cache, pair: string, interval: CandleInterval, candles: seq<KlineData>)
    requires '.' !in pair && !Contains(pair, "tickers")
    requires candles != [] && CompleteCandle(candles[0]) && candles[0].interval == Carries(Name(interval))
    ensures var e := Event(KlineFilter(pair, interval), KlinePayload(candles));
            && Defined(e)
            && ReadCandle(AfterEvent(c, e), pair, interval).Some?
            && HoldsFields(ReadCandle(AfterEvent(c, e), pair, interval).value, candles[0])
            && forall p, i :: (p, i) != (pair, interval) ==> ReadCandle(AfterEvent(c, e), p, i) == ReadCandle(c, p, i)
  {
    hide BranchOf, ReadSymbol, IntervalOf, Contains, CompleteCandle, HoldsFields;
    FilterReachesItsBranch(pair, interval);
    FilterNamesPair(pair, interval);
    IntervalOfName(Name(interval), interval);
    CandleHoldsFields(candles[0]);
  }

  /** A pair that spells "tickers" never gets its candles: its events take the ticker branch. */
  lemma TickersPairLosesCandles(c: Cache, pair: string, interval: CandleInterval, data: Payload)
    requires Contains(pair, "tickers")
    ensures var e := Event(KlineFilter(pair, interval), data);
            Defined(e) && AfterEvent(c, e).candlesticks == c.candlesticks
  {
    hide ReadSymbol, IntervalOf, Contains, Merged;
    FilterReachesItsBranch(pair, interval);
    TickersInPair(pair, interval);
  }
}
