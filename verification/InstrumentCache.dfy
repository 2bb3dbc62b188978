/**
 The list of instruments as the client keeps it, over any sequence of calls, and as it uses it
 to write orders.
 */
module InstrumentCache {
  import opened Decimals
  import opened Enums
  import opened InstrumentPages
  import opened OrderText
  import opened Wrappers

  /** What a list is asked for. */
  datatype Key = Key(category: Category, symbol: string)

  /** A hundredth. */
  const DEFAULT_STEP: nat := 10000

  predicate FirstWith(list: seq<Instrument>, symbol: string, i: int)
  {
    && 0 <= i < |list|
    && list[i].symbol == symbol
    && forall j :: 0 <= j < i ==> list[j].symbol != symbol
  }

  predicate Lists(list: seq<Instrument>, symbol: string)
  {
    exists i :: 0 <= i < |list| && list[i].symbol == symbol
  }

  /** The first instrument with the symbol gives price and quantity steps. */
  ghost predicate StepsFrom(list: seq<Instrument>, symbol: string, default: (nat, nat), steps: (nat, nat))
  {
    && (forall i :: FirstWith(list, symbol, i) ==> steps == (list[i].tickSize, list[i].qtyStep))
    && (!Lists(list, symbol) ==> steps == default)
  }

  // ---------------------------------------------------------------- the cache

  /** What a call to get a list answers, when a download would come to `loaded`. */
  function Answered(cache: seq<Instrument>, force: bool, loaded: Result<seq<Instrument>>): Result<seq<Instrument>>
  {
    if cache == [] || force then loaded else Ok(cache)
  }

  /** The cached list after it. */
  function Cached(cache: seq<Instrument>, answer: Result<seq<Instrument>>): seq<Instrument>
  {
    if answer.Ok? then answer.value else cache
  }

  /** Whether the chain of pages comes to an end, when a call needs a download. */
  predicate CanAnswer(cache: seq<Instrument>, force: bool, listing: Listing, n: nat)
  {
    cache == [] || force ==> Ends(listing, "", n)
  }

  /** The answer, from a download only when there is one. */
  function AnswerFrom(cache: seq<Instrument>, force: bool, listing: Listing, ghost n: nat): Result<seq<Instrument>>
    requires CanAnswer(cache, force, listing, n)
    ensures Ends(listing, "", n) ==> AnswerFrom(cache, force, listing, n) == Answered(cache, force, Load(listing, "", n))
  {
    if cache == [] || force then Load(listing, "", n) else Ok(cache)
  }

  class RESTClient {
    var instruments: seq<Instrument>

    constructor ()
      ensures instruments == []
    {
      instruments := [];
    }

    method SetInstruments(list: seq<Instrument>)
      modifies this
      ensures instruments == list
    {
      instruments := list;
    }

    /** `listings` is what the server lists under each key. */
    method GetInstrumentsInfo(listings: Key -> Listing, category: Category, symbol: string, force: bool, ghost n: nat)
      returns (r: Result<seq<Instrument>>)
      requires CanAnswer(instruments, force, listings(Key(category, symbol)), n)
      modifies this
      ensures r == AnswerFrom(old(instruments), force, listings(Key(category, symbol)), n)
      ensures instruments == Cached(old(instruments), r)
    {
      if instruments == [] || force {
        var temp := Download(listings(Key(category, symbol)), n);
        if temp.Err? {
          return temp;
        }
        instruments := temp.value;
      }
      r := Ok(instruments);
    }

    /** Looks for the symbol in the list of the category; without it the steps stay as they are. */
    method FindPricePrecisionsForInstrument(listings: Key -> Listing, category: Category, symbol: string,
                                            priceStep: nat, qtyStep: nat, ghost n: nat)
      returns (r: Result<(bool, nat, nat)>)
      requires CanAnswer(instruments, false, listings(Key(category, "")), n)
      modifies this
      ensures var list := AnswerFrom(old(instruments), false, listings(Key(category, "")), n);
              && instruments == Cached(old(instruments), list)
              && (list.Err? ==> r == Err(list.error))
              && (list.Ok? ==>
                    && r.Ok? && (r.value.0 <==> Lists(list.value, symbol))
                    && StepsFrom(list.value, symbol, (priceStep, qtyStep), (r.value.1, r.value.2)))
    {
      hide AnswerFrom, CanAnswer;
      var symbols := GetInstrumentsInfo(listings, category, "", false, n);
      if symbols.Err? {
        return Err(symbols.error);
      }
      for i := 0 to |symbols.value|
        invariant forall j :: 0 <= j < i ==> symbols.value[j].symbol != symbol
      {
        if symbols.value[i].symbol == symbol {
          return Ok((true, symbols.value[i].tickSize, symbols.value[i].qtyStep));
        }
      }
      r := Ok((false, priceStep, qtyStep));
    }

    /**
     Sets the order's steps, posts its request, and answers with the server's reply. An error of
     the download leaves the order as it was, and nothing is posted.
     */
    method PlaceOrder(order: Order, listings: Key -> Listing, post: OrderJson -> Result<Response>, ghost n: nat)
      returns (r: Result<OrderId>, posted: Option<OrderJson>)
      requires CanAnswer(instruments, false, listings(Key(order.category, "")), n)
      modifies this, order`priceStep, order`qtyStep
      ensures var list := AnswerFrom(old(instruments), false, listings(Key(order.category, "")), n);
              && instruments == Cached(old(instruments), list)
              && (list.Err? ==> r == Err(list.error) && posted == None && unchanged(order))
              && (list.Ok? ==>
                    && StepsFrom(list.value, order.symbol, (DEFAULT_STEP, DEFAULT_STEP), (order.priceStep, order.qtyStep))
                    && posted.Some? && order.IsRequest(posted.value)
                    && r == Handled(post(posted.value)))
    {
      hide AnswerFrom, CanAnswer, Handled, Order.IsRequest;
      posted := None;
      var steps := FindPricePrecisionsForInstrument(listings, order.category, order.symbol, DEFAULT_STEP, DEFAULT_STEP, n);
      if steps.Err? {
        return Err(steps.error), None;
      }
      order.priceStep := steps.value.1;
      order.qtyStep := steps.value.2;
      var json := order.ToJson();
      posted := Some(json);
      r := Handled(post(json));
    }
  }

  // ---------------------------------------------------------------- which instrument gives the steps

  lemma ListsExactlyWhen(list: seq<Instrument>, symbol: string)
    ensures Lists(list, symbol) <==> exists x :: x in list && x.symbol == symbol
  {
    if x :| x in list && x.symbol == symbol {
      var i :| 0 <= i < |list| && list[i] == x;
    }
  }

  lemma FirstIsUnique(list: seq<Instrument>, symbol: string, i: int, j: int)
    requires FirstWith(list, symbol, i) && FirstWith(list, symbol, j)
    ensures i == j
  {
  }

  /** The steps are those of the instrument before which none has the symbol. */
  lemma StepsAreOfTheFirst(
      before: seq<Instrument>, x: Instrument, after: seq<Instrument>, default: (nat, nat), steps: (nat, nat))
    requires !Lists(before, x.symbol)
    ensures StepsFrom(before + [x] + after, x.symbol, default, steps) <==> steps == (x.tickSize, x.qtyStep)
  {
    var list, n := before + [x] + after, |before|;
    assert list[n] == x;
    assert forall i :: 0 <= i < n ==> list[i] == before[i];
    assert FirstWith(list, x.symbol, n);
    forall i | FirstWith(list, x.symbol, i) ensures i == n {
      FirstIsUnique(list, x.symbol, i, n);
    }
  }

  /** Without such an instrument they are the default. */
  lemma StepsAreTheDefault(list: seq<Instrument>, symbol: string, default: (nat, nat), steps: (nat, nat))
    requires !Lists(list, symbol)
    ensures StepsFrom(list, symbol, default, steps) <==> steps == default
  {
  }

  // ---------------------------------------------------------------- the reply to an order

  datatype OrderId = OrderId(orderId: string, orderLinkId: string)

  /** The body of a reply is None when it does not parse. */
  datatype Response = Response(status: int, body: Option<Body>)

  datatype Body = Body(retCode: int, retMsg: string, id: OrderId)

  /** Only a reply with status 200, a body that parses and return code zero is an answer. */
  function Handled(reply: Result<Response>): (r: Result<OrderId>)
    ensures r.Ok? <==>
            reply.Ok? && reply.value.status == 200 && reply.value.body.Some? && reply.value.body.value.retCode == 0
    ensures r.Ok? ==> r.value == reply.value.body.value.id
  {
    match reply
    case Err(e) => Err(e)
    case Ok(response) =>
      if response.status != 200 then Err("Bad response")
      else
        match response.body
        case None => Err("parse error")
        case Some(body) => if body.retCode != 0 then Err(body.retMsg) else Ok(body.id)
  }

  // ---------------------------------------------------------------- over any sequence of calls

  datatype Call = Set(list: seq<Instrument>) | Get(key: Key, force: bool)

  /** What a download would come to, for each call by its number, and each key. */
  type Server = (nat, Key) -> Result<seq<Instrument>>

  /** The cached list after a sequence of calls on a new client. */
  function Cache(server: Server, calls: seq<Call>): seq<Instrument>
    decreases |calls|
  {
    if calls == [] then []
    else
      var n := |calls| - 1;
      match calls[n]
      case Set(list) => list
      case Get(key, force) =>
        var before := Cache(server, calls[..n]);
        Cached(before, Answered(before, force, server(n, key)))
  }

  /** What one more call answers. */
  function Answer(server: Server, calls: seq<Call>, key: Key, force: bool): Result<seq<Instrument>>
  {
    Answered(Cache(server, calls), force, server(|calls|, key))
  }

  /** Whether call i replaces the cached list. */
  predicate StoresAt(server: Server, calls: seq<Call>, i: nat)
    requires i < |calls|
  {
    calls[i].Get? ==> (Cache(server, calls[..i]) == [] || calls[i].force) && server(i, calls[i].key).Ok?
  }

  /** The list it brings. */
  function StoredBy(server: Server, calls: seq<Call>, i: nat): seq<Instrument>
    requires i < |calls| && StoresAt(server, calls, i)
  {
    if calls[i].Set? then calls[i].list else server(i, calls[i].key).value
  }

  /** Call i stored a list, and no call after it did. */
  ghost predicate LastStores(server: Server, calls: seq<Call>, i: nat)
    requires i < |calls|
  {
    StoresAt(server, calls, i) && forall j :: i < j < |calls| ==> !StoresAt(server, calls, j)
  }

  /** Whether a list is that of the last call that stored one; before any such call it is empty. */
  ghost predicate IsLastStored(server: Server, calls: seq<Call>, list: seq<Instrument>)
  {
    || (exists i :: 0 <= i < |calls| && LastStores(server, calls, i) && list == StoredBy(server, calls, i))
    || (list == [] && forall i :: 0 <= i < |calls| ==> !StoresAt(server, calls, i))
  }

  lemma SameBefore(server: Server, calls: seq<Call>, i: nat)
    requires i < |calls| - 1
    ensures StoresAt(server, calls[..|calls| - 1], i) <==> StoresAt(server, calls, i)
  {
    assert calls[..|calls| - 1][..i] == calls[..i];
  }

  lemma StillLast(server: Server, calls: seq<Call>, list: seq<Instrument>)
    requires calls != [] && IsLastStored(server, calls[..|calls| - 1], list) && !StoresAt(server, calls, |calls| - 1)
    ensures IsLastStored(server, calls, list)
  {
    hide Cache;
    var n := |calls| - 1;
    var before := calls[..n];
    forall i | 0 <= i < n ensures StoresAt(server, before, i) <==> StoresAt(server, calls, i) {
      SameBefore(server, calls, i);
    }
    if i :| 0 <= i < n && LastStores(server, before, i) && list == StoredBy(server, before, i) {
      assert LastStores(server, calls, i);
    }
  }

  lemma {:induction false} CacheIsLastStored(server: Server, calls: seq<Call>)
    ensures IsLastStored(server, calls, Cache(server, calls))
    decreases |calls|
  {
    if calls != [] {
      hide IsLastStored;
      var n := |calls| - 1;
      CacheIsLastStored(server, calls[..n]);
      if StoresAt(server, calls, n) {
        StoredNow(server, calls);
      } else {
        StillLast(server, calls, Cache(server, calls[..n]));
      }
    }
  }

  lemma StoredNow(server: Server, calls: seq<Call>)
    requires calls != [] && StoresAt(server, calls, |calls| - 1)
    ensures IsLastStored(server, calls, StoredBy(server, calls, |calls| - 1))
  {
    hide Cache;
    assert LastStores(server, calls, |calls| - 1);
  }

  /**
   Over any sequence of calls, every list that is returned is the one stored last, by a
   completed download or by the caller, the answering call included; a failed download
   returns its error and stores nothing.
   */
  lemma ReturnedIsLastStored(server: Server, calls: seq<Call>, key: Key, force: bool)
    ensures var answer, all := Answer(server, calls, key, force), calls + [Get(key, force)];
            && (answer.Ok? ==> IsLastStored(server, all, answer.value))
            && (answer.Err? ==> answer == server(|calls|, key) && Cache(server, all) == Cache(server, calls))
  {
    var all := calls + [Get(key, force)];
    assert all[..|calls|] == calls;
    hide IsLastStored;
    CacheIsLastStored(server, all);
  }

  // ---------------------------------------------------------------- whose list is it?

  /** Where the cached list comes from, as far as a caller can tell from the calls alone. */
  datatype Origin = Nothing | Caller(list: seq<Instrument>) | Downloaded(key: Key)

  function OriginOf(calls: seq<Call>): Origin
    decreases |calls|
  {
    if calls == [] then Nothing
    else
      var before := OriginOf(calls[..|calls| - 1]);
      match calls[|calls| - 1]
      case Set(list) => if list == [] then Nothing else Caller(list)
      case Get(key, force) => if force || before == Nothing then Downloaded(key) else before
  }

  /** A server that lists something under every key, and keeps doing so. */
  ghost predicate AllListed(f: Key -> Result<seq<Instrument>>)
  {
    forall key :: f(key).Ok? && f(key).value != []
  }

  /** It lists the same at every call. */
  function Still(f: Key -> Result<seq<Instrument>>): Server
  {
    (i, key) => f(key)
  }

  lemma {:induction false} OriginTells(f: Key -> Result<seq<Instrument>>, calls: seq<Call>)
    requires AllListed(f)
    ensures match OriginOf(calls)
            case Nothing => Cache(Still(f), calls) == []
            case Caller(list) => list != [] && Cache(Still(f), calls) == list
            case Downloaded(key) => Ok(Cache(Still(f), calls)) == f(key)
    decreases |calls|
  {
    if calls != [] {
      OriginTells(f, calls[..|calls| - 1]);
    }
  }

  /** A server that lists one thing under a key and another under all others. */
  function TwoLists(key: Key, own: seq<Instrument>, other: seq<Instrument>): Key -> Result<seq<Instrument>>
  {
    k => if k == key then Ok(own) else Ok(other)
  }

  lemma Misanswered(calls: seq<Call>, key: Key) returns (f: Key -> Result<seq<Instrument>>)
    requires OriginOf(calls) != Nothing && OriginOf(calls) != Downloaded(key)
    ensures AllListed(f) && Answer(Still(f), calls, key, false) != f(key)
  {
    var a := Instrument("", 0, 0);
    var other := if OriginOf(calls).Caller? then OriginOf(calls).list else [a];
    f := TwoLists(key, other + [a], [a]);
    OriginTells(f, calls);
    assert |other + [a]| == |other| + 1;
  }

  /**
   The cache knows nothing of category and symbol. A call is answered with its own key's list,
   whatever a server lists, exactly when it is forced, or nothing is cached, or the cached list
   was downloaded for the same key.
   */
  lemma AnswersItsKeyExactlyWhen(calls: seq<Call>, key: Key, force: bool)
    ensures (forall f: Key -> Result<seq<Instrument>> :: AllListed(f) ==> Answer(Still(f), calls, key, force) == f(key)) <==>
            force || OriginOf(calls) == Nothing || OriginOf(calls) == Downloaded(key)
  {
    hide AllListed, OriginOf;
    if force || OriginOf(calls) == Nothing || OriginOf(calls) == Downloaded(key) {
      forall f: Key -> Result<seq<Instrument>> | AllListed(f) ensures Answer(Still(f), calls, key, force) == f(key) {
        OriginTells(f, calls);
      }
    } else {
      var f := Misanswered(calls, key);
      assert AllListed(f);
    }
  }

  /** With any server, failing or not, the key that stored last is answered with its own list. */
  lemma SameKeyIsAnswered(f: Key -> Result<seq<Instrument>>, calls: seq<Call>, i: nat, force: bool)
    requires i < |calls| && calls[i].Get? && LastStores(Still(f), calls, i)
    ensures Answer(Still(f), calls, calls[i].key, force) == f(calls[i].key)
  {
    hide Cache;
    CacheIsLastStored(Still(f), calls);
    var j :| 0 <= j < |calls| && LastStores(Still(f), calls, j) &&
             Cache(Still(f), calls) == StoredBy(Still(f), calls, j);
    assert i == j;
  }

  // ---------------------------------------------------------------- the steps of an order

  /** An order in whole steps of an instrument that is listed denotes what was meant. */
  lemma ListedOrderIsExact(
      list: seq<Instrument>, symbol: string, i: int, steps: (nat, nat), default: (nat, nat),
      price: nat, m: nat, qty: nat, k: nat)
    requires FirstWith(list, symbol, i) && Positional(list[i].tickSize) && Positional(list[i].qtyStep)
    requires StepsFrom(list, symbol, default, steps)
    requires price == m * list[i].tickSize && qty == k * list[i].qtyStep
    ensures Parse(Written(steps.0, price)) == price && Parse(Written(steps.1, qty)) == qty
  {
    hide Parse, Written, Positional;
    WrittenDenotes(list[i].tickSize, m);
    WrittenDenotes(list[i].qtyStep, k);
  }

  /** The request posted for such an order denotes its quantity, and its price if it has a limit. */
  lemma PlacedOrderIsExact(
      order: Order, json: OrderJson, list: seq<Instrument>, i: int, default: (nat, nat), m: nat, k: nat)
    requires order.IsRequest(json)
    requires FirstWith(list, order.symbol, i) && Positional(list[i].tickSize) && Positional(list[i].qtyStep)
    requires StepsFrom(list, order.symbol, default, (order.priceStep, order.qtyStep))
    requires order.price == m * list[i].tickSize && order.qty == k * list[i].qtyStep
    ensures json.symbol == order.symbol && Parse(json.qty) == order.qty
    ensures order.orderType == Market ==> json.price == None
    ensures order.orderType == Limit ==> json.price.Some? && Parse(json.price.value) == order.price
  {
    hide Parse, Written, Positional;
    ListedOrderIsExact(list, order.symbol, i, (order.priceStep, order.qtyStep), default, order.price, m, order.qty, k);
  }

  /** An order of an instrument that is not listed is exact exactly in whole hundredths. */
  lemma UnlistedOrderIsExactExactlyWhen(list: seq<Instrument>, symbol: string, steps: (nat, nat), price: nat, qty: nat)
    requires !Lists(list, symbol) && StepsFrom(list, symbol, (DEFAULT_STEP, DEFAULT_STEP), steps)
    ensures Parse(Written(steps.0, price)) == price <==> EndsInZeros(price, 4)
    ensures Parse(Written(steps.1, qty)) == qty <==> EndsInZeros(qty, 4)
  {
    hide Parse, FormatDouble, Precision, EndsInZeros;
    DefaultPrecision();
    ExactExactlyWhenPlacesSuffice(2, price);
    ExactExactlyWhenPlacesSuffice(2, qty);
  }

  lemma DefaultPrecision()
    ensures Precision(DEFAULT_STEP) == 2
  {
    hide Precision, High, Low;
    PrecisionIsLeast(DEFAULT_STEP, 2);
    PrecisionIsLeast(DEFAULT_STEP, 1);
    assert Pow10(4) == 10000 && Pow10(5) == 100000;
    HighLowUnique(DEFAULT_STEP, 4, 1, 0);
    HighLowUnique(DEFAULT_STEP, 5, 0, 10000);
  }
}
