# The Bybit client, modelled and verified

The library is a client of a cryptocurrency exchange: REST calls under a rate limiter, downloads
of candles and funding rates page by page, a WebSocket session that manages subscriptions, a cache
of the streams' latest events, and the texts of queries and orders. This project models the parts
whose correctness cannot be seen from one function, each against an explicit environment (a clock,
a server whose history may grow, a pair of links), and proves what they guarantee over every input,
every run and every interleaving. `dafny verify dfyconfig.toml` checks all of it.

| module | what it models |
|---|---|
| `RateLimiting`, `RateBounds`, `RateReplies`, `ServerQuota` | the limiter shared by all callers: a sliding window and what it bounds, what replies tell it, and the quota reported by the server |
| `TimeSeries` | time-stamped histories and the one-line specification of a download, `Range` |
| `CandlePaging`, `CandleTheorems`, `CandleStatic`, `CandleLive` | candles, oldest page first, from a still or a growing server |
| `FundingPaging` | funding rates, newest page first, from a still or a growing server, and the connector's sort |
| `SubscriptionSession`, `SubscriptionProtocol`, `SubscriptionChain`, `SubscriptionLimits` | the session's handlers, the session against a server and user threads, its chain of operations, and what it does not guarantee |
| `StreamTopics`, `StreamCache` | names of streams, and the maps filled by the event callback |
| `QueryString` | the query that is sent and the query that is signed |
| `Decimals`, `OrderText` | precision from a step size, and the texts of an order |
| `InstrumentPages`, `InstrumentCache` | the download of the list of instruments, its cache, and its use by orders |
| `Intervals` | the names of candle intervals against their lengths |
| `Enums`, `Text`, `Arithmetic`, `Requests`, `Wrappers` | shared definitions |

Code that works by updating state is a method or a class here. Each method is proved equal to a
function of its inputs or of the old state, and the theorems are about those functions. A WebSocket
handler is cut where its lock is free, so that other threads may come in between.

## What is assumed of the environment

- The clock never runs backwards, and a sleep lasts at least as long as asked. The limiter's lock is
  held while a caller sleeps, so a run is a sequence of calls, whatever the callers do.
- The candle server answers with the `limit` oldest candles from `start` on, newest first. Later
  snapshots keep every finished candle, which is every one but the newest, and may append; only the
  newest candle may still change.
- The funding server answers with the newest `limit` records in the interval, newest first. It may
  append records, each later than all before it.
- Links deliver in order. The server accepts a request, or rejects it by echoing it; a request with
  a topic it holds already is always rejected. Its other messages may come at any moment.
- The server of the list of instruments answers a cursor the same way throughout a download.
- The helpers of the common library split at a separator, keep a default when a key is absent, and
  round to the nearest unit of the last decimal; a value that does not read, or data of another
  shape than expected, throws. The decimal type prints without an exponent from a
  ten thousandth up, and with one below.

## What was found

- The limiter allows eleven requests in a window, not ten: a caller that slept is recorded with the
  time before its sleep. Ten more callers can follow a call within a window exactly when that call was
  let through later than the time it recorded; without such calls ten is the bound. Eleven can fall
  into a single millisecond (`ElevenExactlyWhenDelayed`, `AtMostTenWithoutDelay`, `ElevenIsReached`).
- The server quota is safe exactly when the server refills to at least three and its clock is not
  behind the client's; the 50 ms added to a sleep do not help a client that finds the reset time
  already past (`SafeExactlyWhen`).
- However a candle server grows, for every page size, what is returned ascends, and each candle
  already has its successor when it is fetched, so it is final. With a page size `limit` of at least
  two, no candle that was finished when the call began is lost, whatever the range, exactly when those
  finished candles are at least one interval apart from position `limit - 2` on: a gap that is too
  short loses the candle after it when that falls behind the end of a page. Spacing of all finished
  candles buys more: the download then equals one look at the last snapshot served, with the candles
  that were finished meanwhile (`LiveDownloadAscends`, `LiveDownloadIsFinal`,
  `NothingLostExactlyWhenPageSpaced`, `LiveDownloadIsAtomic`).
- From a server that stands still the same spacing decides whether all downloads are exact, and a
  history that fits on one page always is. A month counts as thirty days, and the step from February
  to March is shorter: with a page size of two, a history of February, March and April loses the
  candle of March. A page size of one returns nothing at all (`ExactExactlyWhenPageSpaced`,
  `OnePageIsExact`, `MarchIsSkipped`, `LimitOneReturnsNothing`).
- Funding rates lose the record at the start of the interval exactly when the interval is a single
  instant or the pages happen to end just after a record one millisecond later
  (`CompleteExactlyWhenNotMissed`).
- A session can request the same topic twice and list it twice for a while, but agrees with the
  server once nothing is in flight. Over any run no topic is named twice exactly when no call
  subscribes to a topic that is queued and not yet listed (`DuplicatesOccur`, `QuietMeansSame`,
  `NeverRepeatsExactlyWhenCareful`).
- A session that quits leaves behind exactly the subscriptions that came after it last found its
  queue empty (`QuitCanStrandARequest`, `QuitStrandsExactlyTheLate`).
- A candle stream whose pair spells "tickers" never reaches the candle cache
  (`FilterReachesItsBranch`, `TickersPairLosesCandles`).
- Nothing is escaped in a query: it can be read back exactly when names avoid `=` and `&` and values
  avoid `&` (`ReadsBackExactlyWhenClean`).
- Steps below a ten thousandth get too few decimals, always (`PrecisionWorksExactlyWhen`).
- The cached list of instruments ignores category and symbol: a call gets its own list, whatever the
  server lists, exactly when it is forced, nothing is cached, or the cached list was downloaded for
  the same category and symbol. An order for an instrument that is not in the list is written in
  hundredths (`AnswersItsKeyExactlyWhen`, `UnlistedOrderIsExactExactlyWhen`).
- The download of that list never ends when a cursor comes back (`EndsExactlyWhenNothingRepeats`).

## Model

| member | source | states |
|---|---|---|
| RateLimiting.RateLimiter.constructor | src/bybit_rest_client.cpp:33-40 | A new limiter counts 50 left, has an empty window and is in local mode. |
| RateLimiting.RateLimiter.Update | src/bybit_rest_client.cpp:42-61 | Exactly a reply with both headers, both well formed, switches to server mode; when only the second fails to parse, the first has been stored already. |
| RateLimiting.RateLimiter.PopExpired | src/bybit_rest_client.cpp:82-84 | The pruning loop, used before and after the sleep, leaves `Prune` of the window and nothing else changed. |
| RateLimiting.RateLimiter.Wait | src/bybit_rest_client.cpp:63-107 | In both modes a caller asks the clock for exactly its computed delay, is through no earlier than that, and the limiter's whole new state is the one the window functions give; the time pushed is the one read before sleeping. |
| RateLimiting.Prune | src/bybit_rest_client.cpp:82-84 | Pruning leaves a suffix whose first entry has not expired, and removes only expired entries. |
| RateLimiting.PruneRemovesExactlyTheExpired | src/bybit_rest_client.cpp:82-84 | In a sorted window an entry is removed if and only if it has expired. |
| RateLimiting.FullWindowSleeps | src/bybit_rest_client.cpp:86-104 | With a full window the sleep is 10 to 1010 ms and ends 1010 ms after the oldest entry, so the test for a positive wait never fails and pruning after it always frees a slot; otherwise there is no sleep. |
| RateLimiting.WaitKeepsWindow | src/bybit_rest_client.cpp:82-105 | Every local call keeps: the window is the sorted tail of the recorded times with at most ten entries, what left it has expired, recording and granting alternate, and each grant comes more than 1000 ms after the time recorded ten calls before. |
| RateLimiting.WindowHolds | src/bybit_rest_client.cpp:63-107 | That invariant holds after every run in local mode, for every interleaving of callers and every clock. |
| RateLimiting.GrantsAreSpread | src/bybit_rest_client.cpp:63-107 | In every such run a grant comes more than 1000 ms after the time recorded ten calls before it and after the grant eleven calls before it. |
| RateLimiting.GrantsAscend | src/bybit_rest_client.cpp:63-107 | In every run, in either mode, callers are let through in the order of their calls. |
| RateBounds.AtMostElevenPerWindow | src/bybit_rest_client.cpp:39-40 | No window of 1000 ms, both ends included, holds more than eleven grants. |
| RateBounds.ElevenIsReached | src/bybit_rest_client.cpp:94-105 | A concrete run has eleven grants within one millisecond: the bound is tight, and the intended ten is exceeded. |
| RateBounds.ElevenExactlyWhenDelayed | src/bybit_rest_client.cpp:94-105 | After any local run that ends with a call, ten more callers can be let through within the same window as that call if and only if it was let through later than the time it recorded. |
| RateBounds.AtMostTenWithoutDelay | src/bybit_rest_client.cpp:39-40 | In a local run in which every call is let through at the time it records, no window holds more than the intended ten. |
| RateLimiting.ServerModeIsForever | src/bybit_rest_client.cpp:51 | Once the server has been heard the limiter never returns to the local window, over every run. |
| RateReplies.ServerModeExactlyWhenReported | src/bybit_rest_client.cpp:46-52 | Over every run, the limiter is in server mode if and only if some reply has carried both headers, well formed. |
| RateReplies.KnowsWhatWasReported | src/bybit_rest_client.cpp:48-60 | Over every run, what is taken to remain and the reset time are those of the last replies that reported them, or 50 and 0. |
| RateReplies.MissingHeaderChangesNothing | src/bybit_rest_client.cpp:48 | A reply that lacks one of the headers changes nothing. |
| RateReplies.WaitChangesOnlyTheWindow | src/bybit_rest_client.cpp:68-106 | Waiting changes nothing but the window, and in server mode nothing. |
| ServerQuota.TurnSyncs | src/bybit_rest_client.cpp:48-52 | After one wait, request and processed reply the client's numbers are the server's, whatever they were before. |
| ServerQuota.SleepsExactlyWhenNeeded | src/bybit_rest_client.cpp:68-78 | In step with the server, a caller sleeps if and only if its request, sent at once, would leave fewer than two, and then until 50 ms after the reset. |
| ServerQuota.TurnKeepsTwo | src/bybit_rest_client.cpp:68-78 | One turn of a sequential client never brings a server quota of at least two below two, given a capacity of three and a server clock that is not behind. |
| ServerQuota.RunKeepsTwo | src/bybit_rest_client.cpp:68-78 | The same over every run. |
| ServerQuota.SafeExactlyWhen | src/bybit_rest_client.cpp:68-78 | The guarantee holds for all runs if and only if the capacity is at least three and the server's clock is not behind the client's. |
| CandlePaging.GetHistoricalPrices | src/bybit_rest_client.cpp:245-295 | The paging loop against a server that may change between requests, any of which may throw: without a failure the candles returned, the batches handed to the callback and the number of requests are those of `Rounds`; the first failure ends the call without a result, after exactly the batches before it. It terminates however the history grows. |
| CandlePaging.AppendUpTo | src/bybit_rest_client.cpp:273-277 | The inner loop appends exactly the candles of the last batch that start at or before `to`. |
| CandlePaging.TrimmedPage | src/bybit_rest_client.cpp:258-262 | Reversing a page and dropping its newest candle leaves what a round keeps, also when the page is empty. |
| CandlePaging.KeptFrom | src/bybit_rest_client.cpp:285 | A round never ends before its own start, so the next one starts at least an interval later. |
| Intervals.MinutesAreNamed | src/bybit.cpp:12-33 | An interval named by a number lasts that many minutes. |
| Intervals.LettersAreNamed | src/bybit.cpp:34-39 | D is a day of 24 hours, W a week of seven days and M a month of thirty. |
| CandleTheorems.KeptSlice | src/bybit_rest_client.cpp:258-262 | What a round keeps is a slice of the history, one candle short of the page unless the page ends a full interval past `to`. |
| CandleTheorems.LiveDownloadIsAtomic | src/bybit_rest_client.cpp:245-295 | From a growing server, for every `limit` of at least two, if the finished candles of the last snapshot that was served are spaced, the result is exactly those in [from, to], in order, although pages came from different snapshots. |
| CandleLive.LiveDownloadIsComplete | src/bybit_rest_client.cpp:245-295 | From a growing server, every candle in range that had a successor when the call began is returned with its values, if those candles are spaced from position limit - 2 on. |
| CandleLive.NothingLostExactlyWhenPageSpaced | src/bybit_rest_client.cpp:260-291 | For each page size of at least two, this holds of all ranges if and only if they are so spaced, however the server grows. |
| CandleLive.LostAtTheEndOfAPage | src/bybit_rest_client.cpp:285 | The range on which a gap that is too short loses a candle. |
| CandleLive.LiveDownloadIsFinal | src/bybit_rest_client.cpp:260-262 | From a growing server, for every page size, each candle returned is in range and was finished in the snapshot met by the request that fetched it, hence is held unchanged by every later one. |
| CandleLive.LiveDownloadAscends | src/bybit_rest_client.cpp:258 | From a growing server, for every page size, what is returned is strictly ascending. |
| CandleTheorems.RequestsAreBounded | src/bybit_rest_client.cpp:256-292 | From any server, however its history grows, a download of [from, to] sends at most (to - from) / interval + 2 requests. |
| CandleStatic.StaticIsExact | src/bybit_rest_client.cpp:245-295 | From a still server with spaced candles the result is exactly the finished candles with from <= start <= to. |
| CandleStatic.ExactExactlyWhenPageSpaced | src/bybit_rest_client.cpp:260-291 | For a given page size, all downloads from a history are exact if and only if its finished candles are at least one interval apart from position limit - 2 on. |
| CandleStatic.OnePageIsExact | src/bybit_rest_client.cpp:260-291 | A history of at most `limit` candles downloads exactly, whatever its gaps. |
| CandleStatic.ExactExactlyWhenSpaced | src/bybit_rest_client.cpp:285 | Over all page sizes together, all downloads are exact if and only if all finished candles are at least one interval apart. |
| CandleStatic.SkippedCandle | src/bybit_rest_client.cpp:285 | For every page size: of two finished candles closer than the interval, the first of which ends the kept page, the second is in range and not returned. |
| CandleStatic.MarchIsSkipped | src/bybit.cpp:38-39 | A monthly history on which it happens at a page size of two, since a month counts as thirty days. |
| CandleStatic.LimitOneReturnsNothing | src/bybit_rest_client.cpp:260-266 | With a page size of one nothing is returned, from any server. |
| CandleStatic.PastTheEnd | src/bybit_rest_client.cpp:272-282 | From a start past `to` nothing is returned, from any server. |
| CandleStatic.ReturnedIsCutBatches | src/bybit_rest_client.cpp:272-289 | The returned vector is the concatenation of the callback's batches cut at `to`, and a prefix of it, although the last batch is handed over whole. |
| CandleStatic.ShortPage | src/bybit_rest_client.cpp:260-291 | On a still server a round that did not fill its page is followed by just one more request. |
| CandleStatic.RequestBound | src/bybit_rest_client.cpp:256-292 | On a still server N returned candles cost at most ceil(N / (limit - 1)) + 1 requests. |
| CandleStatic.GaplessPassesCheck | test/main.cpp:72-86 | A non-empty download from a gapless history passes the test suite's check of consecutive candles. |
| CandleLive.LiveGaplessPassesCheck | test/main.cpp:72-86 | So does one from a growing server whose last snapshot served is gapless. |
| FundingPaging.GetFundingRates | src/bybit_rest_client.cpp:516-541 | The paging loop terminates and returns, reversed, all that is collected from `endTime` down, from a server that may change between requests; there is no result if and only if one of its requests throws. |
| FundingPaging.LiveRatesAreOfTheFirstSnapshot | src/bybit_rest_client.cpp:525-537 | From a server that only appends, the result is the one of the first snapshot served, so what follows holds of that snapshot. |
| FundingPaging.RatesAreExact | src/bybit_rest_client.cpp:516-541 | For every page size of at least one the result is the ascending list of exactly the records in range, except that the one lying at the start is left out under an explicit condition. |
| FundingPaging.CompleteExactlyWhenNotMissed | src/bybit_rest_client.cpp:525-536 | The download is complete if and only if that condition fails. |
| FundingPaging.MissesNext | src/bybit_rest_client.cpp:531-536 | Whether the first record is missed does not change as pages are taken. |
| FundingPaging.TwoMillisecondsApartIsComplete | src/bybit_rest_client.cpp:516-541 | With records at least two milliseconds apart and distinct ends the download is complete, for every page size. |
| FundingPaging.FirstRateCanBeMissed | src/bybit_rest_client.cpp:534 | Two records one millisecond apart and a page size of one: the first is not returned. |
| FundingPaging.SortingChangesNothing | src/bybit_futures_exchange_connector.cpp:128-144 | The connector's sort by time, stable or not, leaves the downloaded list as it is. |
| SubscriptionSession.WebSocketSession.constructor | src/bybit_ws_session.cpp:296-297 | A new session has no topics, no requests and nothing outstanding. |
| SubscriptionSession.WebSocketSession.Run | src/bybit_ws_session.cpp:311-323 | An empty topic is refused and changes nothing; any other has its request queued and name resolution started. |
| SubscriptionSession.WebSocketSession.WriteSubscription | src/bybit_ws_session.cpp:41-59 | A request is queued exactly when the topic is not counted as subscribed; the queue is not consulted. |
| SubscriptionSession.WebSocketSession.ReadSubscription | src/bybit_ws_session.cpp:61-83 | The oldest request leaves the queue and its topics are counted at once; on an empty queue nothing happens. |
| SubscriptionSession.WebSocketSession.HandleApiControlMsg | src/bybit_ws_session.cpp:93-119 | Exactly a failed reply that carries its request takes one occurrence of each of its topics away. |
| SubscriptionSession.WebSocketSession.IsSubscribed | src/bybit_ws_session.cpp:121-129 | The search finds the filter if and only if it is among the topics. |
| SubscriptionSession.WebSocketSession.OnPhase | src/bybit_ws_session.cpp:131-180 | Each connect phase starts the next one, or nothing on failure. |
| SubscriptionSession.WebSocketSession.OnHandshake | src/bybit_ws_session.cpp:182-191 | The handshake hands the oldest request to a write. |
| SubscriptionSession.WebSocketSession.OnWrite | src/bybit_ws_session.cpp:193-201 | A completed write starts a read. |
| SubscriptionSession.WebSocketSession.OnRead | src/bybit_ws_session.cpp:203-237 | A message is handled and the handler goes on to the queue; one that does not parse closes the session and starts nothing. |
| SubscriptionSession.WebSocketSession.OnReadPump | src/bybit_ws_session.cpp:239-242 | The oldest request, if there is one, is handed to a write. |
| SubscriptionSession.WebSocketSession.OnReadCheck | src/bybit_ws_session.cpp:242-249 | Otherwise a read is started, and the session is closed if no topic is counted. |
| SubscriptionSession.EraseEachMultiset | src/bybit_ws_session.cpp:106-110 | Erasing the topics of a rejection takes away one occurrence for each, no more. |
| SubscriptionSession.EraseFirstAt | src/bybit_ws_session.cpp:107-109 | The first occurrence of a topic is erased, and the order of the others stays. |
| SubscriptionProtocol.StepKeepsInv | src/bybit_ws_session.cpp:41-254 | Every step of client, user thread or server keeps the invariant: counts agree, one operation at a time, queued equals written plus waiting, no empty request. |
| SubscriptionProtocol.ReachableInv | src/bybit_ws_session.cpp:41-254 | The invariant holds in every state that some run reaches. |
| SubscriptionProtocol.CountsAgree | src/bybit_ws_session.cpp:61-119 | In every reachable state, topic by topic: what the client counts is what the server holds plus requests in flight plus unread rejections. |
| SubscriptionProtocol.QuietMeansSame | src/bybit_ws_session.cpp:61-129 | When nothing is in flight the client lists exactly the server's topics, without duplicates. |
| SubscriptionProtocol.ClosesExactlyWhen | src/bybit_ws_session.cpp:239-253 | A step closes the session, once, if and only if the session quits or reads a message that does not parse. |
| SubscriptionProtocol.QuitsExactlyWithoutTopics | src/bybit_ws_session.cpp:243-248 | Looking for topics, the session closes itself if and only if it counts none. |
| SubscriptionProtocol.QuitIsClean | src/bybit_ws_session.cpp:243-247 | When the session closes itself for want of topics, the server holds nothing and no request or rejection is in flight, for any interleaving. |
| SubscriptionProtocol.NeverTwoOperations | src/bybit_ws_session.cpp:131-254 | In every reachable state at most one of connect phase, write and read is outstanding, and none while the read handler runs. |
| SubscriptionProtocol.WrittenInOrder | src/bybit_ws_session.cpp:58-82 | Requests are written in the order in which they were queued and none is lost on the way. |
| SubscriptionProtocol.FirstWriteCarriesARequest | src/bybit_ws_session.cpp:189-190 | The write after the handshake never sends an empty message. |
| SubscriptionProtocol.EveryRequestIsWritten | src/bybit_ws_session.cpp:203-254 | From every reachable state, the k oldest queued requests have been written, in order, once k more messages have been read and handled. |
| SubscriptionChain.AliveExactlyWhenNothingFails | src/bybit_ws_session.cpp:131-254 | Over every run an operation is outstanding or the read handler runs, if and only if nothing has failed since it was so. |
| SubscriptionChain.StepAlive | src/bybit_ws_session.cpp:131-254 | A failed completion, or a message that does not parse, leaves nothing outstanding, starts nothing and changes neither list. |
| SubscriptionChain.BrokenIsSilent | src/bybit_ws_session.cpp:131-254 | After that nothing is handed to a write any more. |
| SubscriptionChain.PhasesInOrder | src/bybit_ws_session.cpp:131-191 | In every run the connect phases are completed in their order, and all of them before anything is written. |
| SubscriptionLimits.DuplicatesOccur | src/bybit_ws_session.cpp:41-59 | A reachable state lists one topic twice. |
| SubscriptionLimits.SubscribeKeepsNoRepeatsExactlyWhen | src/bybit_ws_session.cpp:41-59 | A subscribe call keeps each topic named at most once, in list and queue together, if and only if its topic is listed or not queued. |
| SubscriptionLimits.OtherStepsNameNoMore | src/bybit_ws_session.cpp:61-119 | Every other step names no topic more often, so it keeps this too. |
| SubscriptionLimits.NeverRepeatsExactlyWhenCareful | src/bybit_ws_session.cpp:41-119 | Over any run no topic is ever named twice if and only if every subscribe call meets that guard. |
| SubscriptionLimits.NewSessionRepeatsExactlyWhenCareless | src/bybit_ws_session.cpp:41-119 | The same for every run of a new session, which starts without repetition. |
| SubscriptionLimits.QuitCanStrandARequest | src/bybit_ws_session.cpp:239-247 | A reachable state decides to quit with a request still queued. |
| SubscriptionLimits.QuitStrandsExactlyTheLate | src/bybit_ws_session.cpp:239-247 | In every reachable state that decides to quit, the queue holds exactly the requests of the subscribe calls since the handler found it empty; nothing is left behind if and only if there was none. |
| SubscriptionLimits.QueueStaysEmptyExactlyWhen | src/bybit_ws_session.cpp:239-247 | After a look into the empty queue, until topics are looked for, the queue is still empty if and only if every subscribe call names a topic that is listed. |
| Text.SplitFirst | src/bybit_ws_stream_manager.cpp:74-80 | The assumed split: a record ends at the first separator. |
| StreamTopics.FilterNamesPair | src/bybit_ws_stream_manager.cpp:74-80 | The symbol read back from either kind of filter is the dot-free pair it was built for. |
| StreamTopics.KlineFilterIsInjective | src/bybit_ws_stream_manager.cpp:106-110 | Different dot-free pairs or intervals have different filters. |
| StreamTopics.FilterRecords | src/bybit_ws_stream_manager.cpp:90-110 | A filter splits into its kind, for candles the interval, and the pair. |
| StreamTopics.NamesDiffer | include/vk/bybit/bybit_enums.h:122-155 | Different intervals have different names. |
| StreamTopics.FilterReachesItsBranch | src/bybit_ws_stream_manager.cpp:30-44 | A ticker topic always takes the ticker branch; a candle topic takes the candle branch if and only if its pair does not spell "tickers". |
| StreamCache.StreamManager.constructor | src/bybit_ws_stream_manager.cpp:24-28 | Both maps start empty. |
| StreamCache.StreamManager.OnEvent | src/bybit_ws_stream_manager.cpp:29-71 | The callback's whole effect on both maps, by branch, also for events that throw: a known ticker keeps what was overwritten before the malformed field, a new ticker or a candle is not stored. |
| StreamCache.ReadInto | src/bybit_event_models.cpp:29-47 | Fields are overwritten in order up to the first malformed one; reading throws exactly when there is one. |
| StreamCache.ReadEventTicker | src/bybit_ws_stream_manager.cpp:133-157 | While the cache and the timeout may change between looks, the reader returns what its first successful look finds, and nothing exactly when it gives up before one. |
| StreamCache.ReadEventCandlestick | src/bybit_ws_stream_manager.cpp:159-184 | The same for the candle of a pair and an interval. |
| StreamCache.UndisturbedLooks | src/bybit_ws_stream_manager.cpp:134-154 | A reader that finds nothing and is not disturbed looks a hundred times for each second of its timeout and once more. |
| StreamCache.ZeroTimeoutStops | src/bybit_ws_stream_manager.cpp:137-141 | A timeout of zero, set at any time, ends it at its next look. |
| StreamTopics.ContainsExactlyWhen | src/bybit_ws_stream_manager.cpp:30-44 | The search of the topic succeeds if and only if the topic consists of the text and what stands before and after it. |
| StreamCache.TickersAreLatest | src/bybit_ws_stream_manager.cpp:30-43 | After every well-formed log a cached ticker exists exactly when its stream had an event, and each field is the last value its own stream carried, or 0. |
| StreamCache.CandlesAreLatest | src/bybit_ws_stream_manager.cpp:44-66 | After every well-formed log a cached candle exists exactly when its stream had an event, and each of its eleven fields is what the last one carries for it, or the default. |
| StreamCache.IntervalOfName | src/bybit_ws_stream_manager.cpp:65 | A text is read as an interval if and only if it is its name. |
| StreamCache.MergedFields | src/bybit_event_models.cpp:29-47 | An event overwrites exactly the fields it carries, up to its first malformed one. |
| StreamCache.InterleavingDoesNotMatter | src/bybit_ws_stream_manager.cpp:29-71 | Logs with equal projections to each stream give equal readings, however the streams are interleaved. |
| StreamCache.CandleLandsWhereRead | src/bybit_ws_stream_manager.cpp:57-65 | An event on a subscribed candle topic lands, field by field, under exactly the key its reader looks up and changes no other. |
| StreamCache.TickersPairLosesCandles | src/bybit_ws_stream_manager.cpp:30-44 | For a pair that spells "tickers" no candle event changes the candle cache. |
| QueryString.CreateQueryStr | src/bybit_http_session.cpp:36-50 | The loop, which appends and drops the last character, gives the fields joined by `&`, for no parameters the empty text. |
| QueryString.ReadsBackExactlyWhenClean | src/bybit_http_session.cpp:36-50 | Splitting the query gives the parameters back, in order, if and only if no name holds `=` or `&` and no value holds `&`. |
| QueryString.CleanQueriesDiffer | src/bybit_http_session.cpp:36-50 | Different clean parameters have different queries. |
| QueryString.AuthenticateNonPost | src/bybit_http_session.cpp:77-92 | The signed text is time, key, window and what follows the first `?` of the target. |
| QueryString.Get | src/bybit_http_session.cpp:118-127 | The target is the path, with the query after `?` unless it is empty, and the signature is made from that target. |
| QueryString.TargetBeginsWithThePath | src/bybit_http_session.cpp:118-126 | The target begins with the path itself; only `?` and a query that is not empty follow. |
| QueryString.SignedIsAppendedExactlyWhen | src/bybit_http_session.cpp:77-84 | The query text that is signed is the one that was appended if and only if the path holds no `?`, or nothing was appended and its first `?` is its last letter. |
| QueryString.SignedNamesTheParameters | src/bybit_http_session.cpp:77-127 | From the signed query of every clean request the parameters can be read back. |
| Decimals.KeptIsLeast | src/bybit_models.cpp:326-332 | Stripping final zeros keeps at most p of n digits if and only if the last n - p digits are zeros. |
| OrderText.PrecisionOf | src/bybit_models.cpp:326-332 | The decimals counted after the point of the step's text, none without a point. |
| OrderText.PositionalDenotes | src/bybit_models.cpp:326-327 | The assumed text of a step from a ten thousandth up denotes the step. |
| OrderText.ScientificDenotes | src/bybit_models.cpp:326-327 | Below that the assumed text is one digit or two, with a point between them, and an exponent that makes them the step. |
| OrderText.PrecisionIsLeast | src/bybit_models.cpp:326-332 | For a step of at least a ten thousandth the precision is the least p for which 10 to the power 6 - p divides the step in millionths. |
| OrderText.ExactExactlyWhenPlacesSuffice | src/bybit_models.cpp:334 | An amount printed with p decimals reads back unchanged if and only if it has no digit after the p-th place. |
| OrderText.PrintedIsNearest | src/bybit_models.cpp:334 | Any other amount is printed within half a unit of the last place. |
| OrderText.PrintedHasPlaces | src/bybit_models.cpp:334 | What is printed with p decimals has exactly p digits after its point, no point for none, and otherwise only digits without a leading zero. |
| OrderText.PrecisionIsEnough | src/bybit_models.cpp:324-349 | All multiples of such a step print exactly with p decimals if and only if p is at least its precision. |
| OrderText.PrecisionWorksExactlyWhen | src/bybit_models.cpp:324-349 | All multiples of a step print exactly with the precision computed for it if and only if the step is zero or at least a ten thousandth. |
| OrderText.Order.constructor | include/vk/bybit/bybit_models.h:225-245 | The defaults of an order. |
| OrderText.Order.ToJson | src/bybit_models.cpp:288-351 | All fields of the request: those that are copied, those left out when they are empty, zero or not triggered by the last price, quantity and price each printed as their own step asks, and no price for a market order. |
| InstrumentPages.Download | src/bybit_rest_client.cpp:341-350 | The loop over cursors returns what `Load` gives for the chain of pages, or the error of the first page that fails. |
| InstrumentPages.LoadJoinsTheChain | src/bybit_rest_client.cpp:341-350 | A download is the in-order concatenation of the lists of the complete chain of pages. |
| InstrumentPages.LoadSucceedsExactlyWhen | src/bybit_rest_client.cpp:344-350 | It succeeds if and only if there is a complete chain. |
| InstrumentPages.EndsExactlyWhenNothingRepeats | src/bybit_rest_client.cpp:344-350 | Among finitely many cursors the loop comes to an end, or to an error, if and only if no cursor is asked for twice. |
| InstrumentCache.RESTClient.constructor | src/bybit_rest_client.cpp:110-120 | A new client has no list. |
| InstrumentCache.RESTClient.SetInstruments | src/bybit_rest_client.cpp:492-494 | The caller's list replaces the cached one. |
| InstrumentCache.RESTClient.GetInstrumentsInfo | src/bybit_rest_client.cpp:338-356 | Without a cached list, or when forced, a completed download for category and symbol is stored and returned; a failed one leaves the cache unchanged; otherwise the cached list is returned without a download, whatever it was downloaded for. |
| InstrumentCache.RESTClient.FindPricePrecisionsForInstrument | src/bybit_rest_client.cpp:139-151 | Found if and only if the list that answers for the category names the symbol; then the steps are those of the first such instrument, otherwise unchanged. |
| InstrumentCache.StepsAreOfTheFirst | src/bybit_rest_client.cpp:143-148 | The steps found are those of the instrument before which none has the symbol. |
| InstrumentCache.StepsAreTheDefault | src/bybit_rest_client.cpp:143-150 | Without such an instrument the steps stay as they were. |
| InstrumentCache.ListsExactlyWhen | src/bybit_rest_client.cpp:143-150 | One is found if and only if some instrument of the list has the symbol. |
| InstrumentCache.RESTClient.PlaceOrder | src/bybit_rest_client.cpp:397-411 | The order's steps, the whole request that is posted, and the answer read from the reply; when the download fails the order is untouched and nothing is posted. |
| InstrumentCache.Handled | src/bybit_rest_client.cpp:17-29 | A reply is an answer if and only if it came with status 200, parses, and has return code zero; its body is returned. |
| InstrumentCache.CacheIsLastStored | src/bybit_rest_client.cpp:124-137 | After any sequence of calls the cached list is that of the last call that stored one, or empty. |
| InstrumentCache.ReturnedIsLastStored | src/bybit_rest_client.cpp:338-356 | Over any sequence of calls every list returned is the last completed load or set list, and a failed load changes nothing. |
| InstrumentCache.AnswersItsKeyExactlyWhen | src/bybit_rest_client.cpp:339-355 | After any sequence of calls, every server that lists something under each category and symbol has a call answered with the list of its own category and symbol if and only if the call is forced, or nothing is cached, or the cached list was downloaded for the same ones. |
| InstrumentCache.SameKeyIsAnswered | src/bybit_rest_client.cpp:339-355 | With any server, failing or not, the category and symbol whose download was stored last get the server's own answer. |
| InstrumentCache.ListedOrderIsExact | src/bybit_rest_client.cpp:397-410 | An order in whole steps of a listed instrument is written as exactly the amounts that were meant. |
| InstrumentCache.PlacedOrderIsExact | src/bybit_rest_client.cpp:397-409 | The request posted for such an order denotes its quantity, and its price if and only if it has a limit. |
| InstrumentCache.UnlistedOrderIsExactExactlyWhen | src/bybit_rest_client.cpp:400-406 | Price and quantity of an order whose instrument is not listed are each exact if and only if they are in whole hundredths. |

## Left out

- Sockets, TLS, name resolution, HTTP exchange, threads of the I/O context, ping timers and buffer
  lifetimes: I/O; only operations that are outstanding, complete or fail are modelled.
- HMAC and hexadecimal encoding, and the signed text of POST requests, whose serialisation is not in
  the repository.
- JSON parsing and printing: messages are the values they carry. The helpers of the common library
  are not part of this model beyond the assumptions above.
- The field lists of the other models, conversions of enumerations, `toBybitInterval`,
  `isValidCandleResolution`, the spot connector, and thin request wrappers such as cancelling orders
  or closing positions: one-branch facts.
- `WebSocketClient`, which keeps a weak pointer to a session and makes a new one when it has expired:
  object lifetimes are not modelled.
- Several callers in server mode: a stale reply can overwrite a newer one, so the quota theorem is
  about one sequential client.
- 64-bit times and 32-bit limits are unbounded integers here; times near the limits of their types
  are not considered, and neither are negative page sizes.
- Floating point: prices are reals in the caches, and steps and amounts of orders are whole millionths,
  which is what the printed step keeps. Finer amounts, negative ones and steps of 10 to the power 50
  and more are not modelled.
- The number of looks of the stream readers is a hundred for each second of timeout; rounding of the
  division by 0.01 is not modelled, and neither is the time that a look takes.
- RateLimiting.RateLimiter.Wait: system clock changes are not modelled; the clock never runs backwards.
- StreamCache.StreamManager.OnEvent: what the source leaves undefined is not modelled, which is a candle
  event with an empty list, and a candle whose interval has no known name.
- SubscriptionSession.WebSocketSession.ReadSubscription: a queued text is a request, so the branch for
  one that does not parse is not modelled.
- InstrumentPages.Download: a chain of cursors that never ends makes the source loop for ever; it is
  excluded by a precondition, which holds exactly when no cursor comes back.
