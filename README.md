# orderbook-merger in Dafny

A model of the core of orderbook-merger, a C++ program that merges the order books of
several cryptocurrency exchanges and prices a market order against the merged book. It
covers two parts.

- **The aggregator** (`src/AggregatedOrderBook.cpp`, `include/OrderBookEntry.hpp`,
  `include/Exceptions.hpp`).
  - Each aggregate side is a price-keyed C++ `std::multimap`. The model writes it as the
    sequence its iteration visits: prices never decrease, and an inserted entry goes after
    the entries already there at its price.
  - The multimap key is the price the exchange adapter emplaced with the entry. The source
    never orders entries with `OrderBookEntry::operator<`: it inserts each pair under the
    exchange map's own key. The model orders by the entry's price, which is the same
    thing because every adapter and every test emplaces `(price, OrderBookEntry(price, ...))`
    (`src/Kraken.cpp:49`, `src/Gemini.cpp:42`, `src/CoinbasePro.cpp:45`).
  - `AggregatedOrderBook` is a class whose methods update its fields:
    - `exchanges`, a sequence of exchange values;
    - `aggregatedBids` and `aggregatedAsks`.
  - Each method is proved against functions of module `BookSide` and `Aggregator`:
    - `Merged` is the rebuilt side;
    - `CostsFor` is the pair `calculateCosts` returns, or the exception it throws;
    - `Walk` is the greedy level-by-level fill.
  - Lemmas about those functions prove:
    - the merge keeps every entry, sorts them, and keeps equal prices in exchange order;
    - liquidity adds up across exchanges;
    - the shortfall errors are raised in the order the code checks them;
    - a successful walk fills the quantity exactly;
    - costs lie within the price range of the side walked;
    - the repository's test cases.
- **The streaming client's reconnection logic** (`src/WebSocketClient.cpp`, the live code,
  lines 12–136).
  - Module `ReconnectSpec` states, as values, what every operation does to the client's
    bookkeeping:
    - the connected flag, the reconnect counter and the single-flight flag;
    - the armed read, the queue of posted work, and the callbacks fired.
  - The class `WebSocket.WebSocketClient` has those fields. Each method is proved to move
    them exactly as its `ReconnectSpec` function does.
  - The transport is an oracle: `handshakeSucceeds(k)` says whether the k-th handshake
    attempt succeeds.
  - Reads and posted tasks complete through methods that take the transport's outcome.
  - `ReconnectSpec.Lifetime` is the life of a client connected once: constructed, connected,
    then any sequence of the other operations.
  - `isConnected()` (line 123) is the field read `WebSocketClient.IsConnected`.

Prices and quantities are Dafny `real`, which is exact. That matches the 50-digit decimal
type wherever no rounding occurs.

### Where the live streaming code differs from the earlier implementation

The end of `src/WebSocketClient.cpp` (lines 138-321) keeps an earlier implementation,
commented out. That one reset the counter on every successful connect and reported "Failed
to reconnect after N attempts" when it gave up. The model follows the live code:

- **No reset on success.** The attempt counter is never reset on a successful connect.
  `resetReconnectAttempts` exists but nothing calls it.
- **One reconnect per trigger.** A failed trigger (a connect or a read error) leads to at
  most one reconnect handshake. The reconnect's own failure asks for another reconnect
  while the single-flight flag is still set, so that request is ignored.
- **The total is bounded.** Reconnect handshakes never exceed `maxReconnectAttempts`, over
  the life of a client connected once (`ReconnectsAreBounded`) and across further connects
  too, since each `connect` keeps the same account (`ConnectKeepsAccount`).
- **The counter stays small.** For a client connected once, every counted attempt after the
  connect comes from a read error, which needs a read armed by a handshake, so the counter
  never exceeds the handshakes made (`AttemptsAreBounded`).
- **A disconnected client stays down.** With no read armed, no operation other than a new
  `connect` ever connects it again (`DisconnectedStaysDown`). A new `connect` is legal only
  after `run` or `stop` has joined the I/O thread.
- **No final error.** No distinct "exhausted" error is raised.
- **Write errors do not reconnect.** A write error fires the error callback only.
- **Close is not special.** `close` does not stop a later read error from scheduling a
  reconnect.

## Model

| member | source | states |
|---|---|---|
| Entries.ConstructionKeepsFields | include/OrderBookEntry.hpp:14-19 | both constructors, and copies, keep price, quantity and exchange as given |
| Entries.Less | include/OrderBookEntry.hpp:33 | the entry's `operator<`: the first entry's price is strictly below the second's |
| Entries.LessIsPriceOnly | include/OrderBookEntry.hpp:33 | the ordering depends on the prices alone |
| Entries.LessIsStrictWeakOrder | include/OrderBookEntry.hpp:33 | the ordering is irreflexive, asymmetric and transitive, and so is its incomparability |
| Entries.EquivalentIffSamePrice | include/OrderBookEntry.hpp:33 | two entries are equivalent under the ordering exactly when their prices are equal |
| Exceptions.GettersReturnConstructorArguments | include/Exceptions.hpp:9-19 | the getters and the message return what the exception was built with, also on a copy |
| BookSide.Min | src/AggregatedOrderBook.cpp:95 | `std::min(remaining, quantity)`: the quantity when it is strictly smaller, otherwise the remainder |
| BookSide.SumQuantities | src/AggregatedOrderBook.cpp:56-70 | the sum of the quantities on a side, in iteration order |
| BookSide.Reverse | src/AggregatedOrderBook.cpp:102 | the side in `rbegin`-to-`rend` order: last entry first |
| BookSide.Insert | src/AggregatedOrderBook.cpp:27 | a multimap insert adds exactly the new entry to the side's contents |
| BookSide.InsertSorted | src/AggregatedOrderBook.cpp:26-28 | inserting into an ordered side leaves it ordered |
| BookSide.InsertIsStable | src/AggregatedOrderBook.cpp:26-28 | at every price, the inserted entry comes after the entries already there at that price |
| BookSide.InsertAll | src/AggregatedOrderBook.cpp:26-34 | one insert loop: the given entries inserted one after another, first to last |
| BookSide.InsertAllSorted | src/AggregatedOrderBook.cpp:26-34 | inserting any sequence of entries into an ordered side leaves it ordered |
| BookSide.InsertAllIsStable | src/AggregatedOrderBook.cpp:26-34 | after inserting a sequence, the entries at each price are the old ones followed by the new ones in insertion order |
| BookSide.InsertAllAppend | src/AggregatedOrderBook.cpp:21-35 | inserting two batches one after the other is inserting their concatenation |
| BookSide.SumInsertAll | src/AggregatedOrderBook.cpp:56-70 | inserting entries adds their quantities to the side's liquidity |
| BookSide.SumNonNegative | src/AggregatedOrderBook.cpp:56-70 | a side with no negative quantity has non-negative liquidity |
| BookSide.ReverseOfSorted | src/AggregatedOrderBook.cpp:102 | walking an ordered side backwards starts at its highest price and never rises |
| BookSide.SumReverse | src/AggregatedOrderBook.cpp:102-109 | walking backwards sees the same total quantity |
| BookSide.Walk | src/AggregatedOrderBook.cpp:89-98 | the walk fills at most one amount per level |
| BookSide.WalkFillsAddUp | src/AggregatedOrderBook.cpp:93-97 | the fills add up to the requested quantity less what remains |
| BookSide.WalkRemainingBounds | src/AggregatedOrderBook.cpp:93-97 | the remaining quantity never goes negative, never exceeds the request, and each fill lies between zero and the request |
| BookSide.WalkFillsExactly | src/AggregatedOrderBook.cpp:89-98 | when the side holds at least the request, nothing remains and the fills add up to exactly the request |
| BookSide.WalkCostIsSumOfFills | src/AggregatedOrderBook.cpp:95-96 | the cost is the sum of each fill times its level's price |
| BookSide.WalkCostBounds | src/AggregatedOrderBook.cpp:89-98 | on levels priced within a range, the cost lies between the total filled times the lowest and times the highest price of that range |
| BookSide.WalkNothing | src/AggregatedOrderBook.cpp:93 | a request of zero or less costs nothing and fills nothing |
| Aggregator.Merged | src/AggregatedOrderBook.cpp:16-35 | a side rebuilt from empty by inserting each exchange's entries on that side, exchange by exchange |
| Aggregator.CostsFor | src/AggregatedOrderBook.cpp:72-112 | the buy shortfall error if the asks are too thin, else the sell shortfall error if the bids are, else the walk costs of the asks forward and the bids reversed |
| Aggregator.AfterFetch | src/AggregatedOrderBook.cpp:9-12 | an exchange after a successful fetch holds the fetched books; after a failed one, its old books |
| Aggregator.FirstError | src/AggregatedOrderBook.cpp:9-12 | the error of the first fetch that throws, or none |
| Aggregator.FailIndex | src/AggregatedOrderBook.cpp:9-12 | every fetch before the index succeeded and the fetch at the index threw |
| Aggregator.Refreshed | src/AggregatedOrderBook.cpp:9-12 | a fetch cycle keeps the number of exchanges |
| Aggregator.AggregatedOrderBook.constructor | include/AggregatedOrderBook.hpp:18-21 | a new aggregator has no exchanges and empty, ordered sides |
| Aggregator.AggregatedOrderBook.AddExchange | src/AggregatedOrderBook.cpp:7 | the exchange is appended, duplicates included, and the aggregate sides are unchanged |
| Aggregator.AggregatedOrderBook.FetchAllOrderBooks | src/AggregatedOrderBook.cpp:9-14 | exchanges are refreshed in order up to the first fetch that throws; that error is returned, and the aggregates are rebuilt only if no fetch threw |
| Aggregator.AggregatedOrderBook.MergeOrderBooks | src/AggregatedOrderBook.cpp:16-39 | both sides are cleared and rebuilt from every exchange's entries, exchange by exchange, bids then asks; the exchanges are unchanged |
| Aggregator.AggregatedOrderBook.CalculateAvailableLiquidity | src/AggregatedOrderBook.cpp:56-70 | the total ask quantity for a buy, the total bid quantity for a sell |
| Aggregator.BuyCost | src/AggregatedOrderBook.cpp:89-98 | the buy loop, run from the lowest ask up, pays exactly the cost of the greedy walk over the asks |
| Aggregator.SellProceeds | src/AggregatedOrderBook.cpp:100-109 | the sell loop, run from the highest bid down, receives exactly the cost of the greedy walk over the reversed bids |
| Aggregator.AggregatedOrderBook.CalculateCosts | src/AggregatedOrderBook.cpp:72-112 | the result, or the exception, is the one `CostsFor` assigns to the current sides |
| Aggregator.MergeStep | src/AggregatedOrderBook.cpp:21-35 | merging one more exchange inserts its entries after everything merged so far |
| Aggregator.EntryCountIsLength | src/AggregatedOrderBook.cpp:37-38 | the entry count reported is the number of entries the exchanges hold |
| Aggregator.MergeIsUnionInOrder | src/AggregatedOrderBook.cpp:16-35 | a merged side holds exactly the exchanges' entries as a multiset, is ordered, and at each price keeps exchange order |
| Aggregator.InAllEntries | src/AggregatedOrderBook.cpp:21-35 | every entry of every exchange is among the merged entries |
| Aggregator.FromSomeExchange | src/AggregatedOrderBook.cpp:21-35 | every merged entry comes from some exchange |
| Aggregator.BestAskIsLowest | src/AggregatedOrderBook.cpp:91 | the first merged ask is no higher than any exchange's ask |
| Aggregator.BestAskIsQuoted | src/AggregatedOrderBook.cpp:91 | the first merged ask is one of some exchange's asks |
| Aggregator.BestBidIsHighest | src/AggregatedOrderBook.cpp:102 | the last merged bid is no lower than any exchange's bid |
| Aggregator.BestBidIsQuoted | src/AggregatedOrderBook.cpp:102 | the last merged bid is one of some exchange's bids |
| Aggregator.MergedLiquidity | src/AggregatedOrderBook.cpp:56-70 | after a merge, a side's liquidity is the sum of the exchanges' liquidity on it |
| Aggregator.RefreshIsIdempotent | src/AggregatedOrderBook.cpp:16-20 | repeating a successful fetch cycle with the same books changes neither the exchanges nor the merged sides |
| Aggregator.ShortfallErrors | src/AggregatedOrderBook.cpp:77-87 | the call fails exactly when either side is too thin; the buy side is checked first, and each error carries its message, the request and that side's liquidity |
| Aggregator.SuccessFillsExactly | src/AggregatedOrderBook.cpp:89-109 | on success both walks fill exactly the requested quantity |
| Aggregator.NothingCostsNothing | src/AggregatedOrderBook.cpp:93 | asking for zero or less succeeds with both costs zero |
| Aggregator.BuyCostWithinAskRange | src/AggregatedOrderBook.cpp:89-98 | the buy cost lies between the quantity times the lowest ask and times the highest ask |
| Aggregator.SellProceedsWithinBidRange | src/AggregatedOrderBook.cpp:100-109 | the sell proceeds lie between the quantity times the lowest bid and times the highest bid |
| Aggregator.TwoExchangeExample | tests/OrderBookTests.cpp:58-82 | one unit across the two test exchanges buys at 50100 and sells at 50050 |
| Aggregator.MultiLevelExample | src/AggregatedOrderBook.cpp:89-98 | one unit against 0.5 at 100 and 1 at 101 costs 100.5 |
| Aggregator.InsufficientLiquidityExample | tests/OrderBookTests.cpp:31-55 | the merged two-unit book rejects three units on the buy side, requested 3, available 2 |
| Aggregator.InsufficientLiquidityAsWritten | tests/OrderBookTests.cpp:41-51 | without a fetch, the exception reports 0 available, not 2 |
| Aggregator.InsufficientLiquidityWithMerge | tests/OrderBookTests.cpp:31-55 | with the fetch and merge, the exception reports 3 requested and 2 available |
| ReconnectSpec.DefaultConfig | include/WebSocketClient.hpp:13-18 | the defaults are 5 attempts, a 5000 ms interval, a 10000 ms timeout, and auto-reconnect on |
| ReconnectSpec.Initial | src/WebSocketClient.cpp:12-18 | the constructed client: disconnected, no attempt, no reconnect in flight, nothing posted or fired |
| ReconnectSpec.Connect | src/WebSocketClient.cpp:22-26 | stores the URI, then one `doConnect` |
| ReconnectSpec.DoConnect | src/WebSocketClient.cpp:28-47 | one handshake: on success connected, connect callback, read armed; on failure disconnected, error callback, and a reconnect request when auto-reconnect is on |
| ReconnectSpec.ScheduleReconnect | src/WebSocketClient.cpp:125-134 | nothing while a reconnect is in flight; otherwise set the flag, count one attempt, `doConnect` only while the count is within the maximum, clear the flag |
| ReconnectSpec.ReadCompleted | src/WebSocketClient.cpp:81-97 | the read handler: an error disconnects, fires the error callback and requests a reconnect when auto-reconnect is on; a message fires the message callback and re-arms the read |
| ReconnectSpec.Send | src/WebSocketClient.cpp:49-53 | posts a write only while connected |
| ReconnectSpec.DoSend | src/WebSocketClient.cpp:55-61 | the write reaches the transport, or the error callback fires |
| ReconnectSpec.Close | src/WebSocketClient.cpp:63-65 | posts a close |
| ReconnectSpec.DoClose | src/WebSocketClient.cpp:67-75 | a completed close disconnects and fires the disconnect callback; a failed one fires the error callback |
| ReconnectSpec.RunTask | src/WebSocketClient.cpp:49-75 | runs the oldest posted task, a write or a close, with the given outcome |
| ReconnectSpec.ResetReconnectAttempts | src/WebSocketClient.cpp:136 | sets the counter to zero |
| ReconnectSpec.InitialState | src/WebSocketClient.cpp:12-18 | a new client is disconnected, with no attempt counted and no reconnect in flight |
| ReconnectSpec.SendOnlyWhileConnected | src/WebSocketClient.cpp:49-53 | a send while disconnected changes nothing; while connected it only posts the write |
| ReconnectSpec.FlagRestored | src/WebSocketClient.cpp:125-134 | neither a connection attempt nor a reconnect request changes the single-flight flag's value |
| ReconnectSpec.SingleFlight | src/WebSocketClient.cpp:126 | a reconnect request while one is in flight changes nothing |
| ReconnectSpec.NestedConnect | src/WebSocketClient.cpp:28-47 | a handshake made during a reconnect never counts or schedules another attempt |
| ReconnectSpec.AdmittedReconnect | src/WebSocketClient.cpp:125-134 | an admitted request counts one attempt, makes one handshake within the maximum and none beyond it, and clears the flag |
| ReconnectSpec.ConnectOutcome | src/WebSocketClient.cpp:28-47 | success marks the client connected and arms a read; failure fires the error callback first and reconnects exactly when auto-reconnect is on |
| ReconnectSpec.NoRetryChain | src/WebSocketClient.cpp:42-46 | one connection attempt makes at most two handshakes and counts at most one attempt |
| ReconnectSpec.ReadHandler | src/WebSocketClient.cpp:81-97 | a message goes to the callback and a new read is armed; an error disconnects, fires the error callback, and reconnects exactly when auto-reconnect is on |
| ReconnectSpec.WriteOutcome | src/WebSocketClient.cpp:55-61 | a successful write records the message and nothing else; a failed one fires only the error callback; neither disconnects, counts an attempt or makes a handshake |
| ReconnectSpec.CloseOutcome | src/WebSocketClient.cpp:67-75 | a completed close disconnects and fires the disconnect callback, a failed one fires the error callback, and neither reconnects |
| ReconnectSpec.StepNeverLowersAttempts | src/WebSocketClient.cpp:125-136 | no operation lowers the attempt counter or leaves a reconnect in flight |
| ReconnectSpec.RunNeverLowersAttempts | src/WebSocketClient.cpp:125-136 | over any run of operations the counter never decreases |
| ReconnectSpec.ExhaustedReconnectIsInert | src/WebSocketClient.cpp:127-131 | once the counter has reached the maximum, a request makes no handshake |
| ReconnectSpec.ExhaustedRunMakesNoHandshake | src/WebSocketClient.cpp:127-131 | once the counter has reached the maximum, no further operation other than a new `connect` ever makes a handshake |
| ReconnectSpec.ReconnectAccount | src/WebSocketClient.cpp:126-131 | each admitted request makes exactly the handshakes its step of the counter allows |
| ReconnectSpec.StepKeepsAccount | src/WebSocketClient.cpp:81-97 | every operation keeps the handshake count in step with the admitted reconnects |
| ReconnectSpec.RunKeepsAccount | src/WebSocketClient.cpp:22-136 | every run keeps the handshake count in step with the admitted reconnects |
| ReconnectSpec.ConnectKeepsAccount | src/WebSocketClient.cpp:22-47 | a connect with no reconnect in flight makes one handshake of its own and keeps the handshakes in step with the admitted reconnects, whatever the counter already holds |
| ReconnectSpec.ReconnectsAreBounded | src/WebSocketClient.cpp:22-136 | over the life of a client connected once, the handshakes are the connect's one plus the admitted reconnects, never more than the maximum |
| ReconnectSpec.ReconnectKeepsCovered | src/WebSocketClient.cpp:125-134 | an admitted reconnect from a state with a spare handshake and no read armed leaves every attempt matched by a handshake |
| ReconnectSpec.StepKeepsCovered | src/WebSocketClient.cpp:81-97 | every operation keeps the attempts, plus the armed read, at most the handshakes made |
| ReconnectSpec.RunKeepsCovered | src/WebSocketClient.cpp:22-136 | every run keeps the attempts, plus the armed read, at most the handshakes made |
| ReconnectSpec.AttemptsAreBounded | src/WebSocketClient.cpp:22-136 | over the life of a client connected once, the attempt counter never exceeds the handshakes made, so never exceeds one more than the maximum |
| ReconnectSpec.DeadServer | src/WebSocketClient.cpp:28-47 | against a server that always fails, one attempt is counted, one reconnect is made if allowed, one error fires per handshake, and the client ends down |
| ReconnectSpec.DisconnectedStaysDown | src/WebSocketClient.cpp:49-97 | a disconnected client with no read armed makes no handshake and does not connect again under any operation other than a new `connect` |
| WebSocket.WebSocketClient.constructor | src/WebSocketClient.cpp:12-18 | a new client is the initial state, with no I/O thread started |
| WebSocket.WebSocketClient.IsConnected | src/WebSocketClient.cpp:123 | the connected flag as stored |
| WebSocket.WebSocketClient.Connect | src/WebSocketClient.cpp:22-26 | stores the URI, starts the I/O thread, then acts as `ReconnectSpec.Connect` |
| WebSocket.WebSocketClient.DoConnect | src/WebSocketClient.cpp:28-47 | the fields move as `ReconnectSpec.DoConnect` says |
| WebSocket.WebSocketClient.ScheduleReconnect | src/WebSocketClient.cpp:125-134 | the fields move as `ReconnectSpec.ScheduleReconnect` says |
| WebSocket.WebSocketClient.ReadMessage | src/WebSocketClient.cpp:77-81 | arms a read and changes nothing else |
| WebSocket.WebSocketClient.OnReadComplete | src/WebSocketClient.cpp:81-97 | the fields move as `ReconnectSpec.ReadCompleted` says |
| WebSocket.WebSocketClient.Send | src/WebSocketClient.cpp:49-53 | the fields move as `ReconnectSpec.Send` says |
| WebSocket.WebSocketClient.DoSend | src/WebSocketClient.cpp:55-61 | the fields move as `ReconnectSpec.DoSend` says |
| WebSocket.WebSocketClient.Close | src/WebSocketClient.cpp:63-65 | the fields move as `ReconnectSpec.Close` says |
| WebSocket.WebSocketClient.DoClose | src/WebSocketClient.cpp:67-75 | the fields move as `ReconnectSpec.DoClose` says |
| WebSocket.WebSocketClient.RunNextTask | src/WebSocketClient.cpp:49-65 | runs the oldest posted task, as `ReconnectSpec.RunTask` says |
| WebSocket.WebSocketClient.ResetReconnectAttempts | src/WebSocketClient.cpp:136 | sets the counter to zero and changes nothing else |

## Left out

- Logging (`LOG_INFO`, `LOG_DEBUG`, `logOrderBookMerge`): it only writes text. The merge's
  entry counts are stated by `EntryCountIsLength`.
- `printOrderBook` is declared at `include/AggregatedOrderBook.hpp:13` and never defined, so
  there is nothing to model.
- The exchange adapters, HTTP, JSON parsing, `LiveDataManager` and the command line are not
  part of this model. An exchange's fetch is an outcome given to `FetchAllOrderBooks`.
- A failed fetch is taken to leave that exchange's books as they were. The adapters can throw
  after clearing them (a well-formed response of the wrong shape). The model does not track
  those partial books. No aggregate sees them: a merge follows only a fetch cycle in which no
  fetch failed.
- Exchanges are held through shared pointers in the source. The model holds them as values,
  so aliasing between two registrations of one object is not captured.
- `cpp_dec_float_50`: the model uses exact reals. Rounding beyond 50 digits is not modelled.
  Neither are NaN and infinity. `main.cpp` passes a `double` quantity, and a NaN one would
  pass both shortfall checks and the `<= 0` break, since every comparison with NaN is false.
  It would then produce NaN costs, which exact reals cannot represent.
- The streaming transport is an oracle. This covers Boost.Asio/Beast, TLS, name
  resolution and byte buffers. Each handshake ends in success or failure.
- `connectionTimeoutMs` is never read by the live code; the blocking resolve, connect and
  handshakes have no deadline. A handshake that blocks forever is not modelled.
- Error events carry which operation failed (handshake, read, write or close), not the
  message text the error callback receives (`e.what()` or `ec.message()`).
- The separate I/O thread, `run`, `stop` and the destructor are not modelled. The
  `std::atomic` memory ordering and any interleaving between the I/O thread and the caller
  are not modelled either: operations happen one at a time.
- `std::this_thread::sleep_for` before a reconnect: time is not modelled.
- The model lets any armed read or posted task complete. In the live code they may never
  run: `connect` starts `io_context_.run()` before any work is queued and holds no work
  guard, so `run()` can return at once and leave the context stopped.
- WebSocket.WebSocketClient.Connect: requires that no I/O thread has been started. A second
  `connect` while the thread is still joinable assigns a new thread over it, which
  terminates the process. A `connect` after `run()` or `stop()` has joined the I/O thread is
  legal and is not modelled as a method call; `ReconnectSpec.Lifetime` covers a client
  connected once, and `ConnectKeepsAccount` shows that a further connect keeps the
  reconnect account.
- Handler registration (`setMessageHandler` and the others) is not modelled. The event log
  records every callback as if a handler were registered; an unregistered one would do
  nothing.
- The stream object replaced by each `doConnect`, and the cancellation of reads armed on
  the old stream, are not modelled.
- Using a stream that was never created (a `send` or `close` before any handshake) is not
  modelled. The posted task completes with the outcome given.
- `reconnect_attempts_` is an `int`; the model uses an unbounded integer. For a client
  connected once it cannot wrap around: `AttemptsAreBounded` shows the counter never exceeds
  one more than `maxReconnectAttempts` (six with the defaults), so only a configured maximum
  of `INT_MAX - 1` or more would reach the limit of an `int`. Each further `connect` after a
  join can admit more read errors; the model proves no bound on the counter for that case.
- The commented-out previous implementation at the end of `src/WebSocketClient.cpp` is not
  modelled.

## Findings

| source | as written | input that shows it | evidently intended | confidence | as-written member | corrected member |
|---|---|---|---|---|---|---|
| tests/OrderBookTests.cpp:41-51 | the test adds the mock exchange and calls `calculateCosts(3.0)` without `fetchAllOrderBooks`, so both aggregate sides are empty and the exception reports 0 available | one mock exchange with two one-unit levels per side, quantity 3.0 | fetch and merge first, so that the buy-side exception reports 3 requested and 2 available, as the test expects | high, not executed | Aggregator.InsufficientLiquidityAsWritten | Aggregator.InsufficientLiquidityWithMerge |
