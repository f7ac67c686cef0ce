# Verified models of the trading components

Dafny models of six components of the repository, with proofs that hold for every input, every history of
operations, or every interleaving of threads.  `dafny verify dfyconfig.toml` checks the whole project.

| component | files |
|---|---|
| lock-free bounded queue | `BoundedFifo`, `TicketQueue`, `TicketQueueInvariant`, `TicketQueueTheorems`, `TicketQueueAnswers`, `TicketQueueCalls`, `ConcurrentQueue` |
| producer and consumer pipeline | `OrderFlow`, `OrderFlowTheorems`, `OrderTotals`, `OrderProcessing` |
| matching engine, order book, memory pool | `Matching`, `MemoryPool`, `OrderBook`, `TimePriority`, `MatchingEngine`, `SlotSets` |
| Robin Hood hash table | `RobinHoodTable`, `RobinHoodHashTable` |
| two limit order books and the object pool | `PriceLevels`, `ObjectPool`, `LimitOrderBooks`, `BookAgreement` |
| heap and matrix routines | `PriorityQueue`, `Matrices`, `MatrixOps` |

**Queue.** Every atomic load, compare-exchange, plain read or write, and atomic store of `push`, `pop`, `is_empty`
and `size` is one step of one thread, and a schedule may interleave the steps of any number of threads.  A weak
compare-exchange may fail spuriously.  The state also records the items by push ticket and which thread won which
ticket; no step reads these records.  The same steps model `push` and `pop` of both copies of the queue.  Atomics are
sequentially consistent and tickets are unbounded naturals.  The class admits a capacity of one; `BoundedIffTwoCells` shows that
the queue is bounded by its capacity exactly from two cells on, and the other results are for two cells or more.
Successful operations are linearisable.  A refusal is not always: a pop may answer that there is nothing although the
queue holds items during the whole call (`RefusalUnexplained`).  `HistoryLegalIff` says exactly when all answers together
are a legal history.

**Pipeline.** Producers and consumers over the abstract bounded queue that the first component implements.  A push
or pop may fail at any moment, which covers the failures the concurrent queue shows while other operations are in
flight (`RefusalLegalIff`).  An order is identified by its producer and index, because order numbers repeat across producers.

**Matching engine.** The book holds pointers (block numbers) in two price-sorted lists and an id index; the orders
live in the blocks of the pool.  References held by callers are a multiset, and the last reference frees the block.
A market is also described by values alone: each side as the list of prices, blocks and quantities, and the list of
free blocks.  `ProcessMarketData` is proved equal to a function on those values.

**Hash table.** A stored probe distance is an upper bound of the true one, because `insert` goes on counting with
its own distance after an exchange.  The invariant is that every slot on the cyclic path from a key's home to its
position is occupied and stores a distance of at least its own distance from that home.  `erase` may break it by
leaving a hole; the results say exactly when, when an insertion into such a table is safe, and that growing repairs
it.  The load test `num_elements / capacity > 0.7` is `10 * n > 7 * capacity`.

**Limit order books.** The simple book keeps copies in two maps, the pooled one keeps pointers to pooled objects in
two maps.  Both are proved against one map from ids to orders.

**Heap and matrices.** The heap is proved for every strict weak order.  The matrix routines are proved for an
arbitrary addition and multiplication with no algebraic laws, since every routine adds the terms of a cell in the same
order; the results therefore hold for floating point as well.

## Model

| member | source | states |
|---|---|---|
| BoundedFifo.FirstInFirstOut | week_7/src/ConcurrentQueue.hpp:45-104 | in a legal history of the bounded queue the items put in are the items taken out followed by those still inside, and never more than the capacity are inside |
| TicketQueue.StepFrame | week_7/src/ConcurrentQueue.hpp:45-116 | a step moves one thread only, advances at most one of the counters, by one, and only extends the log of pushed items |
| TicketQueueInvariant.InitInv | week_7/src/ConcurrentQueue.hpp:39-43 | the constructor establishes the invariant on every ring of two cells or more |
| TicketQueueInvariant.StepInv | week_7/src/ConcurrentQueue.hpp:45-116 | every step of every thread keeps the invariant: head <= tail <= head + capacity, each cell's sequence number is its push ticket or that plus one, and what a thread in mid-operation knows stays true |
| TicketQueueInvariant.RunInv | week_7/src/ConcurrentQueue.hpp:45-116 | so does every schedule |
| TicketQueueInvariant.TailCell | week_7/src/ConcurrentQueue.hpp:49-64 | what a sequence number below, at or above a push position says about tail, head and the ticket the cell serves |
| TicketQueueInvariant.HeadCell | week_7/src/ConcurrentQueue.hpp:79-95 | the same for a pop position |
| TicketQueueTheorems.Linearisable | week_7/src/ConcurrentQueue.hpp:45-104 | the successful operations of every schedule, linearised at the winning compare-exchanges, are a legal history of the bounded queue; the k-th finished pop returned the k-th item pushed; false answers are not part of this history |
| TicketQueueTheorems.StepRefines | challenge/client/ConcurrentQueue.h:25-71 | each step is invisible to the abstract queue or is exactly one legal enqueue or dequeue of it |
| TicketQueueTheorems.AtRestNothingIsLost | week_7/src/ConcurrentQueue.hpp:75-104 | once all operations have returned, the items handed to callers are exactly the pushed items of the tickets below the head |
| TicketQueueTheorems.OneOwnerPerCell | week_7/src/ConcurrentQueue.hpp:67-71 | no two threads are between compare-exchange and sequence store on one cell, although their tests may have been stale |
| TicketQueueTheorems.SequenceMonotone | week_7/src/ConcurrentQueue.hpp:71-102 | no step decreases any cell's sequence number |
| TicketQueueTheorems.PushTestMeans | week_7/src/ConcurrentQueue.hpp:49-64 | a push answers false exactly when tail is at its position and the cell still serves the ticket one ring earlier, whose pop is unfinished; it retries only if the tail has moved past |
| TicketQueueTheorems.PopTestMeans | week_7/src/ConcurrentQueue.hpp:79-95 | a pop answers false exactly when head is at its position and that ticket's push is unclaimed or in flight; it retries only if the head has moved past |
| TicketQueueTheorems.AloneFalseIsExact | week_7/src/ConcurrentQueue.hpp:60-92 | with no other operation in flight, false means exactly full, or exactly empty |
| TicketQueueTheorems.PopReturnsItsTicket | week_7/src/ConcurrentQueue.hpp:98-103 | the finishing pop of a ticket returns the item pushed under that ticket, once |
| TicketQueueAnswers.RefusalLegalIff | week_7/src/ConcurrentQueue.hpp:49-95 | at its load, a push's false answer is legal for the bounded queue exactly when head is a ring behind its position, a pop's exactly when no push of its ticket is in flight |
| TicketQueueAnswers.HistoryLegalIff | week_7/src/ConcurrentQueue.hpp:45-104 | for every schedule: all answers, false ones included, form a legal history of the bounded queue exactly when no false answer was given while the operation it waits for was in flight |
| TicketQueueAnswers.AloneHasNoRival | week_7/src/ConcurrentQueue.hpp:60-92 | a caller that runs no other operation meanwhile is on the safe side of that condition |
| TicketQueueAnswers.RefusalUnexplained | week_7/src/ConcurrentQueue.hpp:75-92 | on two cells, with one push stalled after its compare-exchange, a pop that starts after another push has returned true answers false while the queue holds both items during its whole call |
| TicketQueueCalls.PushKeepsItem | week_7/src/ConcurrentQueue.hpp:45-73 | from call to answer a push carries the item it was called with, whether or not it loses its compare-exchange; it answers true exactly when it publishes its cell, and false only without a ticket |
| TicketQueueCalls.PopKeepsGoing | week_7/src/ConcurrentQueue.hpp:75-104 | a pop answers with an item exactly when it releases its cell, and with nothing only without a ticket |
| TicketQueueCalls.EnqueuesArguments | week_7/src/ConcurrentQueue.hpp:45-73 | over every schedule, the items put into the queue are, in ticket order, the arguments of the calls of push that took the tickets |
| TicketQueueCalls.TrueMeansOnce | week_7/src/ConcurrentQueue.hpp:53-72 | over every schedule, a thread's tickets are as many as its pushes that answered true and the one still in flight: true means put in exactly once, false never |
| TicketQueueTheorems.IsEmptyLinearisable | week_7/src/ConcurrentQueue.hpp:106-110 | with any steps of others between its loads, true means empty at the second load and false means nonempty at some instant of the call |
| TicketQueueTheorems.SizeNeverUnderflows | week_7/src/ConcurrentQueue.hpp:112-116 | the answer is the length at the second load plus the pops since the first, so it is never negative |
| TicketQueueTheorems.OneCellOverfills | week_7/src/ConcurrentQueue.hpp:37-71 | on a ring of one cell two pushes succeed with no pop between |
| TicketQueueTheorems.BoundedIffTwoCells | week_7/src/ConcurrentQueue.hpp:37 | of the capacities the assertion admits, exactly those from two on never let the tail run more than the capacity ahead of the head |
| ConcurrentQueues.ConcurrentQueue.constructor | week_7/src/ConcurrentQueue.hpp:39-43 | the new object is the initial state |
| ConcurrentQueues.ConcurrentQueue.Act | week_7/src/ConcurrentQueue.hpp:45-116 | one atomic action on the object's fields is one step of the transition system |
| ConcurrentQueues.ConcurrentQueue.Serve | week_7/src/ConcurrentQueue.hpp:45-116 | any interleaving of actions is the corresponding run |
| ConcurrentQueues.ConcurrentQueue.Push | week_7/src/ConcurrentQueue.hpp:45-73 | run by one thread alone, with spurious failures, it appends the item, and refuses exactly when the queue is full |
| ConcurrentQueues.ConcurrentQueue.Pop | week_7/src/ConcurrentQueue.hpp:75-104 | run by one thread alone, it takes the oldest item, and refuses exactly when the queue is empty |
| OrderFlowTheorems.StepInv | week_7/src/OrderProcessing.cpp:62-130 | every action of every producer and consumer keeps the invariant |
| OrderFlowTheorems.StepOnePlace | week_7/src/OrderProcessing.cpp:76-129 | each pushed order stays in exactly one place, the queue, one consumer or the counted ones, and is booked and logged once by the time it is counted |
| OrderFlowTheorems.StepConserves | week_7/src/OrderProcessing.cpp:62-130 | not yet pushed + queued + held + counted stays the total |
| OrderFlowTheorems.CountedMeansDone | week_7/src/OrderProcessing.cpp:86-130 | the counter reaches the total exactly when every order is pushed, popped, booked, logged and counted |
| OrderFlowTheorems.LeavingMeansDone | week_7/src/OrderProcessing.cpp:88-93 | a consumer leaves its loop only then; the book is the one all orders make and the store has one record of each |
| OrderFlowTheorems.SameBook | week_7/src/OrderProcessing.cpp:107-112 | the book depends on which orders were entered, not on the interleaving |
| OrderFlowTheorems.BookSums | week_7/src/OrderProcessing.cpp:107-112 | per symbol and side the book holds the sum of the quantities entered |
| OrderFlowTheorems.BookSymbols | week_7/src/OrderProcessing.cpp:109 | the book has exactly the symbols of the orders entered |
| OrderFlowTheorems.EveryRun | week_7/src/OrderProcessing.cpp:136-164 | conservation at every moment of every run from the start, and the final book and store once a consumer has left |
| OrderFlowTheorems.StepWork | week_7/src/OrderProcessing.cpp:62-130 | an action that moves an order on lowers the moves left over all orders by exactly one, every other action leaves them unchanged |
| OrderFlowTheorems.RunWork | week_7/src/OrderProcessing.cpp:62-130 | in every run the moves made and the moves left add up to those left at its start |
| OrderFlowTheorems.WorkDone | week_7/src/OrderProcessing.cpp:86-130 | no move is left exactly when every order is counted |
| OrderFlowTheorems.MovesBounded | week_7/src/OrderProcessing.cpp:136-164 | every run from the start makes at most five moves an order, and exactly that many when all are counted |
| OrderFlowTheorems.SomethingToDo | week_7/src/OrderProcessing.cpp:86-130 | with at least one consumer, while orders are uncounted an action that moves an order is enabled, at once or after one consumer's check |
| OrderFlowTheorems.WindingDown | week_7/src/OrderProcessing.cpp:88-95 | once all are counted, every action still enabled brings a consumer closer to leaving |
| OrderFlowTheorems.CanFinish | week_7/src/OrderProcessing.cpp:136-164 | from every reachable state some run makes all consumers leave |
| OrderFlowTheorems.OrderNumbersUniqueIff | week_7/src/OrderProcessing.cpp:65 | order numbers tell all orders apart exactly with at most 10000 orders a producer or at most one producer |
| OrderTotals.FinalTotals | week_7/src/OrderProcessing.cpp:66-73 | in numbers: with a multiple of thirty orders a producer, each of the three symbols ends with 70 units bought and 75 sold for every thirty orders of an even producer, and the other way round for an odd one |
| OrderProcessing.ActionsAreLegal | week_7/src/OrderProcessing.cpp:62-130 | any schedule of turns of the threads' loops is a legal run |
| OrderProcessing.TurnOf | week_7/src/OrderProcessing.cpp:62-130 | every action that is enabled is some thread's turn |
| OrderProcessing.ScheduleOf | week_7/src/OrderProcessing.cpp:62-130 | so every legal run comes from a schedule of turns |
| OrderProcessing.SomeScheduleFinishes | week_7/src/OrderProcessing.cpp:136-164 | from every reachable state some schedule of turns makes all consumers leave |
| OrderProcessing.OrderPipeline.constructor | week_7/src/OrderProcessing.cpp:136-158 | the pipeline starts in the initial state |
| OrderProcessing.OrderPipeline.ProducerTurn | week_7/src/OrderProcessing.cpp:62-80 | one iteration of the push loop: an order that finds room and whose push does not fail joins the end of the queue, otherwise nothing changes |
| OrderProcessing.OrderPipeline.ConsumerTurn | week_7/src/OrderProcessing.cpp:83-130 | the next action of the consumer's loop; a pop that does not fail takes the oldest order of a nonempty queue |
| OrderProcessing.OrderPipeline.TryPop | week_7/src/OrderProcessing.cpp:88-95 | the pop: the oldest order goes from the queue to the consumer, or the consumer goes on to its check |
| OrderProcessing.OrderPipeline.CheckTotal | week_7/src/OrderProcessing.cpp:89-94 | the consumer leaves exactly when as many orders are counted as there are in all |
| OrderProcessing.OrderPipeline.BookOrder | week_7/src/OrderProcessing.cpp:107-112 | the quantity is added on the order's side of its symbol, and nothing else in the book changes |
| OrderProcessing.OrderPipeline.LogOrder | week_7/src/OrderProcessing.cpp:120-127 | one record with the order's number is appended |
| OrderProcessing.OrderPipeline.CountOrder | week_7/src/OrderProcessing.cpp:129 | the counter goes up by one |
| OrderProcessing.OrderPipeline.Run | week_7/src/OrderProcessing.cpp:136-164 | the fields after any schedule are the state after the corresponding run |
| Matching.MatchConsumes | week_4/phase_4/src/MatchingEngine.cpp:57-96 | each side loses exactly the executed quantity, from its front, and what is left does not cross |
| Matching.ConsumeShape | week_4/phase_4/src/MatchingEngine.cpp:84-94 | that is a prefix of whole orders and at most part of the first survivor |
| Matching.ConsumeSorted | week_4/phase_4/include/OrderBook.hpp:32-33 | the remaining side is still sorted by price |
| Matching.ConsumedInOrder | week_4/phase_4/src/MatchingEngine.cpp:84-94 | of two orders of a side the one behind is touched only when nothing is left of the one in front |
| Matching.PlacedStands | week_4/phase_4/include/OrderBook.hpp:66-67 | a new element stands behind all that it is not better than and in front of all others, which keep their order |
| Matching.PlacedSorted | week_4/phase_4/include/OrderBook.hpp:66-67 | inserting behind the orders that are at least as good keeps a side sorted by price |
| Matching.NoPriceClearsMore | week_4/phase_4/src/MatchingEngine.cpp:62-95 | at no single price could more be traded than the loop executes |
| Matching.SomePriceClears | week_4/phase_4/src/MatchingEngine.cpp:62-95 | at some price as much can be traded |
| Matching.ExecutedIsClearingVolume | week_4/phase_4/src/MatchingEngine.cpp:57-96 | the executed quantity is the maximum over prices of the lesser of demand and supply at that price |
| Matching.MatchClears | week_4/phase_4/src/MatchingEngine.cpp:57-96 | both facts together: the clearing volume comes off the front of both sides |
| MemoryPools.LinkedUp | week_4/phase_4/src/MemoryPool.cpp:17-30 | the links the constructor carves form the list of all blocks |
| MemoryPools.CarvedIffBlocks | week_4/phase_4/src/MemoryPool.cpp:17-30 | what the constructor leaves is a free list exactly when there is at least one block |
| MemoryPools.ReturnedIffLive | week_4/phase_4/src/MemoryPool.cpp:51-59 | returning a block leaves a free list exactly when the block was not free already; otherwise no list follows the links |
| MemoryPools.FreeListEnds | week_4/phase_4/src/MemoryPool.cpp:38-59 | following the links from the head passes each free block once and then ends |
| MemoryPools.LinkedFrame | week_4/phase_4/src/MemoryPool.cpp:38-48 | whatever is written into live blocks, the free list stays as it is |
| MemoryPools.MemoryPool.constructor | week_4/phase_4/src/MemoryPool.cpp:7-31 | all blocks are free, in address order; the pool is usable exactly when there is at least one |
| MemoryPools.MemoryPool.Allocate | week_4/phase_4/src/MemoryPool.cpp:39-48 | it hands out the first free block, which was not live, and fails exactly when there is none |
| MemoryPools.MemoryPool.Overwrite | week_4/phase_4/include/OrderBook.hpp:59-61 | using a live block as an object disturbs nothing |
| MemoryPools.MemoryPool.Deallocate | week_4/phase_4/src/MemoryPool.cpp:51-59 | the block becomes the first free one, and the pool stays in order exactly when the block was live; null is ignored |
| MemoryPools.MemoryPool.Partition | week_4/phase_4/src/MemoryPool.cpp:7-59 | free and live blocks partition the pool |
| OrderBooks.EmplaceOk | week_4/phase_4/include/OrderBook.hpp:66-67 | insertion keeps a side sorted, its elements distinct and filed under their own price and id |
| OrderBooks.JoinsBehind | week_4/phase_4/include/OrderBook.hpp:66-67 | a new order joins its side behind its equals in price |
| OrderBooks.WithoutOk | week_4/phase_4/include/OrderBook.hpp:82-98 | removal does too, and takes out exactly that order |
| OrderBooks.WithoutAt | week_4/phase_4/include/OrderBook.hpp:82-98 | the others keep their places |
| OrderBooks.EnterOk | week_4/phase_4/include/OrderBook.hpp:63-69 | a new order keeps the three indexes in agreement |
| OrderBooks.DropOk | week_4/phase_4/include/OrderBook.hpp:19-29 | when the last outside reference goes, exactly an unindexed order is destroyed |
| OrderBooks.EraseFrom | week_4/phase_4/include/OrderBook.hpp:82-98 | the scan of the orders at one price removes the right element |
| OrderBooks.OrderBook.AddOrder | week_4/phase_4/include/OrderBook.hpp:40-70 | refused, with no change, exactly when the id is taken or no block is free; otherwise the order takes the first free block and its id, and stands behind all orders of its side it is not better than and in front of all others |
| OrderBooks.OrderBook.DeleteOrder | week_4/phase_4/include/OrderBook.hpp:72-100 | the id and its order leave index and side; the block is freed unless a caller holds it |
| OrderBooks.OrderBook.UpdateQuantity | week_4/phase_4/include/OrderBook.hpp:102-109 | only that order's quantity changes; refused exactly for an unknown id or a quantity that is not positive |
| OrderBooks.OrderBook.Release | week_4/phase_4/include/OrderBook.hpp:23-28 | a caller dropping its reference frees the block exactly when nothing else holds the order, so live blocks stay the reachable orders |
| OrderBooks.OrderBook.BestBid | week_4/phase_4/include/OrderBook.hpp:115-118 | the price of a resting buy that no resting buy is better than, and none exactly when no buy rests |
| OrderBooks.OrderBook.BestAsk | week_4/phase_4/include/OrderBook.hpp:119-122 | the same for sells |
| MatchingEngines.ViewSorted | week_4/phase_4/include/OrderBook.hpp:32-33 | the sides of a consistent book are sorted, as the matching theory requires |
| TimePriority.AgedJoins | week_4/phase_4/include/OrderBook.hpp:66-67 | with ascending ids, earlier orders stay in front of later ones at the same price |
| TimePriority.RoundKeepsPriority | week_4/phase_4/src/MatchingEngine.cpp:62-95 | price-time priority: of two orders of a side the one with the worse price, or with the same price and the later id, trades only if the other one is used up |
| MatchingEngines.Trade | week_4/phase_4/src/MatchingEngine.cpp:71-94 | the loop body trades the lesser quantity between the two best orders and keeps the book consistent |
| MatchingEngines.TradeSettles | week_4/phase_4/src/MatchingEngine.cpp:84-94 | resting orders keep something, orders that left have nothing |
| MatchingEngines.SubmitSettles | week_4/phase_4/include/OrderBook.hpp:63-67 | a new order takes the first free block and joins its side |
| MatchingEngines.SubmitAges | week_4/phase_4/include/OrderBook.hpp:63-67 | an order with an id above all others keeps earlier orders in front of later ones |
| MatchingEngines.QuotedMeans | week_4/phase_4/src/MatchingEngine.cpp:20-21 | the book a tick matches is the one before, with 20 units at the bid price among the bids and 20 at the ask price among the asks, as far as blocks are free |
| MatchingEngines.FirstQuotesRest | week_4/phase_4/src/MatchingEngine.cpp:20-24 | on an empty book with the bid below the ask nothing trades and both quotes rest |
| MatchingEngines.TickConserves | week_4/phase_4/src/MatchingEngine.cpp:15-54 | on each side the quantity accepted by a tick is what came to rest plus what was traded, also when the pool runs out on the way |
| MatchingEngines.RunConserves | week_4/phase_4/src/MatchingEngine.cpp:15-54 | so it is over every sequence of ticks |
| MatchingEngines.TickClears | week_4/phase_4/src/MatchingEngine.cpp:15-54 | a tick keeps both sides sorted and trades the clearing volume of the book it has quoted into |
| MatchingEngines.RunClears | week_4/phase_4/src/MatchingEngine.cpp:15-54 | so does every tick of every run |
| MatchingEngines.BestStays | week_4/phase_4/src/MatchingEngine.cpp:33-42 | a buy at the best bid leaves an uncrossed book uncrossed |
| MatchingEngines.MatchingEngine.GenerateOrderId | week_4/phase_4/src/MatchingEngine.cpp:99-102 | the id is in use nowhere |
| MatchingEngines.MatchingEngine.MatchOrders | week_4/phase_4/src/MatchingEngine.cpp:57-96 | the loop on the shared orders is the matching function, for any quantities, and it terminates |
| MatchingEngines.MatchingEngine.Clear | week_4/phase_4/src/MatchingEngine.cpp:24 | the matching round of a tick executes the clearing volume, takes it off both sides in price-time priority, and changes nothing but quantities |
| MatchingEngines.MatchingEngine.Submit | week_4/phase_4/src/MatchingEngine.cpp:20-21 | the order with the given id, symbol, price, quantity and side is entered behind its equals while a block is free |
| MatchingEngines.MatchingEngine.Replenish | week_4/phase_4/src/MatchingEngine.cpp:34-46 | one unit is bought at the best bid under the next id, and the order manager holds it |
| MatchingEngines.MatchingEngine.TopUp | week_4/phase_4/src/MatchingEngine.cpp:26-53 | one more unit at the best bid exactly when both sides rest and that bid is below 100 |
| MatchingEngines.MatchingEngine.ProcessMarketData | week_4/phase_4/src/MatchingEngine.cpp:15-54 | a buy of 20 at the bid price under the next id and a sell of 20 at the ask price under the one after are entered while blocks are free; a round in price-time priority trades the clearing volume; then one unit is bid at the best bid below 100 when both sides rest; the book is uncrossed, resting quantities are positive and all other orders used up |
| MatchingEngines.MatchingEngine.Run | week_4/phase_4/src/MatchingEngine.cpp:15-54 | the same over every sequence of ticks, with conservation of quantity on each side and the clearing volume traded by each tick |
| RobinHoodTable.FindIsLookup | week_5/hw_5/src/robinhood_hash_table.cpp:57-69 | under the probe invariant the search finds exactly the keys of the map, with their values |
| RobinHoodTable.AbsentKey | week_5/hw_5/src/robinhood_hash_table.cpp:22-33 | under the probe invariant a present key is met before any slot that would be exchanged or is free |
| RobinHoodTable.ProbingIsSafe | week_5/hw_5/src/robinhood_hash_table.cpp:22-33 | under the probe invariant no key's walk is cut off |
| RobinHoodTable.PutDown | week_5/hw_5/src/robinhood_hash_table.cpp:27-34 | storing the carried entry keeps the probe invariant |
| RobinHoodTable.TakeUp | week_5/hw_5/src/robinhood_hash_table.cpp:28-32 | the displaced entry can go on with the inflated distance |
| RobinHoodTable.PendingExchange | week_5/hw_5/src/robinhood_hash_table.cpp:28 | an exchange loses no entry |
| RobinHoodTable.WalkExchanges | week_5/hw_5/src/robinhood_hash_table.cpp:27-32 | the loop's invariant survives an exchange, on any sound table: a new key stays pending, a present one ahead is from here on stored twice |
| RobinHoodTable.WalkPasses | week_5/hw_5/src/robinhood_hash_table.cpp:30-32 | it survives passing an entry |
| RobinHoodTable.WalkEnds | week_5/hw_5/src/robinhood_hash_table.cpp:34-36 | at a free slot the table stands for the map with the pair exactly when the key was new or its walk was not cut off |
| RobinHoodTable.WalkMeets | week_5/hw_5/src/robinhood_hash_table.cpp:23-26 | where the key is met, likewise with the new value |
| RobinHoodTable.SizeIsCardinality | week_5/hw_5/include/robinhood_hash_table.hpp:16-27 | the number of occupied slots is the size of the map |
| RobinHoodTable.ErasedLookup | week_5/hw_5/src/robinhood_hash_table.cpp:40-54 | after an erasure a remaining key is lost exactly when its path runs over the emptied slot |
| RobinHoodTable.EraseIsSafeIff | week_5/hw_5/src/robinhood_hash_table.cpp:40-54 | an erasure leaves all other lookups as they were exactly when no remaining path runs over the slot |
| RobinHoodTable.EraseKeepsProbingIff | week_5/hw_5/src/robinhood_hash_table.cpp:44-47 | the probe invariant survives exactly then |
| RobinHoodTable.ErasedNeighbourIsLost | week_5/hw_5/src/robinhood_hash_table.cpp:40-69 | two keys with one home: erasing the first hides the second |
| RobinHoodTable.HiddenKeyIsUnsafe | week_5/hw_5/src/robinhood_hash_table.cpp:15-36 | in that table inserting the hidden key is unsafe: the table would not stand for the map |
| RobinHoodHashTables.RobinHoodHashTable.constructor | week_5/hw_5/src/robinhood_hash_table.cpp:6-7 | the new table is empty, and usable exactly when its capacity is not 0 |
| RobinHoodHashTables.RobinHoodHashTable.Insert | week_5/hw_5/src/robinhood_hash_table.cpp:15-37 | on any table, whatever was erased: afterwards it stands for the map with the pair exactly when it has just grown or the key is new or not cut off from its home; true exactly for a key the search does not find; the capacity doubles exactly over the load factor |
| RobinHoodHashTables.RobinHoodHashTable.Probe | week_5/hw_5/src/robinhood_hash_table.cpp:18-36 | the probe loop ends before it has gone round, with the same effect |
| RobinHoodHashTables.RobinHoodHashTable.Rehash | week_5/hw_5/src/robinhood_hash_table.cpp:79-90 | on any table, whatever was erased: twice the capacity, the same map, and the probe invariant, so keys that were cut off are found again; no insertion inside it rehashes again |
| RobinHoodHashTables.RobinHoodHashTable.Find | week_5/hw_5/src/robinhood_hash_table.cpp:57-69 | the search on any table, and the lookup of the map on one that keeps the probe invariant |
| RobinHoodHashTables.RobinHoodHashTable.Erase | week_5/hw_5/src/robinhood_hash_table.cpp:40-54 | the found slot is emptied, the map loses that key only, and the table stays valid exactly when no remaining path runs over the slot |
| RobinHoodHashTables.RobinHoodHashTable.ClearAll | week_5/hw_5/src/robinhood_hash_table.cpp:72-76 | the map is empty and the table valid, whatever erasures came before |
| RobinHoodHashTables.RobinHoodHashTable.Replay | week_5/hw_5/src/robinhood_hash_table.cpp:15-76 | over every history of insert, find, erase and clear the answers are those of the finite map, up to and including the first erasure that cuts another key off |
| RobinHoodHashTables.RobinHoodHashTable.Apply | week_5/hw_5/src/robinhood_hash_table.cpp:15-76 | one operation on a table that keeps the probe invariant answers as the map does, and keeps it unless it erases a key whose slot lies on a remaining path |
| ObjectPools.ObjectPool.constructor | week_5/hw_5/include/object_pool.h:19-23 | every slot is free |
| ObjectPools.ObjectPool.Reserve | week_5/hw_5/include/object_pool.h:25-33 | the pool only grows, and exactly the new slots become free |
| ObjectPools.ObjectPool.Allocate | week_5/hw_5/include/object_pool.h:35-48 | a free slot gets the object and is free no more; it fails, changing nothing, exactly when none is free |
| ObjectPools.ObjectPool.Deallocate | week_5/hw_5/include/object_pool.h:50-64 | the slot goes to the end of the free list, and the pool stays in order exactly when the slot was live; a pointer outside the pool is refused |
| PriceLevels.PutGroups | week_5/hw_5/src/optimized_orderbook.cpp:36-38 | inserting into a level keeps the levels the grouping of the orders by price |
| PriceLevels.TakeGroups | week_5/hw_5/src/optimized_orderbook.cpp:93-107 | so does erasing, with no level left empty |
| PriceLevels.MoveGroups | week_5/hw_5/src/unoptimized_orderbook.cpp:44-55 | and moving an order from one level to another |
| PriceLevels.PriceListUnique | week_5/hw_5/src/optimized_orderbook.cpp:125-134 | the orders determine the ascending list of active prices |
| PriceLevels.BestLevelUnique | week_5/hw_5/src/optimized_orderbook.cpp:144-166 | the orders determine the best level of each side |
| LimitOrderBooks.Scan | week_5/hw_5/src/unoptimized_orderbook.cpp:113-133 | the scan over the levels finds the best price at which the side has an order, or that it has none |
| LimitOrderBooks.UnoptimizedOrderBook.AddOrder | week_5/hw_5/src/unoptimized_orderbook.cpp:17-31 | an acceptable order with a new id is added to both maps, any other changes nothing |
| LimitOrderBooks.UnoptimizedOrderBook.ModifyOrder | week_5/hw_5/src/unoptimized_orderbook.cpp:33-57 | a known order gets the new price and the new quantity and keeps its id and side, in both maps |
| LimitOrderBooks.UnoptimizedOrderBook.DeleteOrder | week_5/hw_5/src/unoptimized_orderbook.cpp:59-81 | a known order leaves both maps |
| LimitOrderBooks.UnoptimizedOrderBook.GetAllActivePrices | week_5/hw_5/src/unoptimized_orderbook.cpp:96-103 | exactly the prices of the orders, ascending |
| LimitOrderBooks.UnoptimizedOrderBook.GetOrdersAtPrice | week_5/hw_5/src/unoptimized_orderbook.cpp:105-111 | exactly the orders at that price; nothing when there is none |
| LimitOrderBooks.UnoptimizedOrderBook.GetBestLevel | week_5/hw_5/src/unoptimized_orderbook.cpp:113-133 | the best level of the side |
| LimitOrderBooks.InstallKeeps | week_5/hw_5/src/optimized_orderbook.cpp:34-40 | a pointer put into both maps keeps them in agreement and adds that order only |
| LimitOrderBooks.WriteThrough | week_5/hw_5/src/optimized_orderbook.cpp:72-77 | writing through one live pointer changes no other order |
| LimitOrderBooks.ModifyKeeps | week_5/hw_5/src/optimized_orderbook.cpp:56-77 | a modified object, its pointer moved if the price changed, keeps both maps in agreement |
| LimitOrderBooks.DeleteKeeps | week_5/hw_5/src/optimized_orderbook.cpp:89-107 | a deleted order leaves both maps and its slot the live ones |
| LimitOrderBooks.OptimizedOrderBook.constructor | week_5/hw_5/src/optimized_orderbook.cpp:6-9 | the new book is empty and its pool has the requested capacity |
| LimitOrderBooks.OptimizedOrderBook.AddOrder | week_5/hw_5/src/optimized_orderbook.cpp:23-46 | as for the simple book; it raises exactly when the order is acceptable and new and the book already holds as many orders as the pool has slots, and then nothing has changed |
| LimitOrderBooks.OptimizedOrderBook.ModifyOrder | week_5/hw_5/src/optimized_orderbook.cpp:48-82 | the same, through the same pointer |
| LimitOrderBooks.OptimizedOrderBook.DeleteOrder | week_5/hw_5/src/optimized_orderbook.cpp:84-114 | as for the simple book, and the slot is free again |
| LimitOrderBooks.OptimizedOrderBook.GetOrder | week_5/hw_5/src/optimized_orderbook.cpp:116-123 | the order of that id, if any |
| LimitOrderBooks.OptimizedOrderBook.GetAllActivePrices | week_5/hw_5/src/optimized_orderbook.cpp:125-134 | exactly the prices of the orders, ascending |
| LimitOrderBooks.OptimizedOrderBook.GetOrdersAtPrice | week_5/hw_5/src/optimized_orderbook.cpp:136-142 | pointers to exactly the orders at that price; nothing when there is none |
| LimitOrderBooks.OptimizedOrderBook.GetBestLevel | week_5/hw_5/src/optimized_orderbook.cpp:144-166 | pointers to the best level of the side |
| BookAgreement.AnswersAreDetermined | week_5/hw_5/src/optimized_orderbook.cpp:116-174 | two books that hold the same orders answer every query alike |
| BookAgreement.AskSimple | week_5/hw_5/src/unoptimized_orderbook.cpp:83-133 | the simple book's answers are those of its orders |
| BookAgreement.AskPooled | week_5/hw_5/src/optimized_orderbook.cpp:116-174 | the pooled book's answers, read through its pointers, are those of its orders |
| BookAgreement.ReplayBoth | week_5/hw_5/src/optimized_orderbook.cpp:23-114 | after any operations both books hold the same orders, up to the first acceptable new order that finds the pool exhausted, which is where the pooled book raises |
| PriorityQueues.ComparatorsAreStrictWeakOrders | week_5/hw_5/include/order_priority_queue.hpp:15-34 | the comparators are strict weak orders, and orders are tied exactly when their prices are equal |
| PriorityQueues.RootIsMaximum | week_5/hw_5/src/order_priority_queue.cpp:25-30 | in a heap nothing is above the root |
| PriorityQueues.SiftUp | week_5/hw_5/src/order_priority_queue.cpp:36-38 | an exchange with the parent moves the only possible violation up |
| PriorityQueues.SiftDown | week_5/hw_5/src/order_priority_queue.cpp:48-63 | an exchange with the greater child moves it down |
| PriorityQueues.OrderPriorityQueue.Push | week_5/hw_5/src/order_priority_queue.cpp:4-7 | heap order is kept and exactly the value is added |
| PriorityQueues.OrderPriorityQueue.Pop | week_5/hw_5/src/order_priority_queue.cpp:10-22 | heap order is kept and exactly the root is removed; the error is raised exactly on an empty queue |
| PriorityQueues.OrderPriorityQueue.Top | week_5/hw_5/src/order_priority_queue.cpp:25-30 | a greatest element; the error exactly on an empty queue |
| PriorityQueues.OrderPriorityQueue.HeapifyUp | week_5/hw_5/src/order_priority_queue.cpp:33-43 | one misplaced element is sifted up: a heap with the same elements |
| PriorityQueues.OrderPriorityQueue.HeapifyDown | week_5/hw_5/src/order_priority_queue.cpp:46-65 | one misplaced element is sifted down: a heap with the same elements |
| PriorityQueues.PushAllThenDrain | week_5/hw_5/src/order_priority_queue.cpp:4-30 | pushing any items and draining yields a permutation of them in non-increasing order |
| PriorityQueues.HighestPrice | week_5/hw_5/include/order_priority_queue.hpp:16-34 | with `std::less` or `OrderCompare` the top has the highest price |
| PriorityQueues.LowestPrice | week_5/hw_5/include/order_priority_queue.hpp:20-22 | with `std::greater` it has the lowest |
| PriorityQueues.DrainByPrice | week_5/hw_5/src/order_priority_queue.cpp:67-70 | orders drain from the highest price down, or from the lowest up |
| Matrices.ProductCell | week_1/phase1/matrix_ops.cpp:61-69 | each cell of the product adds up all terms of its row and column |
| Matrices.IdentityNeutral | week_1/phase1/matrix_ops.cpp:51-70 | over the integers the identity matrix is neutral on both sides |
| Matrices.ProductAdditive | week_1/phase1/matrix_ops.cpp:51-70 | over the integers the product is additive in each factor |
| Matrices.TransposedCell | week_1/phase1/main.cpp:73-77 | row and column of each entry change places |
| Matrices.TransposedTwice | week_1/phase1/main.cpp:65-80 | transposing twice gives the matrix back |
| MatrixOps.FillZero | week_1/phase1/matrix_ops.cpp:134 | all result cells are zero and nothing else changes |
| MatrixOps.MultiplyMmNaive | week_1/phase1/matrix_ops.cpp:51-70 | the product; errors exactly for null arguments or unequal inner dimensions, with nothing written |
| MatrixOps.MultiplyMmTransposedB | week_1/phase1/matrix_ops.cpp:73-96 | the product with the transpose of the second argument |
| MatrixOps.LeaveBlock | week_1/phase1/matrix_ops.cpp:140-154 | a finished block has given each of its cells exactly the terms of the block, once and in order |
| MatrixOps.MultiplyBlock | week_1/phase1/matrix_ops.cpp:141-153 | the three loops inside a block add exactly those terms and touch no other cell |
| MatrixOps.MultiplyMmOptimized | week_1/phase1/matrix_ops.cpp:125-157 | the blocked loops compute the same product for all dimensions, multiples of 64 or not |
| MatrixOps.MultiplyMvRowMajor | week_1/phase1/matrix_ops.cpp:21-33 | the product with a one-column matrix |
| MatrixOps.MultiplyMvColMajor | week_1/phase1/matrix_ops.cpp:36-48 | the product of the transpose of the storage with a one-column matrix |
| MatrixOps.TransposeMatrix | week_1/phase1/main.cpp:65-80 | the transpose; refused exactly for dimensions that are not positive or do not match the data |
| MatrixOps.ThreeWays | week_1/phase1/matrix_ops.cpp:51-157 | naive, blocked and transposed products of the same matrices agree |
| MatrixOps.TwoWays | week_1/phase1/matrix_ops.cpp:21-48 | row-major and column-major products of the same matrix and vector agree |

## Left out

- MemoryPools.MemoryPool.Deallocate: requires a block of the pool; the code writes through any pointer it is given.
- ConcurrentQueues.ConcurrentQueue.Push: the loop is proved for one thread running alone; interleaved pushes are `Serve` and the theorems on schedules.
- ConcurrentQueues.ConcurrentQueue.Pop: likewise for one thread running alone.
- OrderFlowTheorems.CanFinish: that a run finishes needs a scheduler that does not choose failing operations for ever; fairness is not modelled.
- PriorityQueues.OrderPriorityQueue.Pop: says nothing about the order of tied elements, which the heap does not keep in order of arrival.
- MatrixOps.MultiplyMmNaive: requires a result array that is not one of the factors, which filling it with zeros would destroy.
- MatrixOps.MultiplyMmTransposedB: the same.
- MatrixOps.MultiplyMmOptimized: the same.
- MatrixOps.MultiplyMvRowMajor: the same, for matrix and vector.
- MatrixOps.MultiplyMvColMajor: the same, for matrix and vector.
- Negative dimensions, and 32-bit overflow of an index, in the matrix routines.
- Growing an object pool that has live pointers, which moves the objects; and wrap-around of its counter when a slot is returned twice.
- `is_empty` of the queue's second copy, whose two loads have no fixed order.
- Memory orders, fences and the choice between them in the queue: atomics are sequentially consistent; tickets do not wrap around.
- `reset` of the queue, which is not safe while operations are in flight, and the second copy's `size`, whose fallback formula is not a length.
- Latch, barrier, semaphore, sleeps and time stamps of the pipeline, beyond one record per order; the assertion on the number of consumers.
- Raw memory: blocks and slots are numbers, references are a multiset of block numbers, destructors have no effect.
- Prices are reals: no rounding and no NaN. Integers are unbounded.
- The order manager of the engine: the map from ids to the references it holds, and nothing else of it.
- Messages on the error stream and the display of books.
- Destructors of the two limit order books, which delete every order.
- The `noinline` copies of two matrix products, which repeat the same loops.
- The other weeks' books, strategies, sockets, feeds, parsers, loggers and benchmarks.
