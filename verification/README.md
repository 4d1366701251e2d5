# L2 order book: model and proofs

A Dafny model of an L2 order book engine for Nasdaq TotalView-ITCH 5.0: the book, the lock-free ring
and two-thread pipeline that feed it, the framing and decoding of the stream, snapshot validation,
depth queries and the latency histogram. `dafny verify dfyconfig.toml` checks the whole project.

## How it is built

**The simple thing.** `Markets` (Market.dfy) is the abstract book: a map from order reference to
(side, price, shares, arrival), the two reference prices and the session state. `Step` is one message,
`Run` the fold over a sequence. `WellFormed` states once what the book assumes of its feed: sides 'B'
and 'S', fresh references (a replace may reuse its own), prices from 1 to 2,000,000,000 (the maximum in
the 'Data Types' section of the Nasdaq TotalView-ITCH 5.0 specification), a free slot for an add,
reductions within the order, and no operation on a stranded order. Shares may be zero.

**The fast thing.** `OrderBook` (OrderBook.dfy) keeps the redundant structures of the engine: a slab of
nodes with a free list threaded through `next` (Slab.dfy), intrusive doubly-linked lists with cached
aggregates (PriceLevels.dfy), two arrays of levels relative to a movable reference with a cached best
index (Ladder.dfy, BookSide.dfy), and the order map. A pointer into the slab is a slot index and -1 is
null. Levels and nodes are records stored in arrays and updated in place, as in the engine. The engine
writes every side operation twice, once for bids and once for asks; `BookSide` is that code once, with
the side as a field. The order in which the map is traversed is an arbitrary choice.

**The connection.** `BookOK` (Book.dfy) says what it means for the structures to agree, `Abs` which
market they represent. Every handler keeps the first and takes the second to `Step`; `Replay` carries
this over whole runs. BookFacts.dfy derives what a consistent book says: top of book, heap shape, level
contents, time priority, totals. Laws.dfy and Conservation.dfy are about runs of the market itself,
Priority.dfy about the lists at the end of a run. History.dfy reads the whole market off the feed: when it
is open, where its windows stand, and which orders live with which shares.

**Time priority.** Specification state records when each live order arrived and, for each side, when it
was last recentred since the last halt. In every reachable state a list is in order of arrival, except
that orders which all arrived before that recentring may stand in any order among each other (the map is
traversed in an unspecified order). Priority.dfy restates this in positions of the feed.

**The pipeline.** Spsc.dfy makes each load, slot access and store of the ring a step of its own. An
acquire load of the index of the other thread may return any value not older than the last one seen (C++20
[atomics.order] section 31.4, [intro.races] section 6.9.2.1); only the counts behind the index are
ghost. Pipeline.dfy adds the two thread bodies. That the parsed messages are dispatched completely and
in order holds for every file; on a well-formed one every dispatch meets the precondition of the real
handler, and the real book follows the market (`DispatchReady`, `DispatchPopped`). Completion.dfy shows,
without any fairness assumption, from which states the end can still be reached.

**Machine arithmetic.** Wrap-around and casts are written out (Machine.dfy, Window.dfy). Inside the book
they lose nothing: prices and indices convert exactly, and a pool has at least one and fewer than 2^32
slots, the range in which neither level aggregate can overflow. At its edge they do: a 64-bit level
quantity is cut to 32 bits when it is published (src/book/order_book.cpp:288, 292) or compared with a
snapshot. `IsTop` and `Report` have that cut, as the code does; `IsTrueTop` has not, and
`BookFacts.PublishedIsTrue` says when the two agree. Dollars and percentages, doubles in the engine, are
exact reals or ranks.

## Where the code differs from its comments or from what a caller expects

- src/book/order_book.cpp:89-93 says orders cannot fall out of the window on a recentring. They can, in
  both directions: the test at src/book/order_book.cpp:34 also fires below the floor
  (`Laws.RecentreHidesBetterBid`), and a move upwards strands what is left below the new floor
  (`Laws.UpwardRecentreHidesOnlyBid`). The exact conditions are `Laws.RecentreKeepsAll` for one recentring,
  `Laws.RunShows` for a run, and `BookFacts.PublishedIsTrue` for when the published top is the true one.
- src/book/order_book.cpp:288, 292 publish a level quantity cut to 32 bits, so a level of 2^32 shares is
  published as empty: `Laws.WideBidPublishesZero`, with the exact condition in `BookFacts.PublishedIsTrue`.
- src/book/order_book.cpp:259 accepts a replace on a closed book, where an add is ignored:
  `Laws.ReplaceIsDeleteThenAdd`; `Laws.ClosedReplaceEnters` is such a feed.
- include/bench/rdtsc.hpp:93 promises the value at any percentile from 0.0 to 1.0; at 1.0 the target
  rank equals the count and the answer is the last bucket: `Histograms.TopPercentile` says when that is
  right, `Histograms.TopPercentileFails` is a sample for which it is not.
- include/transport/spsc_queue.hpp:19-20 accepts a ring of one slot, which can never take an element:
  `Completions.FinishesIff`. It also accepts capacity 0, which is no power of two: then every index is
  masked by all ones and the first push writes outside an array without slots. Capacities are powers of two
  here, so that instance is not part of the model.
- src/main.cpp:55 says system events are ignored by the dispatcher; they are handled.

## Model

| member | source | states |
|---|---|---|
| `OrderBooks.OrderBook.Replay` | src/book/order_book.cpp:134-278 | whole-run refinement: from any valid book, replaying any well-formed message sequence keeps every redundant structure consistent and leaves exactly the market folded over the sequence |
| `OrderBooks.OrderBook.Dispatch` | src/main.cpp:35-57 | one message, whatever its type, takes the market to its `Step` and keeps the book valid; a halt is the only message that replaces the pool |
| `Histories.OrderLife` | src/book/order_book.cpp:134-278 | what the book holds is what the feed says: over any well-formed run a reference is live at the end if and only if some message listed it and none since listed it again or ended it (halt, delete, replace, or the reduction that takes its last shares), and its order then has the side and price of that message and its shares less all that was taken since |
| `Histories.RunOpen` | src/book/order_book.cpp:134-160 | over any run the book is open at the end if and only if some message opened it and no later one closed or halted it |
| `Histories.SessionKeeps` | src/book/order_book.cpp:134-160 | a session message other than a halt changes only whether the book is open; a halt empties and closes it and keeps both references |
| `Histories.RunRef` | src/book/order_book.cpp:30-50 | over any run, halts included, the reference of a side is the price of the last message that listed on it while it was unused or its 8192 prices did not cover the price, 0 if there was none |
| `Histories.FirstUse` | src/book/order_book.cpp:32-33 | the first order listed on an unused side, by an add or a replace, sets the reference to its own price |
| `OrderBooks.OrderBook.BestBidOffer` | src/book/order_book.cpp:284-295 | the published prices are the best displayed prices of the two sides, the quantities the shares resting there modulo 2^32, all zero for a side that displays nothing |
| `BookFacts.BestIsTop` | src/book/order_book.cpp:17-28 | in every consistent book the cached best index yields the top of what the market displays on that side |
| `Depths.TopExact` | src/book/order_book.cpp:284-295 | for every market: the displayed price is the best over all live orders of the side if and only if the side has no orders, or something is displayed and no order lies beyond the reference price; the displayed quantity is then the number of shares resting there if and only if they are fewer than 2^32 |
| `Depths.TopOfAll` | src/book/order_book.cpp:284-295 | on such a side what is displayed depends on the orders alone, not on the window: the best price over all of them with the shares resting there modulo 2^32 |
| `BookFacts.PublishedIsTrue` | src/book/order_book.cpp:284-295 | in every consistent book the published price of a side is the true best if and only if the side has no orders, or its best index is not -1 and no order beats the reference price; price and quantity are both true, the quantity not taken modulo anything, if and only if besides the quantity of the best level is below 2^32 |
| `Laws.RunTop` | src/book/order_book.cpp:284-295 | whole-run top of book: unless the last recentring of the side since the last halt left orders outside its window, the published price is the best over all live orders of the side, and the published quantity is the number of shares resting there if and only if they are fewer than 2^32 |
| `Laws.WideBidPublishesZero` | src/book/order_book.cpp:284-295 | a well-formed feed of three messages after which the book publishes quantity 0 at its best bid, where 2^32 shares rest |
| `Laws.RunShows` | src/book/order_book.cpp:30-50 | over any well-formed run a side strands nothing at the end if and only if its last recentring since the last halt, if there was one, found all its orders inside the new window |
| `Laws.StepShows` | src/book/order_book.cpp:30-50 | for one message of any kind: the side strands nothing afterwards exactly after a halt, after a recentring onto a window that covers it, or if it stranded nothing before and was not recentred |
| `Laws.UndisturbedShows` | src/book/order_book.cpp:30-50 | over any well-formed run without a recentring of a side that strands nothing it goes on stranding nothing |
| `BookFacts.SlotHome` | include/book/order.hpp:30-56 | every pool slot is in exactly one place: the free list, one list of one level of one side, or stranded |
| `OrderBooks.Vacancy` | include/book/order.hpp:37-44 | live orders plus free slots equal the capacity, so a slot is free exactly when fewer orders than slots are live |
| `BookFacts.LevelMembers` | include/book/order_book.hpp:24-32 | the list of a level holds exactly the live orders of the side at the price of the level |
| `BookFacts.LevelAggregates` | include/book/price_level.hpp:19-25 | the quantity and the count kept at a level are the mathematical sum and number over those orders, without wrap |
| `BookFacts.FifoList` | include/book/price_level.hpp:28-37 | in every consistent book the list of a level is exactly the live orders at its price, each behind all that arrived before it; only orders that both arrived before the last recentring of the side may stand otherwise among each other |
| `Priorities.RunPriority` | src/book/order_book.cpp:94-128 | whole-run time priority, in positions of the feed: of two orders in one list the one in front was put there by the earlier message, unless the side was recentred after both messages |
| `Priorities.ArrivalSince` | src/book/order_book.cpp:94-128 | over any run, the stamp of a live order is before the mark of a side exactly if the side was recentred by a message after the one that listed the order |
| `Priorities.ArrivalListed` | src/book/order_book.cpp:162-197 | the position of a live order in the feed is that of the message that listed it, and no later message listed its reference |
| `BookFacts.RebuildUnique` | src/book/order_book.cpp:94-128 | recentring does not depend on the iteration order of the map: two rebuilds of the same orders under the same reference agree in best index, quantities, counts and the members of every list |
| `Laws.RecentreKeepsAll` | src/book/order_book.cpp:94-128 | a recentring in either direction, from any state, leaves the side without stranded orders if and only if every old order of the side lies in the window of the new price |
| `Laws.RecentreShows` | src/book/order_book.cpp:94-128 | after a recentring an order of the side is displayed exactly when its price lies in the window of the new reference |
| `Laws.FarRecentreHides` | src/book/order_book.cpp:30-50 | a bid below the floor or an ask above the ceiling hides every order of the side displayed so far |
| `Laws.FarRecentreLoses` | src/book/order_book.cpp:30-50 | from a side that strands nothing, a bid below the floor or an ask above the ceiling strands nothing if and only if the side had no orders |
| `Laws.RecentreHidesBetterBid` | src/book/order_book.cpp:89-93 | against the comment there: a well-formed feed of three messages after which the book publishes 1000 as best bid while an order rests at 20000 |
| `Laws.UpwardRecentreHidesOnlyBid` | src/book/order_book.cpp:89-93 | against the comment there, in the direction it calls safe: a well-formed feed of four messages after which the book publishes no bid while an order rests at 1000 |
| `BookFacts.RestingShares` | src/book/order_book.cpp:142-156 | all resting shares are the level quantities of both sides plus the stranded shares |
| `Conservation.RunConserves` | src/book/order_book.cpp:173-278 | over any well-formed run, shares at the start plus added and replaced-in equal shares at the end plus executed, cancelled, deleted, replaced-away and drained |
| `Conservation.StepConserves` | src/book/order_book.cpp:134-278 | the same balance for one message of any kind |
| `Conservation.Columns` | src/book/order_book.cpp:134-278 | each column of the balance is the sum over the messages of its kind of what they moved |
| `Laws.HaltedLikeFresh` | src/book/order_book.cpp:142-156 | after a halt any continuation gives the same orders, order count and session state as on a fresh book, although the halted book kept its references; and the same top of a side whenever in both books the side is empty, or displays something and has no order beyond its reference |
| `Laws.ReplaceIsDeleteThenAdd` | src/book/order_book.cpp:259-278 | a replace of a live order equals a delete and an add on the old side if and only if the book is open |
| `Laws.ClosedEntry` | src/book/order_book.cpp:259-278 | on a closed book an order that was not live becomes live by a replace of a live order and by nothing else |
| `Laws.ClosedReplaceEnters` | src/book/order_book.cpp:259-278 | a well-formed feed of four messages that puts a new order on a closed book |
| `Laws.ReduceTwice` | src/book/order_book.cpp:199-245 | two reductions of an order equal one of the sum, including when either exhausts the order |
| `Laws.RetiresCommute` | src/book/order_book.cpp:199-257 | executions, cancellations and deletes of two different orders commute |
| `Markets.ShrunkReduced` | src/book/order_book.cpp:68-73 | reducing an order is shrinking it in place, and withdrawing it when nothing is left |
| `Markets.WellFormedAt` | src/book/order_book.cpp:134-278 | in a well-formed run every message meets the feed assumptions where it arrives |
| `Slab.OrderPool.constructor` | include/book/order.hpp:30-35 | the free list of a new pool is all slots in index order |
| `Slab.OrderPool.Alloc` | include/book/order.hpp:37-44 | takes the first free slot, blank and unlinked, and leaves the rest of the free list |
| `Slab.OrderPool.Free` | include/book/order.hpp:46-56 | blanks the slot and puts it at the front of the free list |
| `Slab.FreeListPop` | include/book/order.hpp:37-44 | the tail of an acyclic free list is one, whatever becomes of the slot taken |
| `Slab.FreeListPush` | include/book/order.hpp:46-56 | a cleared slot in front of a free list makes a free list |
| `PriceLevels.AddOrder` | include/book/price_level.hpp:28-37 | the node joins the back: the level then describes exactly the old list with it appended; no other node, and no data, changes |
| `PriceLevels.RemoveOrder` | include/book/price_level.hpp:40-54 | the node is unlinked wherever it is in the list: the level describes exactly the list without it, in the same relative order |
| `PriceLevels.ReduceShares` | include/book/price_level.hpp:58-62 | only the shares of the node and the quantity of the level change, by the same amount; the list is untouched |
| `PriceLevels.AggregatesFit` | include/book/price_level.hpp:35-36 | neither aggregate of a level can overflow its width |
| `PriceLevels.LevelBounds` | include/book/price_level.hpp:42-43 | what remove_order asserts of its level holds for every listed node |
| `PriceLevels.ChainAppend` | include/book/price_level.hpp:28-34 | appending keeps the list acyclic and its links mutual |
| `PriceLevels.ChainWithout` | include/book/price_level.hpp:45-49 | joining the neighbours of a node keeps the list acyclic and its links mutual |
| `Windows.IndexRoundTrip` | include/book/order_book.hpp:83-94 | index-of-price and price-of-index are inverse on the window in 32-bit arithmetic |
| `Windows.MachineOffset` | include/book/order_book.hpp:83-88 | under the price bound the signed casts give the exact distance from the reference |
| `BookSides.BookSide.InsertAt` | src/book/order_book.cpp:17-28 | the order joins the back of its level; the side then also indexes it, the best index is right again, and nothing on the other side moves |
| `BookSides.BookSide.Insert` | src/book/order_book.cpp:30-50 | first use fixes the reference, a price off the window moves it to that price; afterwards the side indexes the old orders and the new one |
| `BookSides.BookSide.Remove` | src/book/order_book.cpp:52-66 | the order leaves its level, the best index is right again, and the side indexes exactly the remaining orders |
| `BookSides.BookSide.Unlink` | src/book/order_book.cpp:56-64 | when the best level runs empty the scan finds the next one |
| `BookSides.BookSide.AdvanceBest` | src/book/order_book.cpp:75-87 | from an empty prefix of levels the scan ends at the least non-empty level, or -1 |
| `BookSides.BookSide.Reduce` | src/book/order_book.cpp:68-73 | the side indexes the same orders, one with fewer shares; no list changes |
| `BookSides.BookSide.Recentre` | src/book/order_book.cpp:94-128 | whatever the iteration order, the rebuilt side indexes exactly the orders of the map under the new reference, the others of the side stranded |
| `BookSides.BookSide.Reindex` | src/book/order_book.cpp:99-111 | one entry of the map is indexed if it is on the side and in the window, stranded if only on the side |
| `BookSides.BookSide.ClearLevels` | src/book/order_book.cpp:95-96 | every level of the side is empty and there is no best level |
| `BookSides.BookSide.Top` | src/book/order_book.cpp:286-289 | one half of best_bid_offer, in machine arithmetic |
| `BookSides.BookSide.constructor` | include/book/order_book.hpp:72-81 | a new side indexes the empty map |
| `Ladders.LadderInsert` | src/book/order_book.cpp:17-28 | insertion at the level of the price keeps a side exact, with one more order |
| `Ladders.LadderRemove` | src/book/order_book.cpp:52-66 | removal keeps a side exact, with one order fewer |
| `Ladders.LadderReduce` | src/book/order_book.cpp:68-73 | reduction keeps a side exact |
| `Ladders.LadderExtend` | src/book/order_book.cpp:107-110 | an order of the side that is off the window may be live without being on any level |
| `Ladders.LadderFrame` | src/book/order_book.cpp:94-128 | a side depends only on the live orders that are on it |
| `BookSides.FirstRef` | src/book/order_book.cpp:32 | the reference of a side that was never used may be set freely |
| `OrderBooks.OrderBook.constructor` | src/book/order_book.cpp:9-11 | a new book is valid and represents the fresh market |
| `OrderBooks.OrderBook.OnSystemEvent` | src/book/order_book.cpp:134-160 | open, close and halt act on the market as `Step` says, other codes do nothing |
| `OrderBooks.OrderBook.Halt` | src/book/order_book.cpp:142-156 | a halt drains the book into a pool as new and keeps both references |
| `OrderBooks.OrderBook.OnAdd` | src/book/order_book.cpp:173-197 | an add is ignored while closed and otherwise places the order on its side |
| `OrderBooks.OrderBook.OnExecute` | src/book/order_book.cpp:199-229 | an execution reduces the order and removes it when nothing is left |
| `OrderBooks.OrderBook.OnCancel` | src/book/order_book.cpp:231-245 | a cancellation reduces the order and removes it when nothing is left |
| `OrderBooks.OrderBook.OnDelete` | src/book/order_book.cpp:247-257 | a delete removes the order if it is live |
| `OrderBooks.OrderBook.OnReplace` | src/book/order_book.cpp:259-278 | a replace removes the old order and places the new one on the same side, open or not |
| `OrderBooks.OrderBook.Place` | src/book/order_book.cpp:180-184 | making, inserting and mapping an order, in that order, places it on the market and keeps the book valid |
| `OrderBooks.OrderBook.Withdraw` | src/book/order_book.cpp:254-256 | unlinking, erasing and freeing an in-window order withdraws it from the market and keeps the book valid |
| `OrderBooks.OrderBook.MakeOrder` | src/book/order_book.cpp:162-171 | the first free slot becomes the new order, unlinked |
| `OrderBooks.OrderBook.InsertOrder` | src/book/order_book.cpp:30-50 | the order is inserted on the side its side byte selects; the other side is unchanged |
| `OrderBooks.OrderBook.RemoveOrder` | src/book/order_book.cpp:52-66 | the order is removed from the side its side byte selects; the other side is unchanged |
| `OrderBooks.OrderBook.ReduceShares` | src/book/order_book.cpp:68-73 | the order is reduced on the side its side byte selects; the other side is unchanged |
| `OrderBooks.OrderBook.OrderCount` | include/book/order_book.hpp:59 | the count is the number of live orders, stranded ones included |
| `Books.PlaceKeeps` | src/book/order_book.cpp:173-185 | placing an order keeps all redundant structures in agreement and places it on the market |
| `Books.WithdrawKeeps` | src/book/order_book.cpp:247-257 | taking an order out keeps all redundant structures in agreement and withdraws it from the market |
| `Books.ReduceKeeps` | src/book/order_book.cpp:68-73 | reducing an order keeps all redundant structures in agreement |
| `Books.HaltKeeps` | src/book/order_book.cpp:142-156 | a halted book is consistent and represents the halted market |
| `Books.TimeAppend` | include/book/price_level.hpp:28-37 | the newest order at the back keeps the lists in time order |
| `Books.TimeRelisted` | src/book/order_book.cpp:94-128 | after a recentring the newest order stands last in its list, behind all that were relisted |
| `Books.TimeWithout` | include/book/price_level.hpp:40-54 | removal keeps the relative order of the rest |
| `BookFacts.TicksTotal` | include/book/analytics.hpp:74-84 | the quantities of the first n levels sum to the shares of the live orders within the first n ticks |
| `Spsc.Linearizable` | include/transport/spsc_queue.hpp:28-46 | in every reachable state of every interleaving of single loads and stores, with stale index reads, pushes = pops followed by the ring, which holds at most capacity - 1 elements |
| `Spsc.RaceFree` | include/transport/spsc_queue.hpp:33-43 | the producer about to write has acquired the pop that emptied its slot, the consumer about to read the push that filled it, and they are never at the same slot |
| `Spsc.FullExact` | include/transport/spsc_queue.hpp:29-32 | the full test, on whatever index was read, is exact for the pops that index stands for |
| `Spsc.EmptyExact` | include/transport/spsc_queue.hpp:40-42 | the empty test, on whatever index was read, is exact for the pushes that index stands for |
| `Spsc.PushKeeps` | include/transport/spsc_queue.hpp:28-36 | every atomic step of try_push keeps the ring invariant; only the store of the tail publishes an element |
| `Spsc.PopKeeps` | include/transport/spsc_queue.hpp:39-46 | every atomic step of try_pop keeps the ring invariant; only the store of the head takes an element, the oldest one |
| `Spsc.SpscQueue.constructor` | include/transport/spsc_queue.hpp:25 | a new queue is empty |
| `Spsc.SpscQueue.TryPush` | include/transport/spsc_queue.hpp:28-36 | used by one thread at a time it appends unless the queue holds capacity - 1 elements |
| `Spsc.SpscQueue.TryPop` | include/transport/spsc_queue.hpp:39-46 | used by one thread at a time it removes the oldest element unless the queue is empty |
| `Spsc.SpscQueue.Empty` | include/transport/spsc_queue.hpp:48-51 | exact in one thread |
| `Spsc.SpscQueue.SizeApprox` | include/transport/spsc_queue.hpp:54-58 | exact in one thread, for any number of wrap-arounds |
| `Spsc.QuietSize` | include/transport/spsc_queue.hpp:57 | the masked wrapping difference of the indices is the number of elements |
| `Rings.AndMask` | include/transport/spsc_queue.hpp:63 | masking by capacity - 1 is reduction modulo the capacity, for every power of two |
| `Rings.NextSlot` | include/transport/spsc_queue.hpp:30 | the masked successor is the successor modulo the capacity |
| `Rings.MaskedDistance` | include/transport/spsc_queue.hpp:57 | masked wrapping subtraction of two indices is pushes minus pops |
| `Pipelines.PipelineIsSequentialReplay` | src/main.cpp:89-123 | in every interleaving, when the book thread exits it has dispatched every frame parsed and in file order, the two counts agree, and the market is the sequential fold |
| `Pipelines.PipelineOnWire` | src/main.cpp:89-123 | in every interleaving that exits on a stream of frames, each carrying the wire form of a message or none, the market is the fold over the operations those messages ask for, field by field |
| `Messages.RouteWire` | src/main.cpp:35-57 | for each of the nine messages, whatever bytes follow its wire form: the handler it is dispatched to and every operand, as written on the wire; a trade reaches none |
| `Messages.RouteNothing` | src/main.cpp:35-57 | a buffer with no message on it reaches no handler |
| `Messages.RouteCarried` | src/main.cpp:35-57 | frames that carry messages are dispatched as the operations of these messages, in order |
| `Pipelines.DispatchedPrefix` | src/main.cpp:113-121 | at every moment what was dispatched is an initial part of the file and the market its fold |
| `Pipelines.DispatchReady` | src/main.cpp:113-116 | in every interleaving, if the stream is well-formed then so is each message where the book thread is about to dispatch it |
| `Pipelines.DispatchPopped` | src/main.cpp:113-116 | the dispatch of the book thread on a real order book meets the precondition of its handler and takes it where the interleaving takes the market |
| `Completions.CanFinish` | src/main.cpp:89-123 | from every reachable state, with a ring of at least two slots or an empty stream, some continuation lets the book thread exit with everything dispatched |
| `Completions.FinishesIff` | include/transport/spsc_queue.hpp:19-20 | against the check there, which lets a ring of one slot through: the program can reach its end if and only if the ring has at least two slots or the stream has no frame |
| `Pipelines.SwappedChecksLose` | src/main.cpp:117 | with `empty()` read before `parse_done` there is an execution that exits with a message undelivered |
| `Pipelines.ParserKeeps` | src/main.cpp:95-101 | every step of the parser thread, spinning included, keeps file = pushed + in hand + unread |
| `Pipelines.BookKeeps` | src/main.cpp:113-122 | every step of the book thread keeps popped = dispatched + being applied, and what reading `parse_done` first established |
| `Pipelines.SendInv` | src/itch/parser.cpp:61-69 | a push that finds the ring full is retried with the same message; a push that succeeds sends it once |
| `Framing.ItchReader.NextMessage` | src/transport/pcap_replay.cpp:37-52 | returns the next complete non-empty frame and advances past it, else null |
| `Framing.StreamRoundTrip` | src/transport/pcap_replay.cpp:37-52 | reading any concatenation of length-prefixed frames returns exactly those frames, then what can be read of the bytes that follow |
| `Framing.FramesSound` | src/transport/pcap_replay.cpp:37-52 | on arbitrary bytes the frames up to the first null are complete, non-empty and what the buffer starts with, and no further frame follows |
| `Framing.FramesLongest` | src/transport/pcap_replay.cpp:37-52 | no longer sequence of frames is a prefix of the buffer |
| `Messages.ParseRoundTrip` | src/itch/parser.cpp:15-59 | every field of every one of the nine messages is recovered from its wire bytes, whatever bytes follow |
| `Messages.ParseConverse` | src/itch/parser.cpp:15-59 | every accepted buffer starts with the wire form of the message returned |
| `Messages.ParseDecides` | src/itch/parser.cpp:15-59 | a message is on the wire at the front of a buffer if and only if the parser returns it, and the parser returns nothing if and only if no message is there |
| `Bytes.SwapOfLoad` | include/itch/messages.hpp:13-15 | byte-swapping a host load gives the big-endian value of the bytes |
| `Bytes.BigEndianPlaces` | include/itch/messages.hpp:13-15 | the first byte on the wire is the most significant one |
| `Messages.ReadTs` | include/itch/messages.hpp:18-22 | the accumulating loop computes the big-endian value of the six bytes |
| `Bytes.BigEndianInverse` | include/itch/messages.hpp:13-15 | reading the wire bytes of a value that fits returns it |
| `Validators.Validate` | src/book/lobster_validator.cpp:134-191 | for a feed well-formed up to the last checkpoint: each snapshot is compared once, in order, with the market at its checkpoint; the total is the number of mismatches listed; the book ends where the last comparison found it |
| `Validators.CheckpointFirst` | src/book/lobster_validator.cpp:177-181 | with non-decreasing snapshot times the checkpoint is right after the first message at or past the time, or the end of the stream |
| `Validators.CheckpointLeast` | src/book/lobster_validator.cpp:177-188 | whatever the order of the snapshot times, each checkpoint is the least one from the checkpoint before it on whose last message is at or past the time, or the end of the stream |
| `Validators.TimeWire` | src/book/lobster_validator.cpp:171-175 | the time of each of the nine messages is the value of its six timestamp bytes on the wire, whatever bytes follow |
| `Validators.TimeNothing` | src/book/lobster_validator.cpp:171-175 | a buffer with no message on it has time 0 |
| `Validators.ReportLists` | src/book/lobster_validator.cpp:84-129 | an entry is listed if and only if its row differs, with its own time, side, level and price, the shares of the displayed orders there modulo 2^32 and the quantity claimed |
| `Validators.ReportOrdered` | src/book/lobster_validator.cpp:84-129 | entries come in the order of the levels, bid before ask, each once |
| `Validators.ReportCount` | src/book/lobster_validator.cpp:84-129 | the count is the number of rows, by level and side, that do not agree |
| `Validators.FullReportHolds` | src/book/lobster_validator.cpp:134-191 | the report of every comparison follows those of the comparisons before it |
| `Validators.FullReportCount` | src/book/lobster_validator.cpp:134-191 | the total is the number of disagreeing rows over all snapshots |
| `Validators.DisplayedShown` | src/book/lobster_validator.cpp:96-101 | the quantity displayed at a price is the shares of the displayed orders there |
| `Validators.CompareSnapshot` | src/book/lobster_validator.cpp:84-129 | lists, row by row and bid before ask, exactly the rows whose quantity differs from what the market displays, and counts them |
| `Validators.CleanReport` | src/book/lobster_validator.cpp:84-129 | a comparison lists nothing if and only if at every non-zero price the displayed shares modulo 2^32 equal the reference and zero prices claim no quantity |
| `Validators.BookQty` | src/book/lobster_validator.cpp:96-101 | the quantity looked up through reference and index is the shares displayed at the price, modulo 2^32 |
| `Validators.MessageTime` | src/book/lobster_validator.cpp:171-175 | the time of a message, 0 for an unknown one |
| `Validators.CompareDue` | src/book/lobster_validator.cpp:177-188 | compares snapshots until one is not yet due, or all of them at the end of the stream |
| `Histograms.Histogram.Percentile` | include/bench/rdtsc.hpp:94-103 | for a target rank below the count, the sample of that rank; for a rank at or past it, the last bucket |
| `Histograms.Histogram.Record` | include/bench/rdtsc.hpp:85-91 | the histogram then describes the samples with one more |
| `Histograms.Histogram.Reset` | include/bench/rdtsc.hpp:110-113 | the histogram then describes no samples |
| `Histograms.RankIsSortedElement` | include/bench/rdtsc.hpp:94-103 | the value of rank k is the element at index k of the sorted, clamped samples |
| `Histograms.AnswerFromSamples` | include/bench/rdtsc.hpp:85-103 | in terms of the samples as recorded: the answer at a rank below the count is the element of that index of the sorted samples if it is below the last bucket, else the last bucket |
| `Histograms.RankMono` | include/bench/rdtsc.hpp:105-107 | percentiles are monotone in the rank |
| `Histograms.TopPercentile` | include/bench/rdtsc.hpp:93-103 | the answer at percentile 1.0 is also the answer for the largest sample if and only if some sample reached the last bucket |
| `Histograms.TopPercentileFails` | include/bench/rdtsc.hpp:93-103 | one sample of 5 ns: the largest is 5, the answer at percentile 1.0 is 10000 |
| `Histograms.AnswerUnique` | include/bench/rdtsc.hpp:94-103 | every rank has exactly one answer |
| `Analytics.VisibleQty` | include/book/analytics.hpp:74-84 | the shares of the live orders priced within the first min(levels, kLevels) ticks of the reference of the side, without overflow |
| `Analytics.QueryCovers` | include/book/analytics.hpp:45-84 | which orders a query covers: of the side asked for, the asks unless it is B, those priced less than levels and less than 8192 ticks from the reference, downwards for bids and upwards for asks |
| `Analytics.VisibleMono` | include/book/analytics.hpp:74-84 | more levels show at least as much |
| `Analytics.Vwap` | include/book/analytics.hpp:45-71 | the sum of price times shares over the sum of shares of those orders, 0 if there are no shares |
| `Analytics.VwapBetween` | include/book/analytics.hpp:45-71 | the average lies between the lowest and highest price averaged |
| `Analytics.Imbalance` | include/book/analytics.hpp:34-41 | times the sum of the quantities it is their difference, 0 if there are none; in [-1, 1], positive exactly when the bid quantity is larger |
| `Analytics.OrderFlowImbalance` | include/book/analytics.hpp:34-41 | the imbalance of the published quantities at the top of the book, which exist and are unique |

## Left out

- Operations on stranded orders: the engine only guards them with assertions, so they are excluded by `WellFormed`.
- Side bytes other than 'B' and 'S': insertion treats them as asks while recentring skips them; excluded by `WellFormed`.
- First-in first-out order among orders older than a recentring: the iteration order of the map is unspecified; members and aggregates are shown to survive, and younger orders keep their place.
- An uncrossed book: the book does no matching, so it depends on the feed.
- Constant time: the best-level scan and recentring are shown correct and terminating, not fast.
- Progress of the spinning producer and of the polling book thread in every schedule, which needs a fairness assumption; that some schedule always gets to the end is shown.
- File and CSV reading: the reader starts from bytes in memory, the validator from snapshots in memory.
- Floating-point rounding; price and spread in dollars; `mid_price` and `spread`, which read two published prices.
- Validators.CompareSnapshot: the optional output list is always produced, since without it only the count is used.
- Histograms.Histogram.Percentile: takes the integer rank the code computes from its fraction, and does not model 64-bit wrap of counters, which needs 2^64 samples.
- Timers, thread pinning, cache-line layout, benchmarks and printing.
- The detaching of nodes before a halt discards the pool has no observable effect and carries no claim.
