# A model of the matching engine, the receive path and the lock-free ring

This project models five parts of the low-latency C++ course repository and proves properties of them.

**The order books.** `LadderBook.Book` is the tick-ladder book over arrays: a level array per side, an
order pool linked through slot numbers, a LIFO stack of free slots, cached best prices and the two
scans that repair them. `TreeBook.StlBook` is the map-and-queue book that is meant to behave the
same. Each method of both classes is proved to do exactly what a small function on two priority
queues does (`Trading`, `PriceTime`); what the repository promises is proved about those functions:
which orders are accepted, price-time priority as an if-and-only-if, conservation, splitting, undo, slot
accounting, fresh ids, and that the two books are interchangeable (`LimitLaws`, `IdLaws`, `Refinement`). A client tells them apart on a tape of requests exactly when it cancels
through a handle whose slot is live again under a later handle (`Refinement.Interchangeable`;
`StaleHandle.BooksCanDiffer` gives such a tape, and `TapeRun.PlayBoth` states it for the two classes
themselves). The benchmark driver only cancels its newest handle,
so its two runs always end alike (`Refinement.SameSummary`, `BookBench.Benchmark`), and `DriverLaws` says what
each of its figures counts.

**The ring.** `SpscRing.Ring` is the ring call by call over wrapping 64-bit counters, with the
bit-smearing capacity computation of `Bits`. `SpscSteps` is the same ring load by load and store by
store, every interleaving, with stale but coherent views of the other side's index.

**Two protocols.** `LoggerSteps` puts the logger's shutdown on top of those ring steps. `StoreBuffer` is
the three-thread store-buffer experiment in both modes on a machine with FIFO store buffers.

**The receive path.** `VirtualInterface.Interface` and `ReceivePath.Nic` are the interface, its two
rings, the slab and the NIC that fills it, method by method. `NicSteps` lets the application and the
NIC interleave and proves that the path is a lossy bounded FIFO whose packets stay intact until
their buffers are reposted, and which loses a packet only for want of a descriptor; `NicTurns` shows that
the real calls are runs of that model.

**Two smaller cores.** `Histogram` is the log2 latency histogram, `Parse` the length-prefixed message
stream with its two parsers.

Integers are unbounded unless a width matters, and then it is written out: 64-bit ring counters and
sums, 32-bit level totals and trade sums, 16-bit message lengths. C++ exceptions of constructors are
`Create` methods that return null.

## Where the code and its comments differ

- `common/include/hft/common.hpp:147` says bucket i holds [2^(i-1), 2^i); the code puts [2^i, 2^(i+1))
  there. The model follows the code.
- `06-hot-path/apps/parse.cpp:92-100`: the copying parser checks no length per message type. Its copy
  is a string, which keeps a readable zero after its contents, so a typed body of seven bytes is read
  together with that zero and only shorter ones are read out of bounds. `Parse.ParsersAgree` gives
  the exact condition under which both parsers return the same number.
- `kernel-bypass/src/virtual_interface.cpp:99-102` says the event push cannot fail and a completed buffer was
  posted. Both hold for every disciplined client when a post is one step (`NicSteps.Partition`); the post as
  written leaves a gap for the NIC when the descriptor ring is empty (`NicSpec.TooLate`), and a repost of a
  buffer whose event is still queued breaks the first (`NicSpec.EarlyRepostOverfills`).
- `07-order-book/include/lob/stl_book.hpp:15` says the matching rules are the same. They are, but the
  ladder's ids are reused, and a client that keeps ids of filled orders can notice.

## Model

| member | source | states |
|---|---|---|
| LadderBook.Book.constructor | 07-order-book/include/lob/book.hpp:38-53 | A new book holds nothing, both best prices are 0, and its free stack hands out slots 1, 2, 3, … |
| LadderBook.Book.Create | 07-order-book/include/lob/book.hpp:46-48 | A book exists exactly when min_px >= 1, max_px >= min_px and max_orders >= 1 |
| LadderBook.Book.LiveOrders | 07-order-book/include/lob/book.hpp:58 | Pool size minus free slots is the number of resting orders |
| LadderBook.Book.QtyAt | 07-order-book/include/lob/book.hpp:62-67 | The level total is the sum of the resting quantities at that price and side, and 0 outside the price range |
| LadderBook.Book.Acquire | 07-order-book/include/lob/book.hpp:142-147 | 0 when no slot is free; otherwise the top free slot, which is blank and is now held by the call |
| LadderBook.Book.Release | 07-order-book/include/lob/book.hpp:149-152 | The held slot becomes blank and the new top of the free stack; the links and totals of every queue stand |
| LadderBook.Book.Unlink | 07-order-book/include/lob/book.hpp:154-169 | Neighbours and level ends bypass the slot; nothing else moves |
| LadderBook.Book.UnlinkFrom | 07-order-book/include/lob/book.hpp:154-169 | Unlinking the k-th order of a side leaves exactly the lists of that queue without its k-th order, the slot passing to the call |
| LadderBook.Book.Append | 07-order-book/include/lob/book.hpp:171-190 | The slot becomes its level's tail, the 32-bit total grows, and the best price moves only for a better price |
| LadderBook.Book.Rest | 07-order-book/include/lob/book.hpp:171-190 | The order joins its side behind every order that is at least as good, and all lists, totals and best prices fit the new queue |
| LadderBook.Book.FillFront | 07-order-book/include/lob/book.hpp:230-231 | The front order of a side gives up part of itself: links and totals fit the reduced queue, and the side is in order again once a used-up order is gone |
| LadderBook.Book.Consume | 07-order-book/include/lob/book.hpp:230-236 | The front maker is reduced, or leaves and its slot is pushed on the free stack when it is used up |
| LadderBook.Book.Record | 07-order-book/include/lob/book.hpp:226-228 | A fill is stored exactly when there is a buffer with room |
| LadderBook.Book.TakeFront | 07-order-book/include/lob/book.hpp:223-236 | One fill of the level's head is one step of the match |
| LadderBook.Book.TakeLevel | 07-order-book/include/lob/book.hpp:216-239 | The level is consumed front first until it or the taker is used up, as a prefix of the match; it terminates |
| LadderBook.Book.LiftAsks | 07-order-book/include/lob/book.hpp:198-204 | A buyer's whole match against the asks: fills, remainder, survivors, freed slots in order, and the repaired best ask |
| LadderBook.Book.HitBids | 07-order-book/include/lob/book.hpp:205-212 | A seller's whole match against the bids: fills, remainder, survivors, freed slots in order, and the repaired best bid |
| LadderBook.Book.MatchOrder | 07-order-book/include/lob/book.hpp:192-214 | The order in the slot is matched against the other side at its own limit; its own side and its record stand |
| LadderBook.Book.OnLevelEmpty | 07-order-book/include/lob/book.hpp:241-247 | Both cached best prices are right again after a level emptied |
| LadderBook.Book.TightenBid | 07-order-book/include/lob/book.hpp:249-259 | The downward scan stops at the highest non-empty bid level, or sets 0 when there is none |
| LadderBook.Book.TightenAsk | 07-order-book/include/lob/book.hpp:261-271 | The upward scan stops at the lowest non-empty ask level, or sets 0 when there is none |
| LadderBook.Book.Process | 07-order-book/include/lob/book.hpp:87-100 | Match, then rest the remainder or give the slot back last |
| LadderBook.Book.Limit | 07-order-book/include/lob/book.hpp:73-101 | An order has an effect (an id or a fill) exactly when its quantity is positive, its price lies in min_px..max_px, both included, and fewer than max_orders orders rest; otherwise nothing at all changes. An accepted one does what the queue function says to queues, free stack (with its order), id and fill count, whatever the fill buffer; stored fills are the first cap of the full sequence; the arrays represent the new queues, best prices are right and the book is not crossed |
| LadderBook.Book.Cancel | 07-order-book/include/lob/book.hpp:103-121 | True exactly when an order rests under the id; it leaves its queue and its slot tops the stack; otherwise nothing changes at all; the invariant is kept |
| PriceTime.PriceTimePriority | 07-order-book/include/lob/book.hpp:192-239 | A result is the match if and only if it is greedy: fills run down the queue in priority order at maker prices, all but the last use their maker up, and the taker stops only when filled or when nobody is left inside its limit |
| PriceTime.MatchIsGreedy | 07-order-book/include/lob/book.hpp:192-239 | The match is greedy |
| PriceTime.GreedyIsUnique | 07-order-book/include/lob/book.hpp:192-239 | Being greedy leaves no freedom in fills, survivors or remainder |
| PriceTime.MatchConserves | 07-order-book/include/lob/book.hpp:222-237 | Quantity is fills plus remainder, and every price level of the other side loses exactly what was filled there |
| PriceTime.MatchKeepsSide | 07-order-book/include/lob/book.hpp:222-237 | What a match leaves is sorted, positive, and the old queue without a prefix, its first order perhaps reduced |
| PriceTime.RemainderCrossesNobody | 07-order-book/include/lob/book.hpp:198-212 | A taker with a remainder leaves nobody inside its limit |
| PriceTime.MatchSplits | 07-order-book/include/lob/book.hpp:192-239 | Matching a and then b is matching a + b: same survivors, same total from every maker |
| PriceTime.TotalAtZero | 07-order-book/include/lob/book.hpp:201 | A level total is 0 exactly when nobody rests there, so testing the total is testing emptiness |
| TradingLaws.TradeConserves | 07-order-book/include/lob/book.hpp:88-100 | One order: greedy fills, quantity = fills + remainder, the other side loses the fills and the own side gains the remainder, price by price |
| LimitLaws.LimitConserves | 07-order-book/include/lob/book.hpp:73-101 | An order with positive quantity, a price in range and a free slot: greedy fills, quantity = fills + remainder, both sides change by exactly that, price by price; it returns 0 exactly when the fills make up the whole quantity |
| LimitLaws.TreeLimitConserves | 07-order-book/include/lob/stl_book.hpp:44-65 | The same for the map book, with the id counter as taker |
| LimitLaws.LimitAccepts | 07-order-book/include/lob/book.hpp:80-86 | The ladder takes an order exactly under those three conditions, and a refused one leaves everything as it was |
| LimitLaws.TreeLimitAccepts | 07-order-book/include/lob/stl_book.hpp:51-54 | So does the map book; its counter moves for accepted orders only, by one |
| LimitLaws.InsideTheLimit | 07-order-book/include/lob/book.hpp:198-212 | A buyer pays at most its limit and a seller gets at least its limit in every fill; prices never improve from one fill to the next; a remainder means everyone left is beyond the limit |
| LimitLaws.BestPrices | 07-order-book/include/lob/book.hpp:59-60 | The best bid is the highest resting bid and the best ask the lowest resting ask, and 0 means there is none |
| LimitLaws.TimePriority | 07-order-book/include/lob/book.hpp:171-181 | At every price: a remainder goes behind everyone at its own price and no other level of its side changes; a level of the other side loses orders only from its front |
| LimitLaws.SlotsAreLifo | 07-order-book/include/lob/book.hpp:142-152 | An accepted order takes the top free slot; the makers it uses up give theirs back in the order of the fills, its own last if nothing rests |
| LimitLaws.CancelTakesOne | 07-order-book/include/lob/book.hpp:103-121 | If an order rests under the id exactly that order leaves, everyone else keeps their place, and in the ladder its slot is the next to be handed out; otherwise nothing changes |
| IdLaws.IdsAreNew | 07-order-book/include/lob/stl_book.hpp:54 | Over any tape, one call of the map book reports one id, as return value or as taker, and every later call a greater one |
| IdLaws.AcceptedReports | 07-order-book/include/lob/stl_book.hpp:51-65 | A call reports the counter as its id exactly when its order is accepted |
| IdLaws.FirstComeFirst | 07-order-book/include/lob/stl_book.hpp:98-102 | After any tape on a new map book, at every price the orders stand in the order in which they came, bids from high to low and asks from low to high |
| IdLaws.FirstHandles | 07-order-book/include/lob/book.hpp:49-52 | On a new book of either kind the first orders to rest get the ids 1, 2, 3, … |
| TradingLaws.TradeUncrossed | 07-order-book/include/lob/book.hpp:88-100 | No limit order leaves a resting bid at or above a resting ask |
| TradingLaws.TradesHaveRoom | 07-order-book/include/lob/book.hpp:182 | An order that trades finds its own level empty, so the 32-bit level total can only be exceeded by an order that rests whole |
| TradingLaws.WithdrawUncrossed | 07-order-book/include/lob/book.hpp:103-121 | No cancel does either |
| LadderRep.UnlinkNodes | 07-order-book/include/lob/book.hpp:154-169 | Bypassing one slot turns the links of a queue into the links of the queue without that order |
| LadderRep.RestNodes | 07-order-book/include/lob/book.hpp:171-180 | Hooking a slot behind its level's tail turns the links of a queue into the links of the queue with the order enqueued |
| LadderRep.RestHeads | 07-order-book/include/lob/book.hpp:173-180 | Heads and tails of all levels fit the queue after an order rests |
| LadderFacts.LevelsAreLists | 07-order-book/include/lob/book.hpp:130-134 | In every represented state each level's next chain is finite and acyclic, runs through exactly the orders at that price in arrival order, its prev chain is the reverse, and its total is the sum of their quantities |
| LadderFacts.Canonical | 07-order-book/include/lob/book.hpp:122-134 | Queues and free stack determine every array cell |
| LadderFacts.LimitThenCancel | 07-order-book/include/lob/book.hpp:73-121 | A limit that rests without fills and then a cancel of its id give back queues and free stack |
| LadderFacts.RestThenCancel | 07-order-book/include/lob/book.hpp:73-121 | The same for the whole concrete state: orders, links, totals, free array with its order, both best prices |
| Refinement.LimitKeepsSlots | 07-order-book/include/lob/book.hpp:73-101 | Through any limit order, every slot 1..max_orders is in exactly one place once: resting or free |
| Refinement.CancelKeepsSlots | 07-order-book/include/lob/book.hpp:103-121 | Through any cancel as well |
| Splitting.TradeSplits | 07-order-book/include/lob/book.hpp:88-100 | q1 then q2 at one side and price: same totals at every price, same best prices, same total fill for each maker as q1 + q2 at once |
| Splitting.LimitSplits | 07-order-book/include/lob/book.hpp:73-101 | The same for the ladder's limit with two free slots |
| TreeBook.StlBook.constructor | 07-order-book/include/lob/stl_book.hpp:20-25 | A new book is empty and its first id is 1 |
| TreeBook.StlBook.Create | 07-order-book/include/lob/stl_book.hpp:22-24 | A book exists exactly when min_px >= 1, max_px >= min_px and max_orders >= 1 |
| TreeBook.StlBook.Best | 07-order-book/include/lob/stl_book.hpp:28-33 | The first key of the map is the price of the front order, 0 when the side is empty |
| TreeBook.StlBook.QtyAt | 07-order-book/include/lob/stl_book.hpp:35-42 | The stored level total is the sum of the resting quantities at that price and side |
| TreeBook.StlBook.TakeFront | 07-order-book/include/lob/stl_book.hpp:122-153 | The best level is consumed front first, as a prefix of the match; an emptied level leaves the map |
| TreeBook.StlBook.MatchOrder | 07-order-book/include/lob/stl_book.hpp:104-120 | The whole match against one side: fills, remainder, survivors |
| TreeBook.StlBook.Rest | 07-order-book/include/lob/stl_book.hpp:98-102 | The order joins its side behind every order that is at least as good |
| TreeBook.StlBook.Limit | 07-order-book/include/lob/stl_book.hpp:44-65 | The same condition for having an effect, and the id counter advances by one for exactly those orders, filled at once or not; otherwise nothing changes. An accepted order does what the queue function says to queues, id and fill count; the maps represent the new queues |
| TreeBook.StlBook.Cancel | 07-order-book/include/lob/stl_book.hpp:67-81 | True exactly when an order rests under the id; it leaves its queue, level, record and the live count |
| TreeBook.RemoveLevelIds | 07-order-book/include/lob/stl_book.hpp:155-170 | Erasing the first occurrence of an id from its level's queue is taking that order out of the side |
| Refinement.SameShapeSameQueries | 07-order-book/include/lob/book.hpp:58-67 | Books of one shape agree on best_bid, best_ask, live_orders and qty_at at every price |
| Refinement.AlikeMatch | 07-order-book/include/lob/stl_book.hpp:15-17 | Queues of one shape yield fill by fill the same price and quantity, makers in the same place |
| Refinement.SameTrade | 07-order-book/include/lob/stl_book.hpp:15-17 | One limit order against two books of one shape leaves one shape and corresponding fills |
| Refinement.SameLimit | 07-order-book/include/lob/stl_book.hpp:44-65 | Both books accept or refuse alike, report corresponding makers and takers, and rest the remainder alike |
| Refinement.CancelAnswers | 07-order-book/include/lob/book.hpp:103-121 | Through one handle both cancels answer alike if and only if the slot is not live again under a later handle |
| Refinement.StepAgrees | 07-order-book/include/lob/stl_book.hpp:15-17 | Two clients in step see the same answer to a request if and only if it is safe, and then stay in step |
| Refinement.Interchangeable | 07-order-book/include/lob/stl_book.hpp:15-17 | Over every tape of limits and cancels: same fills, rests and cancel answers if and only if every cancel on it is safe; then both books end in the same shape |
| StaleHandle.BooksCanDiffer | 07-order-book/include/lob/book.hpp:149-152 | A five-request tape with a stale handle on which the two books answer differently |
| Refinement.SameSummary | 07-order-book/apps/book_bench.cpp:112-116 | On every stream of draws of any length the two runs end with the same figures, best prices, live count and checksum |
| DriverLaws.FiguresExplained | 07-order-book/apps/book_bench.cpp:43-72 | There is one tape of n requests, dictated by the draws: the newest handle not yet withdrawn when one is left and the percentage is below the threshold, else a drawn order. Operations are n, cancels the yes answers to cancels, fills all prints, filled quantity and checksum sums over the first 32 prints of each answer plus the final figures |
| DriverLaws.LadderAnswers | 07-order-book/include/lob/book.hpp:69-121 | What a client of the ladder is told: prints inside the limit and no more than it asked; it rests exactly when accepted and not used up; a cancel says yes exactly when an order rests under the handle's id; handles grow by the ids that rest |
| DriverLaws.TreeAnswers | 07-order-book/include/lob/stl_book.hpp:44-81 | The same for the map book |
| BookBench.TallyExecs | 07-order-book/apps/book_bench.cpp:57-61 | The driver adds up the quantities, and prices plus 1000003 times quantities, of exactly the first 32 fills of the call |
| BookBench.RunLadder | 07-order-book/apps/book_bench.cpp:23-73 | The driver's loop over the array book computes the driver function, and its figures are explained by the answers to one tape (DriverLaws.FiguresExplained) |
| BookBench.RunTree | 07-order-book/apps/book_bench.cpp:23-73 | The same for the loop over the map book |
| BookBench.Benchmark | 07-order-book/apps/book_bench.cpp:98-116 | The two real runs give one summary, so the divergence message is unreachable; its figures are those of one tape (DriverLaws.FiguresExplained) |
| TapeRun.PlayLadder | 07-order-book/include/lob/book.hpp:73-121 | Any tape of limits and cancels played on the array book gets the answers of the run of the queue functions |
| TapeRun.PlayTree | 07-order-book/include/lob/stl_book.hpp:44-81 | Any tape played on the map book gets the answers of the run of the queue functions |
| TapeRun.PlayBoth | 07-order-book/include/lob/stl_book.hpp:15-17 | One tape played on two fresh real books gets the same answers if and only if every cancel on it is safe |
| Bits.NextPowerOfTwo | kernel-bypass/include/rxsim/spsc_ring.hpp:27-41 | For n up to 2^63 the least power of two not below n, above that 0 |
| Bits.MaskIsMod | kernel-bypass/include/rxsim/spsc_ring.hpp:107 | Masking with 2^k - 1 is taking the remainder modulo 2^k |
| SpscRing.RingArithmetic | kernel-bypass/include/rxsim/spsc_ring.hpp:101-119 | However many operations went before, wrapped counters give the true distance, emptiness and slot |
| SpscRing.Ring.constructor | kernel-bypass/include/rxsim/spsc_ring.hpp:73-80 | An empty ring whose capacity is the least power of two that suffices; above 2^63 a ring without slots, which refuses everything |
| SpscRing.Ring.Create | kernel-bypass/include/rxsim/spsc_ring.hpp:77-79 | A ring exists exactly when the capacity asked for is not 0 |
| SpscRing.Ring.TryPush | kernel-bypass/include/rxsim/spsc_ring.hpp:101-110 | Refused exactly when full; otherwise the item is appended to the contents |
| SpscRing.Ring.TryPop | kernel-bypass/include/rxsim/spsc_ring.hpp:113-122 | Refused exactly when empty; otherwise the oldest item leaves |
| SpscRing.Ring.Size | kernel-bypass/include/rxsim/spsc_ring.hpp:91-95 | The wrapped difference is the number of items held |
| SpscSteps.StepInv | common/include/hft/spsc_ring.hpp:68-89 | Every load and store of either side keeps the ring's invariant |
| SpscSteps.RingIsSafe | common/include/hft/spsc_ring.hpp:68-89 | In every interleaving what was popped is a prefix of what was pushed, occupancy stays within capacity, the producer never writes the slot being read, and every slot access happens after the conflicting one before it |
| SpscSteps.OnlyTheItem | common/include/hft/spsc_ring.hpp:86 | The acquire load of write_ leaves the consumer exactly one value to read: the next item |
| SpscSteps.RefusalsAreHonest | common/include/hft/spsc_ring.hpp:71-85 | After the two index loads a push is refused if and only if the ring is full up to the read index it saw, else it writes its slot; a pop is refused if and only if everything up to the write index it saw was popped, else it reads its item |
| SpscSteps.PushAlone | common/include/hft/spsc_ring.hpp:68-78 | An uninterrupted push that sees the newest index is the call of the bounded queue: refused exactly when full, else it appends |
| SpscSteps.PopAlone | common/include/hft/spsc_ring.hpp:80-89 | An uninterrupted pop likewise: refused exactly when empty, else it takes the oldest item left |
| SpscSteps.StalePush | common/include/hft/spsc_ring.hpp:70-73 | A run in which a push is refused on an empty ring, by a stale view of the read index |
| SpscSteps.StalePop | common/include/hft/spsc_ring.hpp:82-85 | A run in which a pop is refused although an item is there |
| LoggerSteps.Shutdown | 06-hot-path/apps/spsc_logger.cpp:76-111 | Whenever the logger has exited the ring is empty and the producer done; logged + dropped is the record count; the logged records are the accepted ones in order, and all of them with dropping off |
| LoggerSteps.ExitHappens | 06-hot-path/apps/spsc_logger.cpp:76-111 | For any records, capacity and mode there is a run in which every record is logged and the logger exits |
| StoreBuffer.NeverBothZero | 02-memory-model/apps/store_buffer.cpp:25-111 | In the seq_cst mode no run of any number of rounds counts a (0,0), with all resets and gate stores buffered |
| StoreBuffer.ReportsAreTruthful | 02-memory-model/apps/store_buffer.cpp:35-37 | What a worker is about to report is 0 or 1, and 1 only while the other's flag is up in memory |
| StoreBuffer.OutcomesExactly | 02-memory-model/apps/store_buffer.cpp:25-111 | In the seq_cst mode the outcomes of a round are exactly (0,1), (1,0) and (1,1): each is reached by a run, and no other is |
| StoreBuffer.RelaxedBothZero | 02-memory-model/apps/store_buffer.cpp:38-40 | With relaxed stores and loads a run counts a (0,0) |
| StoreBuffer.ExitMeansStop | 02-memory-model/apps/store_buffer.cpp:32-34 | A worker leaves only after main's Stop reached memory, with its own stores drained |
| StoreBuffer.ShutdownHappens | 02-memory-model/apps/store_buffer.cpp:113-114 | A run in which both workers leave |
| NicSpec.AlignedStride | kernel-bypass/include/rxsim/packet_pool.hpp:57-59 | The masked round-up is a multiple of 64, not below the size and less than a line above it; it wraps to 0 exactly for sizes above 2^64 - 64 |
| NicSpec.BuffersApart | kernel-bypass/include/rxsim/packet_pool.hpp:38-44 | Buffers lie inside the slab and no two share a byte |
| NicSpec.DmaElsewhere | kernel-bypass/src/simulated_nic.cpp:51-55 | Writing one buffer leaves the packet in every other buffer intact |
| NicSpec.RepostOwned | kernel-bypass/src/virtual_interface.cpp:72-74 | A buffer the application holds can always be reposted, and the partition of buffers is kept |
| NicSpec.RepostIff | kernel-bypass/src/virtual_interface.cpp:25-41 | Reposting a filled buffer leaves the buffers partitioned if and only if the application holds that buffer |
| NicSpec.UnpolledRepost | kernel-bypass/src/virtual_interface.cpp:29-32 | The state check accepts a filled buffer whose event is still queued, and afterwards no list of held buffers accounts for it |
| NicSpec.EarlyRepostOverfills | kernel-bypass/src/virtual_interface.cpp:97-102 | With one buffer, such a repost lets the next packet meet a full event ring |
| NicSpec.MidPost | kernel-bypass/src/virtual_interface.cpp:34-38 | To a NIC that acts between the push of a descriptor and the write of the state, a descriptor is that of a Posted buffer if and only if it was on the ring before |
| NicSpec.TooLate | kernel-bypass/src/virtual_interface.cpp:34-38 | With an empty ring the new buffer can be completed in that gap; then its event is queued but it can be neither read nor given back, and no assignment of buffers accounts for it |
| NicSpec.CompleteOwned | kernel-bypass/src/virtual_interface.cpp:90-105 | A buffer being received is Posted and the event ring has room for it; the partition is kept |
| VirtualInterface.Interface.constructor | kernel-bypass/src/virtual_interface.cpp:8-16 | Every buffer is free, both rings are empty, every counter is 0 |
| VirtualInterface.Interface.Create | kernel-bypass/include/rxsim/packet_pool.hpp:25-30 | An interface exists exactly when there are buffers and they are not of size 0 |
| VirtualInterface.Interface.PostFrom | kernel-bypass/src/virtual_interface.cpp:25-41 | Accepted exactly for a valid id in the expected state with room on the ring; otherwise nothing changes |
| VirtualInterface.Interface.Post | kernel-bypass/src/virtual_interface.cpp:43-45 | Accepts exactly free buffers |
| VirtualInterface.Interface.PostAll | kernel-bypass/src/virtual_interface.cpp:47-55 | Every free buffer is posted, in id order, and counted; none is refused |
| VirtualInterface.Interface.Poll | kernel-bypass/src/virtual_interface.cpp:57-70 | The oldest events, at most max, are written in order and leave the event ring; nothing for a null buffer or a max that is not positive |
| VirtualInterface.Interface.Repost | kernel-bypass/src/virtual_interface.cpp:72-74 | Accepts exactly filled buffers |
| VirtualInterface.Interface.Data | kernel-bypass/src/virtual_interface.cpp:76-84 | An address exactly for a valid id in state Filled |
| VirtualInterface.Interface.TryAcquireRx | kernel-bypass/src/virtual_interface.cpp:86-88 | The oldest posted descriptor, or none when none is posted |
| VirtualInterface.Interface.CompleteRx | kernel-bypass/src/virtual_interface.cpp:90-105 | The buffer becomes Filled and its event is queued; the push does not fail |
| NicSteps.StepInv | kernel-bypass/src/virtual_interface.cpp:25-105 | Every step of either thread keeps the partition, the packets' integrity and the order |
| NicSteps.Partition | kernel-bypass/src/virtual_interface.cpp:25-105 | After any run each buffer is in exactly one of never posted, descriptor ring, with the NIC, event ring, with the application; the states match; no descriptor or event push can fail |
| NicSteps.LossyFifo | kernel-bypass/src/simulated_nic.cpp:38-58 | After any run polled, waiting and in-flight packets are exactly the packets not dropped, in arrival order |
| NicSteps.LossMeansStarved | kernel-bypass/src/simulated_nic.cpp:38-57 | Overruns are exactly the arrivals that found no descriptor posted, whether the NIC would wait or not; if every arrival found one, all packets that arrived are delivered in order |
| NicSteps.NobodyBlocks | kernel-bypass/src/virtual_interface.cpp:25-105 | An event can be polled and a held buffer given back whatever the NIC does; the NIC can always go on with its packet, and take the next unless it waits for a descriptor |
| NicSteps.WaitingLosesNothing | kernel-bypass/src/simulated_nic.cpp:40-43 | When the NIC always waits for a buffer, all packets that arrived are delivered in order and nothing overruns |
| NicSteps.ReadableUntilRepost | kernel-bypass/src/simulated_nic.cpp:51-56 | Until it is reposted a polled buffer is readable and holds its packet cut to the buffer size |
| NicSteps.LossAccounting | kernel-bypass/src/simulated_nic.cpp:44-57 | Offered = completed + overruns + in flight; dropped = overruns = drops; posted - completed is the number of Posted buffers |
| NicSteps.GapsAreDrops | kernel-bypass/apps/receiver.cpp:57-63 | After any number of deliveries the gap counter is the number of drops before the last packet seen |
| NicSteps.ReceiverGaps | kernel-bypass/apps/receiver.cpp:53-70 | After any run gaps + delivered is the last sequence number + 1, and gaps never exceed overruns |
| NicSteps.SeeOn | kernel-bypass/apps/receiver.cpp:57-63 | For any numbers, restarts included: after packets a and then b the counters are those inside a, those inside b, and the step between them only if it goes up |
| ReceivePath.Nic.CopyIn | kernel-bypass/src/simulated_nic.cpp:52-55 | Copies the packet, cut to the buffer size, into its own buffer and nowhere else |
| ReceivePath.Nic.DmaOrDrop | kernel-bypass/src/simulated_nic.cpp:38-58 | With a descriptor the packet is received into the oldest posted buffer, without one it is counted as lost; the partition is kept |
| NicTurns.NicTurnRuns | kernel-bypass/src/simulated_nic.cpp:38-58 | Undisturbed, the steps of an idle NIC are this call: received into the oldest posted buffer when there is one, waiting or not; counted as lost when there is none and it does not wait |
| NicTurns.PostsRun | kernel-bypass/src/virtual_interface.cpp:47-55 | Posting every buffer in turn is a run of the interleaved model |
| NicTurns.ReceiverTurnRuns | kernel-bypass/apps/receiver.cpp:54-70 | So is a turn of the receiver: n events polled and given back leave rings and slab as ReceivePath.ReceiveBatch does, and deliver the n oldest packets |
| NicTurns.EverythingGetsThrough | kernel-bypass/src/simulated_nic.cpp:60-75 | However many packets and however few buffers, a run from a new interface delivers all of them in order without loss |
| ReceivePath.Nic.RunFake | kernel-bypass/src/simulated_nic.cpp:60-75 | With b descriptors and no application steps exactly min(k, b) packets complete, in order and intact, and the rest are overruns |
| ReceivePath.FakePacketsNumbered | kernel-bypass/src/simulated_nic.cpp:66-69 | The receiver reads i from synthetic packet i |
| ReceivePath.SeeEventsSeesPackets | kernel-bypass/apps/receiver.cpp:55-63 | Reading headers from the slab gives the counters of the packets themselves |
| ReceivePath.ShortPacketsSkipped | kernel-bypass/apps/receiver.cpp:57 | Packets of less than 16 bytes leave the counters alone |
| ReceivePath.ReceiveBatch | kernel-bypass/apps/receiver.cpp:54-70 | One turn polls at most 64 events, updates both counters by them and reposts every buffer, none refused, whatever the NIC holds |
| LittleEndian.LeRoundTrip | 06-hot-path/apps/parse.cpp:41-42 | Reading back the bytes of a word gives the word |
| Histogram.Hist.constructor | common/include/hft/common.hpp:208-213 | An empty histogram |
| Histogram.Hist.Bucket | common/include/hft/common.hpp:196-204 | The halving loop gives 0 for 0 and 1, and otherwise the b below 64 with 2^b <= ns < 2^(b+1) |
| Histogram.Hist.AddNs | common/include/hft/common.hpp:150-160 | Count, minimum, maximum, wrapped sum and every bucket are those of the samples with the new one |
| Histogram.RankBucket | common/include/hft/common.hpp:176-182 | The bucket where the running count passes a rank holds the sample of that rank in sorted order |
| Histogram.Hist.Percentile | common/include/hft/common.hpp:176-183 | For every rank below the count: 0 when the sample s of that rank is 0 or 1, otherwise a power of two P with P <= s < 2P; 0 for an empty histogram |
| Histogram.Hist.PercentileNs | common/include/hft/common.hpp:170-184 | The same for the sample whose rank is (count - 1) * p rounded down |
| Parse.FramingIsExact | 06-hot-path/apps/parse.cpp:57-62 | A list of messages and a rest are what a parser reaches if and only if the buffer is their encoding followed by a rest that starts no whole message |
| Parse.Build | 06-hot-path/apps/parse.cpp:30-53 | The generated buffer parses back into exactly its n messages with nothing left over |
| Parse.MessageReads | 06-hot-path/apps/parse.cpp:34-49 | Message i reads back as a heartbeat stamped i when i is a multiple of 8, else as a trade of one lot at price i |
| Parse.ParseInPlace | 06-hot-path/apps/parse.cpp:55-78 | The sink is the 64-bit sum over all reached messages; bodies too short for their type add nothing |
| Parse.ParseCopy | 06-hot-path/apps/parse.cpp:80-104 | In bounds exactly when no reached typed body has fewer than seven bytes; the sink is then that sum plus what seven-byte bodies read with the string's terminator |
| Parse.ParsersAgree | 06-hot-path/apps/parse.cpp:92-100 | The two parsers, called on one buffer, return the same if and only if the copying one stays in bounds and its seven-byte bodies add up to 0 modulo 2^64; in particular when every typed body is full |
| Parse.ParsersCanDiffer | 06-hot-path/apps/parse.cpp:92-95 | Two concrete inputs on which they differ: a seven-byte trade gives 0 in place and 6 in the copy, a trade without a body is read out of bounds |
| Parse.ParseSample | 06-hot-path/apps/parse.cpp:64-76 | A concrete stream of a trade, an oversized heartbeat, an unknown kind and a cut-off message on which both parsers return 16 |
| Parse.MessageAdds | 06-hot-path/apps/parse.cpp:34-49 | Message i adds i as a heartbeat and i + 1 in 32 bits as a trade |
| Parse.BuiltSumClosed | 06-hot-path/apps/parse.cpp:33-49 | The sum of n messages in closed form for every n: n(n-1)/2 plus one per trade less 2^32 per 32-bit wrap-around, with the number of wrap-arounds in closed form too |
| Parse.RunParse | 06-hot-path/apps/parse.cpp:112-118 | On a generated stream either parser returns the stream's sum |

## Left out

- LadderBook.Book.Limit: asks that the level an accepted order would rest on stays below 2^32. A level total that wraps to 0 would make the ladder take a full level for an empty one, which is outside the range where the two books are meant to agree. By `TradingLaws.TradesHaveRoom` this restricts no order that trades.
- LadderBook.Book.Process: asks the same.
- LadderBook.Book.Rest: asks the same.
- TreeBook.StlBook.Rest: asks the same.
- TreeBook.StlBook.Limit: asks the same; its id counter does not wrap, and after 2^32 accepted orders ids would repeat.
- BookBench.Benchmark: asks that 8 times the smaller of the iterations and max_orders is below 2^32; with more orders of the driver's 1 to 8 lots one level could reach 2^32. Its counters and checksum are unbounded, and the wrapped ones are a function of them.
- BookBench.RunLadder: asks the same, counting the orders already in the book.
- BookBench.RunTree: asks the same.
- TapeRun.PlayBoth: asks that the whole tape submits less than 2^32, so that no level total wraps.
- VirtualInterface.Interface.Create: asks for at most 2^63 buffers and a size of at most 2^64 - 64; beyond that the ring capacity and the stride wrap to 0 (`SpscRing.Ring.constructor`, `NicSpec.AlignedStride`) and the slab could not be allocated.
- VirtualInterface.Interface.constructor: asks the same.
- VirtualInterface.Interface.PostAll: ids do not wrap; with 2^32 or more buffers the source's 32-bit loop variable would never reach the count.
- VirtualInterface.Interface.PostFrom: is one step for the NIC thread, and so are the posts of `NicSteps`. In the source the descriptor is pushed before the state is written; `NicSpec.MidPost` and `NicSpec.TooLate` say when that gap is harmless and what happens otherwise.
- VirtualInterface.Interface.CompleteRx: asks what the source asserts; `NicSteps.Partition` shows it always holds.
- NicSteps.Partition: the application reposts only buffers it has polled and not yet reposted, as the receiver does. By `NicSpec.RepostIff` that is exactly the condition; `NicSpec.UnpolledRepost` is the case the state check misses.
- StoreBuffer.NeverBothZero: is about a total-store-order machine; on weaker hardware the relaxed mode allows more than store buffering.
- LoggerSteps.Shutdown: is about every state after the exit, not about whether every run exits, which needs a fair scheduler (`LoggerSteps.ExitHappens` gives runs that do); the flag may be read stale at any time. The mutex queue and the xor of the logged fields are not modelled.
- Histogram.Hist.PercentileNs: computes the rank over the reals, so a rank that moves by double rounding is not modelled; nor are the average and a wrap of the 64-bit sample count.
- ReceivePath.Nic.DmaOrDrop: does not wait for a buffer, since a call that waits alone on an empty ring never returns; waiting is in `NicSteps.WaitingLosesNothing` and `NicTurns.NicTurnRuns`. It is one uninterrupted turn of the NIC; `NicSteps` interleaves the two threads call by call.
- ReceivePath.Nic.RunFake: does not wait either.
- ReceivePath.ReceiveBatch: is one uninterrupted turn of the receiver.
- Parse.ParseCopy: the copy of a message is its bytes and a zero after them; what lies further on is not modelled.
- The UDP receive loop, sockets, thread start and join, pinning, clocks, `rdtsc`, the latency figures, argument parsing and printing: foreign calls and output.
- `dma_address` and the state query of the interface: a pointer cast and an array read.
- `hft::Pool`: its free stack is the one of the ladder book.
- The deliberately wrong publication order of the message-passing example: one trace would show it.
- The jitter, page-fault, false-sharing and dispatch programs: about time, which this model does not have.
