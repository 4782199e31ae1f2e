# Order book, feed recovery and hand-off: a verified model

This project models the market-data core of the repository and proves properties of it over all inputs, runs and
interleavings. It has four layers; each concrete class is proved against functions on plain values, and the laws are
proved about those functions.

**Limit order books.** `Books` is the abstract book: orders by id, and per side a map from price to the queue of ids.
`DenseBooks.DensePriceOrderBook` is the arena of nodes with its free list, intrusive queues, level totals, occupancy
bitmaps and open-addressed index (`Arenas`, `Occupancy`, `Probing`, `FixedOrderIndexes`); every operation keeps
`Inv`, which ties all of these to the abstract book in `view.book`. `ReferenceBooks.PriceTimeOrderBook` is the simple
book. `Differential` proves that the two answer every grid-priced history alike, with the same trades and updates in
the same order. `BookLaws` proves conservation, price-time priority (matching is one walk down the priority list) and
that matched histories never leave a crossed book, and `MatchOutcomes` says in plain prices and quantities what a user
of either book is owed: limits are kept, matching stops only when it must, and what is left of an order is exactly what
was not traded. `Collections` has the few lemmas about maps and sets that several
modules share.

**MoldUDP64 recovery.** `MoldUdp64` is the byte codec, the two-pass parser and the sequence tracker; `Packetisers` is
the sender that the parser inverts. `Recovery` says what the reorder window does on values, `RecoveryWindows` is the
class over slots, `RecoveryLaws` has the invariants over runs, `RecoveryConfluence` shows that arrival order and
repetition do not matter for a coherent set, `RecoveryOrder` says exactly when order matters without that,
`RecoverySlots` when a slot is never given back, `RecoveryEnds` where an end of session is signalled, and
`RecoveryAnswers` what each call answers and exactly which requests it makes.

**ITCH adapter, pipeline and feed.** `Adapter` and `AdapterLaws` are the message handlers on values and their
conservation laws, `AdapterAnswers` ties every published event to the tables, `ItchAdapters` is the class over two
bounded hash tables (`FixedHashTables`). `Replicas` is the meaning of an ITCH stream on a single state, without the
adapter's tables, and `StreamAnswers` spells out what that is for each message; `Pipelines` proves that adapter and book stay in
lock-step with it, and `ReplicaLaws` what every reached book satisfies. `MoldFeeds` composes the recovery window with
the pipeline; `FeedStories` says on values what such a feed holds. A feed is open until a malformed or foreign packet, a
transport fault or a missing start spoils it, or an end of session that comes when nothing is wrong closes it.
`EndToEnd` joins sender, channel, window and book: an open feed holds what the packetised list means, and so does one
that the closing packet has closed.

**Concurrent hand-off.** `Spsc`, `ShmRing` and `Level2` are state machines whose steps are single shared loads, stores
and word copies; theorems quantify over every schedule. Steps are sequentially consistent: the acquire and release
orderings of the sources are taken to make their loads and stores so. `Level2Progress` excludes livelock, and
`ShmDrops` says what the shared-memory reader gives up.

Where the code falls short of what one might expect, the exact condition is proved:

- The request logic of the recovery window: after an accepted packet a request is outstanding if and only if a gap is
  open and no announced end of session has been passed by data (`RecoveryLaws.IngestKeeps`). A passed end is reachable
  (`RecoveryLaws.StaleEndExample`), and over every run in which no other end is announced it stays and nothing is asked
  for (`RecoveryLaws.StalePersists`, `RecoveryLaws.StaleForever`). A packet beyond a gap that is too large or finds no
  slot raises the high-water mark without asking for anything (`RecoveryLaws.RefusedRaisesMark`): one call breaks the
  equivalence if and only if it turns a packet away so while nothing is outstanding and no end is stale
  (`RecoveryLaws.RequestLostIff`), and over a run it holds if and only if a packet has been taken since the last such
  call (`RecoveryLaws.RunOutstandingIff`).
- Reordering: for datagrams that do not contradict each other, every complete arrival order delivers the same messages
  if and only if keeping only the shortest datagram of each first number beyond the start opens no earlier hole
  (`RecoveryOrder.OrderIrrelevantIff`); it suffices that first numbers identify the datagrams
  (`RecoveryConfluence.Confluence`). `RecoveryConfluence.IdentityNeeded` is an example of a set where order matters.
- Slots: a datagram that the stream passes while it is buffered keeps its slot for good
  (`RecoverySlots.OvertakenForever`), and once all slots are held so every later datagram ahead is refused
  (`RecoverySlots.CloggedForever`, `RecoverySlots.CloggedRefuses`, reachable by `RecoverySlots.ClogExample`), which
  faults the feed (`FeedStories.CloggedFaults`). Some arrival order does this to a datagram of a set if and only if
  another one moves the stream from before it into it or past it and datagrams that start later take over up to its end
  (`RecoverySlots.CanStayIff`); never when the datagrams do not overlap (`RecoverySlots.DisjointLiesAhead`), as in a
  packetised session (`EndToEnd.NothingStaysBuffered`).
- The two books answer a submission or a modification alike if and only if they agree on whether its id and price are
  acceptable, or it fails a check they share (`Differential.SubmitAgreesIff`, `Differential.ModifyAgreesIff`).
- A dense book's bitmaps cover its levels if and only if the 32-bit rounding of the level count does not wrap, which
  fails for the 63 largest counts (`DenseBooks.WordsCoverIff`); the offset of every price above the minimum fits 64 bits
  if and only if the minimum is not negative (`DenseBooks.OffsetFitsIff`). The pipeline accepts only grids on which
  both hold (`Pipelines.GeometryFits`).
- The shared-memory reader's accounting of one call is exact if and only if the slot's number was not rewound under
  the copy (`ShmRing.AccountsIff`). Against a writer without gaps one call drops numbers that are still in the ring if
  and only if the slot it wants is overwritten after the published number was read and the writer has not gone on to
  overwrite all up to there (`ShmDrops.DropsIntactIff`, with `ShmDrops.OverrunExample`); an undisturbed call never does
  (`ShmDrops.UndisturbedRead`). Whatever the schedule, no torn item is handed on if and only if the writer waits to
  be at most a capacity past the confirmed count (`Level2.WaitExact`); the loop's bound is one below that.
- A feed matches nothing locally, so its book may be crossed (`ReplicaLaws.FeedMayCross` is an example): a message
  leaves an uncrossed book uncrossed if and only if it is not an add or replace whose price reaches the best opposite
  price of the book it is added to (`ReplicaLaws.FollowCrossesIff`).

## Model

| member | source | states |
|---|---|---|
| `Probing.Probe` | include/qtrader/FixedHashTable.hpp:65-77 | a probe along the cyclic path finds the key exactly when it is stored, for any bucket function; otherwise it stops at the first empty slot, every slot before which is occupied, or after a full turn over a full table |
| `Probing.StoreKeeps` | include/qtrader/FixedHashTable.hpp:69-75 | storing a new key in the slot its probe stopped at leaves every key on an unbroken probe path and adds exactly that key |
| `Probing.AssignKeeps` | include/qtrader/FixedHashTable.hpp:81-85 | writing through the found entry changes one value and no probe path |
| `Probing.FewKeysLeaveEmpty` | include/qtrader/FixedHashTable.hpp:114-127 | fewer keys than slots leaves an empty slot, which is where the erase scan stops |
| `Probing.MaskedDistance` | include/qtrader/FixedHashTable.hpp:165-166 | the masked difference of two slots is the distance walked forward around the ring |
| `Probing.ScanMoves` | include/qtrader/FixedHashTable.hpp:167-171 | moving an entry back into the hole keeps every other probe path unbroken, keeps every key, and makes the vacated slot the new hole nearer to the empty slot |
| `Probing.ScanSkips` | include/qtrader/FixedHashTable.hpp:172 | an entry the hole does not separate from its home bucket stays, and the scan gets nearer to the empty slot |
| `Probing.ScanEnds` | include/qtrader/FixedHashTable.hpp:174 | clearing the last hole yields a sound table that holds exactly the remaining keys and values |
| `Probing.Backshift` | include/qtrader/FixedHashTable.hpp:158-175 | backshift deletion terminates and removes exactly the key in the given slot; all others stay reachable on unbroken paths |
| `FixedHashTables.RoundedCapacity` | include/qtrader/FixedHashTable.hpp:114-127 | the capacity is a power of two of at least eight, at least twice and when larger than eight less than four times the request; it throws exactly for zero and for more than 2^62 |
| `FixedHashTables.FixedHashTable.constructor` | include/qtrader/FixedHashTable.hpp:34-42 | a table of a valid size starts empty and sound |
| `FixedHashTables.FixedHashTable.FindSlot` | include/qtrader/FixedHashTable.hpp:142-156 | the key's slot if it is in the map, the capacity otherwise |
| `FixedHashTables.FixedHashTable.Find` | include/qtrader/FixedHashTable.hpp:81-91 | lookup agrees with the map |
| `FixedHashTables.FixedHashTable.Insert` | include/qtrader/FixedHashTable.hpp:56-79 | InvalidKey, Duplicate, Full or Inserted by key zero, membership and fullness, in that precedence; the map changes only when inserted |
| `FixedHashTables.FixedHashTable.Assign` | include/qtrader/FixedHashTable.hpp:81-85 | assignment through the returned pointer updates the map at that key |
| `FixedHashTables.FixedHashTable.Erase` | include/qtrader/FixedHashTable.hpp:93-101 | erase removes exactly the key and reports whether it was there |
| `FixedOrderIndexes.FixedOrderIndex.RoundedCapacity` | components/include/qtrader/DensePriceOrderBook.hpp:109-114 | the index capacity is at least eight and four times the orders |
| `FixedOrderIndexes.FixedOrderIndex.Insert` | components/include/qtrader/DensePriceOrderBook.hpp:52-67 | insertion into the order index agrees with map insertion and refuses a known key |
| `FixedOrderIndexes.FixedOrderIndex.Find` | components/include/qtrader/DensePriceOrderBook.hpp:69-80 | lookup agrees with the map and answers the invalid index for the two reserved keys and for absent ones |
| `FixedOrderIndexes.FixedOrderIndex.Erase` | components/include/qtrader/DensePriceOrderBook.hpp:82-96 | erase removes exactly the key and reports whether it was there |
| `Occupancy.LowestBit` | components/include/qtrader/DensePriceOrderBook.hpp:486-495 | the lowest set bit of a word: it is set and none below it is |
| `Occupancy.HighestBit` | components/include/qtrader/DensePriceOrderBook.hpp:497-506 | the highest set bit of a word: it is set and none above it is |
| `Occupancy.Mark` | components/include/qtrader/DensePriceOrderBook.hpp:448 | setting a level's bit adds exactly that level |
| `Occupancy.Unmark` | components/include/qtrader/DensePriceOrderBook.hpp:459 | clearing a level's bit removes exactly that level |
| `Occupancy.FindBest` | components/include/qtrader/DensePriceOrderBook.hpp:464-484 | the word-then-bit scan finds the highest or lowest marked level, or none exactly when none is marked |
| `Arenas.AllocateKeeps` | components/include/qtrader/DensePriceOrderBook.hpp:396-404 | taking the head of the free list keeps the arena invariant: nodes split into one free list and the level queues |
| `Arenas.ReleaseKeeps` | components/include/qtrader/DensePriceOrderBook.hpp:406-411 | returning a node to the free list keeps the arena invariant |
| `Arenas.AppendKeeps` | components/include/qtrader/DensePriceOrderBook.hpp:419-429 | linking a node at the tail keeps links mutually inverse and totals equal to the sum of remaining, and is Add on the abstract book |
| `Arenas.UnlinkKeeps` | components/include/qtrader/DensePriceOrderBook.hpp:431-443 | unlinking any node of a queue keeps links and totals and is Remove on the abstract book |
| `Arenas.ShrinkKeeps` | components/include/qtrader/DensePriceOrderBook.hpp:216-217 | lowering a node and its level total together keeps totals exact and is Shrink on the abstract book |
| `DenseBooks.PriceIndex` | components/include/qtrader/DensePriceOrderBook.hpp:374-389 | price to level is the inverse of level to price and refuses exactly the prices off the grid, on any grid |
| `DenseBooks.WordsCoverIff` | components/include/qtrader/DensePriceOrderBook.hpp:169 | the bitmap words, counted in 32-bit arithmetic, cover every level if and only if the level count is at most 2^32 - 64 |
| `DenseBooks.OffsetFitsIff` | components/include/qtrader/DensePriceOrderBook.hpp:377 | the offset of every 64-bit price at or above the minimum fits 64 bits if and only if the minimum is not negative; below zero the largest price is the one that overflows |
| `DenseBooks.BestLevel` | components/include/qtrader/DensePriceOrderBook.hpp:347-348 | the cached best level is the highest bid or lowest ask level that is not empty, and none exactly when the side is empty |
| `DenseBooks.DensePriceOrderBook.constructor` | components/include/qtrader/DensePriceOrderBook.hpp:166-178 | the new book is empty and satisfies the whole invariant, for any grid of at most 2^32 - 64 levels |
| `DenseBooks.DensePriceOrderBook.SetOccupied` | components/include/qtrader/DensePriceOrderBook.hpp:445-454 | bitmap and cached best follow a level becoming occupied |
| `DenseBooks.DensePriceOrderBook.ClearOccupied` | components/include/qtrader/DensePriceOrderBook.hpp:456-462 | bitmap and cached best follow a level becoming empty |
| `DenseBooks.DensePriceOrderBook.Allocate` | components/include/qtrader/DensePriceOrderBook.hpp:396-404 | a node from the free list, or the invalid index exactly when the arena is full |
| `DenseBooks.DensePriceOrderBook.Append` | components/include/qtrader/DensePriceOrderBook.hpp:419-429 | the order joins the tail of its level on the abstract book |
| `DenseBooks.DensePriceOrderBook.Unlink` | components/include/qtrader/DensePriceOrderBook.hpp:431-443 | the order leaves its level on the abstract book |
| `DenseBooks.DensePriceOrderBook.UnlinkFilled` | components/include/qtrader/DensePriceOrderBook.hpp:545-554 | removing the filled head agrees with removal on the abstract book |
| `DenseBooks.DensePriceOrderBook.FillHead` | components/include/qtrader/DensePriceOrderBook.hpp:522-540 | one fill against the head of a level is the abstract fill, with the same trade and update |
| `DenseBooks.DensePriceOrderBook.MatchLevel` | components/include/qtrader/DensePriceOrderBook.hpp:520-541 | the inner loop consumes one level head by head as abstract matching does |
| `DenseBooks.DensePriceOrderBook.Match` | components/include/qtrader/DensePriceOrderBook.hpp:508-543 | the nested loops terminate and yield the book, the remaining quantity and the event log of abstract matching |
| `DenseBooks.DensePriceOrderBook.Submit` | components/include/qtrader/DensePriceOrderBook.hpp:258-305 | result, book and event log equal the abstract submission: rejections, fills, market remainder canceled, limit remainder queued |
| `DenseBooks.DensePriceOrderBook.Cancel` | components/include/qtrader/DensePriceOrderBook.hpp:307-318 | result, book and event log equal the abstract cancellation |
| `DenseBooks.DensePriceOrderBook.Modify` | components/include/qtrader/DensePriceOrderBook.hpp:320-344 | result, book and event log equal taking the order out and executing it again at the new price and size |
| `DenseBooks.DensePriceOrderBook.FeedAdd` | components/include/qtrader/DensePriceOrderBook.hpp:186-208 | adds at the tail of the level, or refuses exactly for a reserved or known id, zero quantity, off-grid price or full arena |
| `DenseBooks.DensePriceOrderBook.FeedReduce` | components/include/qtrader/DensePriceOrderBook.hpp:210-227 | lowers the order in place and removes it at zero, or refuses exactly for an unknown id or a quantity of zero or too large |
| `DenseBooks.DensePriceOrderBook.FeedDelete` | components/include/qtrader/DensePriceOrderBook.hpp:229-236 | removes exactly a known order |
| `DenseBooks.DensePriceOrderBook.FeedReplace` | components/include/qtrader/DensePriceOrderBook.hpp:238-256 | takes the old order out and puts the new id at the tail of its price on the same side, or refuses and changes nothing |
| `DenseBooks.DensePriceOrderBook.ActiveOrders` | components/include/qtrader/DensePriceOrderBook.hpp:346 | the number of live orders |
| `DenseBooks.DensePriceOrderBook.BestBid` | components/include/qtrader/DensePriceOrderBook.hpp:347 | a bid price no bid is above, zero when there is none |
| `DenseBooks.DensePriceOrderBook.BestAsk` | components/include/qtrader/DensePriceOrderBook.hpp:348 | an ask price no ask is below, zero when there is none |
| `DenseBooks.DensePriceOrderBook.Contains` | components/include/qtrader/DensePriceOrderBook.hpp:349 | membership in the abstract book |
| `DenseBooks.DensePriceOrderBook.Remaining` | components/include/qtrader/DensePriceOrderBook.hpp:350-354 | the remaining quantity in the abstract book, zero when absent |
| `DenseBooks.DensePriceOrderBook.LevelQuantity` | components/include/qtrader/DensePriceOrderBook.hpp:355-360 | the sum of remaining over the level's queue, modulo 2^64 |
| `DenseBooks.DensePriceOrderBook.VisitLevel` | components/include/qtrader/DensePriceOrderBook.hpp:362-371 | the traversal visits exactly the level's queue in time order, with the remaining quantity of each order |
| `BookLaws.AddKeeps` | components/include/qtrader/DensePriceOrderBook.hpp:419-429 | adding an order keeps the book well-formed |
| `BookLaws.RemoveKeeps` | components/include/qtrader/DensePriceOrderBook.hpp:431-443 | removing an order keeps the book well-formed |
| `BookLaws.ShrinkKeeps` | components/include/qtrader/DensePriceOrderBook.hpp:216-217 | lowering an order keeps the book well-formed |
| `BookLaws.MatchKeeps` | components/include/qtrader/DensePriceOrderBook.hpp:508-543 | matching keeps the book well-formed and leaves something of the taker only when the other side is empty or its best price is strictly beyond the limit of a limit order |
| `BookLaws.MatchConserves` | components/include/qtrader/DensePriceOrderBook.hpp:524-528 | traded quantity equals what the taker lost in all and what each maker lost |
| `BookLaws.PriorityOrder` | components/include/qtrader/DensePriceOrderBook.hpp:514-521 | the priority list of a side holds its orders once each, best prices first and queue order within a price |
| `BookLaws.MatchIsSweep` | components/include/qtrader/DensePriceOrderBook.hpp:508-543 | price-time law: matching is one walk down the priority list, and the list left over is the priority list afterwards |
| `BookLaws.TradesWithinLimit` | components/include/qtrader/DensePriceOrderBook.hpp:517-528 | every trade of a limit buy is at or below its price and of a limit sell at or above, at the resting order's own price, against the other side, and of positive quantity |
| `BookLaws.ExecuteKeeps` | components/include/qtrader/DensePriceOrderBook.hpp:285-304 | an incoming order leaves a well-formed uncrossed book well-formed and uncrossed |
| `BookLaws.RemoveKeepsUncrossed` | components/include/qtrader/DensePriceOrderBook.hpp:307-318 | a cancellation never crosses the book |
| `BookLaws.AddUncrossedIff` | components/include/qtrader/DensePriceOrderBook.hpp:205-206 | resting an order without matching leaves an uncrossed book uncrossed if and only if its price does not reach the best opposite price |
| `BookLaws.ReduceKeepsTimePriority` | components/include/qtrader/DensePriceOrderBook.hpp:210-227 | a partial reduction leaves every queue as it is and the order with exactly that much less, a full one only takes the order out |
| `BookLaws.ReplaceGoesToTail` | components/include/qtrader/DensePriceOrderBook.hpp:246-254 | a replaced order is last in the queue of its new price |
| `MatchOutcomes.StopsOnlyWhenItMust` | components/include/qtrader/DensePriceOrderBook.hpp:508-518 | something is left of a market order only when the other side is empty, and of a limit order only when besides that every price there is strictly beyond its limit |
| `MatchOutcomes.BestIsExtreme` | components/include/qtrader/DensePriceOrderBook.hpp:464-484 | the best bid is the highest bid price and the best ask the lowest ask price |
| `MatchOutcomes.TermsStay` | components/include/qtrader/DensePriceOrderBook.hpp:519-541 | matching never changes the side or price of a resting order |
| `MatchOutcomes.UpdatesTellHoldings` | components/include/qtrader/DensePriceOrderBook.hpp:524-539 | each trade is followed by an update of its maker that says what is left of it, filled exactly at zero |
| `MatchOutcomes.ExecuteOutcome` | components/include/qtrader/DensePriceOrderBook.hpp:283-304 | the last event says what was not traded, with the state that follows from it; of a limit order exactly that rests, last in its queue, at its own side and price; every other order holds what it held less its own trades |
| `MatchOutcomes.AddOutcome` | components/include/qtrader/DensePriceOrderBook.hpp:419-429 | a new order is stored as given, last in its queue, and nothing else moves |
| `MatchOutcomes.RemoveOutcome` | components/include/qtrader/DensePriceOrderBook.hpp:431-443 | taking an order out closes its queue up around it and moves nothing else |
| `MatchOutcomes.DenseSubmitOutcome` | components/include/qtrader/DensePriceOrderBook.hpp:258-305 | the dense book takes exactly a new order with an id it can index, a quantity, a limit on the grid and room; then the outcome is that of its quantity less what was traded, otherwise a rejection and nothing changes |
| `MatchOutcomes.DenseModifyOutcome` | components/include/qtrader/DensePriceOrderBook.hpp:320-344 | a modification is taken exactly for a known id, a quantity and a price on the grid; it keeps the side, loses its place and is completed as a new limit order |
| `MatchOutcomes.ReferenceSubmitOutcome` | components/include/qtrader/PriceTimeOrderBook.hpp:70-115 | the reference book takes exactly a new order with an id, a quantity, a positive limit and room, with the same outcome |
| `MatchOutcomes.ReferenceModifyOutcome` | components/include/qtrader/PriceTimeOrderBook.hpp:131-141 | the same for its modification, for which there is always room |
| `MatchOutcomes.CancelOutcome` | components/include/qtrader/DensePriceOrderBook.hpp:307-318 | a cancellation of a known id reports what was left of the order, and takes it out |
| `ReferenceBooks.PriceTimeOrderBook.FillHead` | components/include/qtrader/PriceTimeOrderBook.hpp:227-248 | one fill against the head of the best level is the abstract fill |
| `ReferenceBooks.PriceTimeOrderBook.MatchLevels` | components/include/qtrader/PriceTimeOrderBook.hpp:215-250 | the nested loops terminate and yield abstract matching |
| `ReferenceBooks.PriceTimeOrderBook.Submit` | components/include/qtrader/PriceTimeOrderBook.hpp:70-115 | result, book and event log equal the abstract reference submission |
| `ReferenceBooks.PriceTimeOrderBook.Cancel` | components/include/qtrader/PriceTimeOrderBook.hpp:117-129 | result, book and event log equal the abstract cancellation |
| `ReferenceBooks.PriceTimeOrderBook.Modify` | components/include/qtrader/PriceTimeOrderBook.hpp:131-141 | release-and-resubmit equals the abstract reference modification |
| `ReferenceBooks.PriceTimeOrderBook.BestBid` | components/include/qtrader/PriceTimeOrderBook.hpp:144 | a bid price no bid is above, zero when there is none |
| `ReferenceBooks.PriceTimeOrderBook.BestAsk` | components/include/qtrader/PriceTimeOrderBook.hpp:145 | an ask price no ask is below, zero when there is none |
| `Differential.SubmitAgreesIff` | components/include/qtrader/PriceTimeOrderBook.hpp:73-79 | dense and reference submission agree if and only if a shared check fails or both or neither accept the id and price |
| `Differential.ModifyAgreesIff` | components/include/qtrader/PriceTimeOrderBook.hpp:131-141 | modify-in-place and release-and-resubmit agree if and only if the id is unknown, the quantity zero, or both or neither accept the price |
| `Differential.StepKeeps` | components/include/qtrader/PriceTimeOrderBook.hpp:70-141 | no request breaks the book: well-formed, within capacity, uncrossed |
| `Differential.HistoriesAgree` | components/tests/DenseOrderBookTest.cpp:93-132 | on every history of grid-priced requests from a sane book both books give equal results, traces and states, and the book is never crossed |
| `Differential.Compare` | components/tests/DenseOrderBookTest.cpp:93-132 | run side by side from empty, the two classes report equal results, event logs, best prices and active counts after every request of every grid-priced history |
| `MoldUdp64.EncodeDecode` | include/qtrader/MoldUdp64.hpp:204-208 | decoding the big-endian bytes of a value gives the value back |
| `MoldUdp64.DecodeEncode` | include/qtrader/NasdaqItch50.hpp:8-38 | encoding the value of some bytes gives the bytes back |
| `MoldUdp64.ReadersAreBigEndian` | include/qtrader/NasdaqItch50.hpp:8-38 | the 16, 32, 48 and 64 bit readers compute the big-endian value of their bytes |
| `MoldUdp64.EncodeU64` | include/qtrader/MoldUdp64.hpp:204-208 | the shift loop writes the eight big-endian bytes and nothing else |
| `MoldUdp64.EncodeU16` | include/qtrader/MoldUdp64.hpp:199-202 | writes the two big-endian bytes and nothing else |
| `MoldUdp64.MakeRequestPacket` | include/qtrader/MoldUdp64.hpp:210-218 | a bare twenty-byte header with the given session, number and count |
| `MoldUdp64.HeaderRoundTrip` | include/qtrader/MoldUdp64.hpp:52-59 | a header in front of any payload is decoded back |
| `MoldUdp64.HeaderPositions` | include/qtrader/MoldUdp64.hpp:52-59 | field positions and byte order of the header and of a block, on counting bytes |
| `MoldUdp64.TilingUnique` | include/qtrader/MoldUdp64.hpp:87-103 | framing is injective: of two ways to tile one payload with blocks the shorter is a prefix of the longer |
| `MoldUdp64.Validate` | include/qtrader/MoldUdp64.hpp:87-108 | pass one accepts only a payload tiled by exactly the announced number of blocks, and otherwise names what stopped it and where |
| `MoldUdp64.VisitBlocks` | include/qtrader/MoldUdp64.hpp:110-119 | pass two hands on each block of the tiling with consecutive numbers |
| `MoldUdp64.RefusedCarriesNothing` | include/qtrader/MoldUdp64.hpp:87-108 | a payload refused in pass one is not tiled by any list of the announced number of messages |
| `MoldUdp64.Parse` | include/qtrader/MoldUdp64.hpp:63-121 | no error if and only if some message list tiles the payload; then exactly that list is visited, otherwise there is no callback; each error kind is characterised |
| `MoldUdp64.JudgeBySpan` | include/qtrader/MoldUdp64.hpp:145-181 | a data packet may be processed exactly when it holds the expected number, and skipping the reported count starts at that number without truncation |
| `MoldUdp64.JudgeExact` | include/qtrader/MoldUdp64.hpp:145-181 | the tracker's state, skip, expectation and gap size for every header, in plain numbers |
| `MoldUdp64.SequenceTracker.Inspect` | include/qtrader/MoldUdp64.hpp:145-181 | the first packet fixes session and next number; afterwards inspection changes nothing and decides by session, overflow and span |
| `MoldUdp64.SequenceTracker.Commit` | include/qtrader/MoldUdp64.hpp:183-187 | moves past a processed data packet and nothing else |
| `Packetisers.FramedDelivers` | tools/NasdaqMoldUdpLoopback.cpp:183-200 | framed messages behind a filled-in header parse back to themselves |
| `Packetisers.Packetiser.SendDatagram` | tools/NasdaqMoldUdpLoopback.cpp:183-200 | sends the collected messages as one datagram from the next number, or nothing when there are none |
| `Packetisers.Packetiser.Add` | tools/NasdaqMoldUdpLoopback.cpp:205-215 | takes the message unless the limit is reached, flushing first exactly when messages are waiting and it would not fit in 1400 bytes with them; no accepted message is lost or reordered |
| `Packetisers.Packetiser.Finish` | tools/NasdaqMoldUdpLoopback.cpp:219-222 | the datagrams sent deliver exactly the accepted messages with consecutive numbers, each of one message or at most 1400 bytes, and the closing packet carries the end of session |
| `Packetisers.Loopback` | tools/NasdaqMoldUdpLoopback.cpp:175-222 | packetising any list of messages and parsing the datagrams yields the list, numbered from one |
| `Recovery.Pick` | include/qtrader/MoldUdp64Recovery.hpp:177-190 | the slot chosen to drain holds the next number and starts last among those; none exactly when no slot holds it |
| `Recovery.Target` | include/qtrader/MoldUdp64Recovery.hpp:192-205 | the nearest known number: high-water mark, slots ahead or announced end |
| `RecoveryLaws.TargetBounds` | include/qtrader/MoldUdp64Recovery.hpp:192-241 | the target lies ahead exactly when a gap is open and no announced end is at or behind the next number, and then not beyond any buffered datagram ahead |
| `RecoveryLaws.AskKeeps` | include/qtrader/MoldUdp64Recovery.hpp:236-248 | asking leaves a request outstanding exactly for a visible gap, and a request made starts at the next number, asks for 1 to 65534 and for nothing buffered |
| `RecoveryLaws.SettleKeeps` | include/qtrader/MoldUdp64Recovery.hpp:228-233 | an end of session is signalled exactly when it is due, marks are retired and the request invariant is restored |
| `RecoveryLaws.DrainDelivers` | include/qtrader/MoldUdp64Recovery.hpp:207-226 | draining delivers on in order, once each, forgets no accepted datagram and stops only when none holds the next number |
| `RecoveryLaws.AheadKeeps` | include/qtrader/MoldUdp64Recovery.hpp:81-94 | a packet beyond a gap moves nothing forward, is buffered only under a new first number, and leaves a request outstanding exactly for an open gap when taken |
| `RecoveryLaws.AdvanceKeeps` | include/qtrader/MoldUdp64Recovery.hpp:106-109 | a packet in order moves the next number forward and re-establishes everything that holds between calls |
| `RecoveryLaws.IngestKeeps` | include/qtrader/MoldUdp64Recovery.hpp:54-110 | between calls nothing deliverable is held back and the request invariant holds; requests and control callbacks are well placed; after an accepted packet a request is outstanding if and only if a gap is open and no end is stale |
| `RecoveryLaws.FirstPacketSeeds` | include/qtrader/MoldUdp64.hpp:146-149 | the first well-formed packet acts as if the window had been seeded with it |
| `RecoveryLaws.RunFaithful` | include/qtrader/MoldUdp64Recovery.hpp:54-110 | over every run the delivered numbers are exactly start to next minus one, in order, once each, with the content an accepted datagram gives them, and no accepted datagram is forgotten |
| `RecoveryLaws.NextIsLeastUncovered` | include/qtrader/MoldUdp64Recovery.hpp:177-190 | the next number is the least one from the start on that no accepted datagram holds, so draining is maximal |
| `RecoveryLaws.StaleHidesGap` | include/qtrader/MoldUdp64Recovery.hpp:200-203 | behind an end of session that data has passed, a datagram that is buffered is not asked for |
| `RecoveryLaws.StaleEndExample` | include/qtrader/MoldUdp64Recovery.hpp:228-231 | a passed end is reachable: an end announced at 3, then data for 1 to 5 |
| `RecoveryLaws.StalePersists` | include/qtrader/MoldUdp64Recovery.hpp:192-248 | whatever arrives other than an end announced ahead, a passed end stays and the call makes no request |
| `RecoveryLaws.StaleForever` | include/qtrader/MoldUdp64Recovery.hpp:54-110 | over every run in which no end is announced ahead, a passed end stays and no request is outstanding |
| `RecoveryLaws.RefusedRaisesMark` | include/qtrader/MoldUdp64Recovery.hpp:83-87 | a datagram ahead that is too large or finds no slot is reported, raises the high-water mark and changes nothing else; nothing is asked for |
| `RecoveryLaws.RequestLostIff` | include/qtrader/MoldUdp64Recovery.hpp:54-110 | one call breaks that equivalence if and only if it turns a packet away for size or slots while nothing is outstanding and no end is stale |
| `RecoveryLaws.RunOutstandingIff` | include/qtrader/MoldUdp64Recovery.hpp:54-248 | over every run, a request is outstanding exactly for an open gap, if and only if no packet was turned away with nothing outstanding since one was last taken |
| `RecoveryAnswers.IngestAsks` | include/qtrader/MoldUdp64Recovery.hpp:236-248 | a call makes a request exactly when it leaves one outstanding that was not, or that a processed packet has renewed; the request is its last callback and asks from the next number up to the nearest one known, at most 65534 |
| `RecoveryAnswers.RunAsks` | include/qtrader/MoldUdp64Recovery.hpp:54-248 | over every run, every call does so, and while a request is outstanding the latest one made starts at the number still awaited |
| `RecoveryAnswers.CurrentAnswers` | include/qtrader/MoldUdp64Recovery.hpp:58-104 | status and callbacks of a malformed, foreign, overflowing or repeated packet and of a heartbeat or end in order; none of them changes the window |
| `RecoveryAnswers.ProcessedAnswers` | include/qtrader/MoldUdp64Recovery.hpp:106-109 | a data packet that holds the next number hands on its unseen messages first, in order, clears the mark exactly when passed and signals an end exactly when due |
| `RecoveryAnswers.AheadAnswers` | include/qtrader/MoldUdp64Recovery.hpp:81-94 | a packet ahead raises the mark, an end is remembered, and data is held unless too large, known or without a slot, in that precedence |
| `RecoveryLaws.OvertakenStays` | include/qtrader/MoldUdp64Recovery.hpp:207-226 | a buffered datagram that has been passed entirely is still buffered after draining |
| `RecoverySlots.OvertakenCall` | include/qtrader/MoldUdp64Recovery.hpp:54-110 | no call, whatever arrives, takes a passed datagram out of its slot |
| `RecoverySlots.OvertakenForever` | include/qtrader/MoldUdp64Recovery.hpp:54-234 | over every run the slot of a passed datagram stays taken by it |
| `RecoverySlots.CloggedRefuses` | include/qtrader/MoldUdp64Recovery.hpp:127-153 | when every slot holds a passed datagram, a datagram ahead of the stream is refused as too large or for want of a slot |
| `RecoverySlots.CloggedForever` | include/qtrader/MoldUdp64Recovery.hpp:54-234 | and this stays so over every run, with the same datagrams in the slots |
| `RecoverySlots.ClogExample` | include/qtrader/MoldUdp64Recovery.hpp:127-153 | an example: with one slot, data at 3 and then data for 1 to 5 leave the slot taken for good |
| `RecoverySlots.DrainBypasses` | include/qtrader/MoldUdp64Recovery.hpp:177-226 | draining passes a datagram that it leaves buffered only by way of one that comes from before it and later ones that take over |
| `RecoverySlots.RunAccounted` | include/qtrader/MoldUdp64Recovery.hpp:54-234 | over every run from a set, whatever the window size, the stream stands at a number the set can reach and only skippable datagrams have been passed while buffered |
| `RecoverySlots.SkipRun` | include/qtrader/MoldUdp64Recovery.hpp:54-234 | for every skippable datagram an arrival order that leaves it buffered and passed |
| `RecoverySlots.CanStayIff` | include/qtrader/MoldUdp64Recovery.hpp:54-234 | some arrival order of a fitting set leaves a datagram buffered and passed if and only if the datagram is skippable, a condition on the set alone |
| `RecoverySlots.DisjointLiesAhead` | include/qtrader/MoldUdp64Recovery.hpp:177-190 | when the datagrams do not overlap, between calls every buffered one starts after the next number |
| `RecoveryEnds.CallEnds` | include/qtrader/MoldUdp64Recovery.hpp:81-109 | an end is signalled only where this or an earlier packet announced it, and an announced end is remembered until it is signalled |
| `RecoveryEnds.SignalAnnounced` | include/qtrader/MoldUdp64Recovery.hpp:228-231 | over every run a signalled end is at a number that some packet announced |
| `RecoveryEnds.ReachedEndSignalled` | include/qtrader/MoldUdp64Recovery.hpp:54-234 | once the stream has reached the one announced end, it has been signalled |
| `RecoveryLaws.SameFirstRefused` | include/qtrader/MoldUdp64Recovery.hpp:134-139 | a second datagram under a buffered first number is refused whatever it holds, and nothing is asked for |
| `RecoveryConfluence.NeverFull` | include/qtrader/MoldUdp64Recovery.hpp:140-152 | with no more datagrams than slots an arrival of the set always finds a free slot |
| `RecoveryConfluence.RunIsStream` | include/qtrader/MoldUdp64Recovery.hpp:54-110 | once each datagram of a coherent set has arrived, exactly the stream the set determines has been delivered |
| `RecoveryConfluence.Confluence` | include/qtrader/MoldUdp64Recovery.hpp:54-175 | any two arrival orders of the same datagrams, with repetitions and any control, foreign or malformed packets between, deliver the same messages and expect the same number |
| `RecoveryConfluence.IdentityNeeded` | include/qtrader/MoldUdp64Recovery.hpp:134-139 | an example: with a short and a long datagram under one number beyond the start, the first to arrive decides how far the stream gets |
| `RecoveryOrder.NotBefore` | include/qtrader/MoldUdp64Recovery.hpp:134-190 | no complete run stops before the shortest datagrams end |
| `RecoveryOrder.NotBeyond` | include/qtrader/MoldUdp64Recovery.hpp:177-190 | no run gets further than the set covers |
| `RecoveryOrder.LowRun` | include/qtrader/MoldUdp64Recovery.hpp:54-190 | some complete arrival order gets exactly as far as the shortest datagrams cover |
| `RecoveryOrder.HighRun` | include/qtrader/MoldUdp64Recovery.hpp:54-190 | some complete arrival order gets exactly as far as the whole set covers |
| `RecoveryOrder.OrderIrrelevantIff` | include/qtrader/MoldUdp64Recovery.hpp:54-190 | for datagrams that fit and do not contradict each other, every complete arrival order delivers the same messages if and only if the shortest datagram of each first number beyond the start covers as far as the whole set |
| `RecoveryWindows.FreeSlotIff` | include/qtrader/MoldUdp64Recovery.hpp:140-152 | a free slot exists exactly when fewer datagrams are buffered than there are slots |
| `RecoveryWindows.RecoveryWindow.constructor` | include/qtrader/MoldUdp64Recovery.hpp:250-257 | a new window is empty and knows no session |
| `RecoveryWindows.RecoveryWindow.EarliestFutureSequence` | include/qtrader/MoldUdp64Recovery.hpp:192-205 | the scan computes the nearest known number |
| `RecoveryWindows.RecoveryWindow.IssueRequest` | include/qtrader/MoldUdp64Recovery.hpp:236-248 | at most one request, as on values |
| `RecoveryWindows.RecoveryWindow.Store` | include/qtrader/MoldUdp64Recovery.hpp:127-153 | too large, duplicate first number, buffered or full, in that order, as on values |
| `RecoveryWindows.RecoveryWindow.Process` | include/qtrader/MoldUdp64Recovery.hpp:155-175 | hands on exactly the unseen messages of a packet and moves past it |
| `RecoveryWindows.RecoveryWindow.NextBufferedSlot` | include/qtrader/MoldUdp64Recovery.hpp:177-190 | the scan finds the slot to drain |
| `RecoveryWindows.RecoveryWindow.DrainSlots` | include/qtrader/MoldUdp64Recovery.hpp:211-226 | the loop terminates because each pass frees a slot, and equals draining on values; its two defensive exits are never taken |
| `RecoveryWindows.RecoveryWindow.Drain` | include/qtrader/MoldUdp64Recovery.hpp:207-234 | draining, a due end of session, retiring the gap and asking again, as on values |
| `RecoveryWindows.RecoveryWindow.Ingest` | include/qtrader/MoldUdp64Recovery.hpp:54-110 | status, callbacks in order and new state of one datagram equal those of the window on values, and the window is quiet again |
| `EndToEnd.ChannelIsTransparent` | include/qtrader/MoldUdp64Recovery.hpp:54-110 | whatever order a channel delivers a packetised session in, with whatever repetitions and foreign packets, once each datagram has arrived every message has been handed out in order, once, numbered from one |
| `EndToEnd.NothingStaysBuffered` | include/qtrader/MoldUdp64Recovery.hpp:177-226 | once a packetised session has arrived, every slot has been given back |
| `EndToEnd.BookIsMeaning` | include/qtrader/UftBookMoldFeed.hpp:24-51 | an open feed that began empty at number one and has received a packetised session, in any order and with any repetitions, is faulted exactly when the stream semantics refuses the message list, and otherwise its book, ledger and volume are what the list means |
| `EndToEnd.ClosedBookIsMeaning` | include/qtrader/UftBookMoldFeed.hpp:40-46 | when the closing packet has arrived too, in whatever place, the feed is faulted; it was closed exactly when the stream semantics accepts the message list, and then the book, ledger and volume it leaves are what the list means |
| `EndToEnd.ClosingPacket` | tools/NasdaqMoldUdpLoopback.cpp:219-222 | the closing packet parses as the announcement of an end before the number that would come next |
| `Itch50.WireRoundTrip` | include/qtrader/NasdaqItchUftAdapter.hpp:200-410 | every order and trade message, an add order with or without attribution, is read back from its wire layout by the field positions the handlers use, whatever the other fields |
| `Itch50.MessageSizes` | include/qtrader/NasdaqItch50.hpp:43-70 | the size of each message type is the eleven common bytes and the widths of its fields in the Nasdaq TotalView-ITCH 5.0 format |
| `Itch50.FieldPositions` | include/qtrader/NasdaqItchUftAdapter.hpp:200-410 | the field positions and byte order of all ten handled types, on messages whose bytes count up |
| `Adapter.HandleFine` | include/qtrader/NasdaqItchUftAdapter.hpp:66-93 | every message keeps stored quantities and prices positive and the tables within their limits, and a refused one changes no table and publishes nothing |
| `AdapterLaws.HandleBalanced` | include/qtrader/NasdaqItchUftAdapter.hpp:200-338 | per message, shares opened less shares withdrawn or executed equal the change of the live shares |
| `AdapterLaws.HandleAlternated` | include/qtrader/NasdaqItchUftAdapter.hpp:246-261 | per message and match, a published trade or bust is exactly the change in whether the match is stored as emitted |
| `AdapterLaws.HandleNetted` | include/qtrader/NasdaqItchUftAdapter.hpp:340-409 | per message, the net traded quantity published is the change of the emitted matches' total |
| `AdapterLaws.StreamConserves` | include/qtrader/NasdaqItchUftAdapter.hpp:66-409 | over every stream: opened shares equal withdrawn, executed and live ones; trades less busts of a match are one exactly when it is stored as emitted; net traded quantity equals the emitted matches' total |
| `AdapterAnswers.HandleRight` | include/qtrader/NasdaqItchUftAdapter.hpp:200-409 | every event of every message says what the tables say: an order detail the order now held, a cancel the order before, a trade the match row now stored, a bust the row dropped, and book events the same sides, prices and quantities |
| `AdapterAnswers.ReceiveRight` | include/qtrader/NasdaqItchUftAdapter.hpp:66-93 | another instrument's message does nothing, one of the wrong size is refused, and every other one publishes right events |
| `AdapterAnswers.StreamRight` | include/qtrader/NasdaqItchUftAdapter.hpp:66-93 | over every stream, what each message adds to the published events is right for it |
| `AdapterAnswers.ExecuteVerdict` | include/qtrader/NasdaqItchUftAdapter.hpp:226-252 | exactly when an execution is taken, refused as malformed, or refused for want of room |
| `AdapterAnswers.ExecuteEffect` | include/qtrader/NasdaqItchUftAdapter.hpp:246-267 | the order loses exactly those shares, and a new match is stored at the message's price if it has one, else the order's, with the order's side and id |
| `AdapterAnswers.ExecuteShows` | include/qtrader/NasdaqItchUftAdapter.hpp:253-263 | its trade is published only if printable and new, its book event always |
| `AdapterAnswers.AddEffect` | include/qtrader/NasdaqItchUftAdapter.hpp:200-224 | when an add is taken, and the order it stores |
| `AdapterAnswers.WithdrawEffect` | include/qtrader/NasdaqItchUftAdapter.hpp:269-306 | when a cancel or delete is taken, and the shares it takes from that order only |
| `AdapterAnswers.ReplaceEffect` | include/qtrader/NasdaqItchUftAdapter.hpp:308-338 | when a replacement is taken; it keeps the side |
| `AdapterAnswers.TradeEffect` | include/qtrader/NasdaqItchUftAdapter.hpp:340-387 | when a trade or cross is taken, and the row it stores, once |
| `AdapterAnswers.BrokenEffect` | include/qtrader/NasdaqItchUftAdapter.hpp:389-409 | when a broken trade is taken, and what it drops and publishes |
| `ItchAdapters.NasdaqItchUftAdapter.constructor` | include/qtrader/NasdaqItchUftAdapter.hpp:57-64 | the adapter starts with empty tables of the given sizes |
| `ItchAdapters.NasdaqItchUftAdapter.Lower` | include/qtrader/NasdaqItchUftAdapter.hpp:264-266 | lowering through the found pointer and erasing at zero is subtraction on the order map |
| `ItchAdapters.NasdaqItchUftAdapter.Add` | include/qtrader/NasdaqItchUftAdapter.hpp:200-224 | tables, events and counters of an add message equal those on values |
| `ItchAdapters.NasdaqItchUftAdapter.Execute` | include/qtrader/NasdaqItchUftAdapter.hpp:226-267 | tables, events and counters of an execution equal those on values; a repeated match is not published as a trade again |
| `ItchAdapters.NasdaqItchUftAdapter.CancelPartial` | include/qtrader/NasdaqItchUftAdapter.hpp:269-287 | tables, events and counters of a partial cancel equal those on values |
| `ItchAdapters.NasdaqItchUftAdapter.CancelAll` | include/qtrader/NasdaqItchUftAdapter.hpp:289-306 | tables, events and counters of a delete equal those on values |
| `ItchAdapters.NasdaqItchUftAdapter.Replace` | include/qtrader/NasdaqItchUftAdapter.hpp:308-338 | tables, events and counters of a replace equal those on values; its insertion never fails |
| `ItchAdapters.NasdaqItchUftAdapter.TradeMessage` | include/qtrader/NasdaqItchUftAdapter.hpp:340-387 | tables, events and counters of a trade or cross equal those on values; a repeated match is silent |
| `ItchAdapters.NasdaqItchUftAdapter.BrokenTradeMessage` | include/qtrader/NasdaqItchUftAdapter.hpp:389-409 | tables, events and counters of a broken trade equal those on values |
| `ItchAdapters.NasdaqItchUftAdapter.OnMessage` | include/qtrader/NasdaqItchUftAdapter.hpp:66-93 | locator filter, size check and dispatch: tables, events and counters equal those on values and the tables stay fine |
| `Replicas.ExecuteInStep` | include/qtrader/UftOrderBookPipeline.hpp:140-143 | an execution is refused by adapter or pipeline exactly when the stream semantics refuses it; otherwise both reach the same state and agree again |
| `Replicas.TradeInStep` | include/qtrader/UftOrderBookPipeline.hpp:144 | the same for a trade or cross |
| `Replicas.BrokenInStep` | include/qtrader/UftOrderBookPipeline.hpp:145-154 | the same for a broken trade, which leaves the book alone |
| `Replicas.HandleInStep` | include/qtrader/UftOrderBookPipeline.hpp:126-167 | lock-step for every message type: adapter orders equal the book's orders, adapter matches equal the ledger rows that are not busted, and the volume is the emitted matches' total |
| `StreamAnswers.RawMeans` | include/qtrader/UftOrderBookPipeline.hpp:59-66 | a raw message is refused unless it has the size of its type, and means nothing for another instrument |
| `StreamAnswers.AddMeans` | components/include/qtrader/DensePriceOrderBook.hpp:186-208 | exactly when an add is taken, and the one order it puts last in its queue |
| `StreamAnswers.ExecutionMeans` | include/qtrader/UftOrderBookPipeline.hpp:140-143 | exactly when an execution is taken; the order loses those shares in place or leaves its queue, and the match is entered once and counted when printable |
| `StreamAnswers.WithdrawalMeans` | include/qtrader/UftOrderBookPipeline.hpp:130-135 | exactly when a cancel or delete is taken, and what the order loses |
| `StreamAnswers.ReplacementMeans` | components/include/qtrader/DensePriceOrderBook.hpp:238-256 | exactly when a replacement is taken: same side, new number, last in the queue of its new price |
| `StreamAnswers.TradeMeans` | include/qtrader/UftOrderBookPipeline.hpp:144-167 | exactly when a trade or cross is taken; the book stays as it is |
| `StreamAnswers.BreakMeans` | include/qtrader/UftOrderBookPipeline.hpp:145-154 | exactly when a broken trade is taken; the volume loses what the match had counted and the book stays as it is |
| `Pipelines.GridRange` | include/qtrader/UftOrderBookPipeline.hpp:112-117 | the configured grid holds exactly the multiples of the tick in the price range |
| `Pipelines.GeometryFits` | include/qtrader/UftOrderBookPipeline.hpp:112-117 | on every accepted grid the level offsets, level prices and the offset of every price at or above the minimum fit 64 bits, and the level count does not wrap the bitmap words |
| `Pipelines.Configure` | include/qtrader/UftOrderBookPipeline.hpp:24-35 | a pipeline is built exactly for a valid configuration: live, not started, empty, with the given session, first number, capacities and locator, on exactly the configured prices |
| `Pipelines.UftOrderBookPipeline.Start` | include/qtrader/UftOrderBookPipeline.hpp:37-43 | a pipeline starts once |
| `Pipelines.UftOrderBookPipeline.Record` | include/qtrader/UftOrderBookPipeline.hpp:160-167 | a match enters ledger and volume once; refused when busted, overflowing or full; the volume stays the sum over the ledger |
| `Pipelines.UftOrderBookPipeline.Bust` | include/qtrader/UftOrderBookPipeline.hpp:145-154 | a bust marks the row and takes it out of the volume, without underflow |
| `Pipelines.UftOrderBookPipeline.Mutate` | include/qtrader/UftOrderBookPipeline.hpp:130-139 | the book part of each action succeeds exactly as on values |
| `Pipelines.UftOrderBookPipeline.Apply` | include/qtrader/UftOrderBookPipeline.hpp:126-159 | an update moves the replica by its meaning or faults the pipeline; the volume is always the sum of printable rows that are not busted |
| `Pipelines.UftOrderBookPipeline.Settle` | include/qtrader/UftOrderBookPipeline.hpp:64-71 | after the cross-check the pipeline is faulted exactly when the adapter refused, an update failed or the order counts differ |
| `Pipelines.UftOrderBookPipeline.Consume` | include/qtrader/UftOrderBookPipeline.hpp:61-75 | a message faults the pipeline exactly when the stream semantics refuses it, so the count check never fails on its own; otherwise the replica moves by the meaning |
| `Pipelines.UftOrderBookPipeline.Accept` | include/qtrader/UftOrderBookPipeline.hpp:59-86 | the expected message: exact result, state, next number and strategy call |
| `Pipelines.UftOrderBookPipeline.Ingest` | include/qtrader/UftOrderBookPipeline.hpp:48-87 | answer by start, fault, session and number; applied messages extend the replayed history; the exact strategy call: when live, for a book event or a completed recovery |
| `Pipelines.UftOrderBookPipeline.NoteGap` | include/qtrader/UftOrderBookPipeline.hpp:91-95 | a reported gap makes the pipeline recover up to the highest number, unless faulted or already past it |
| `Pipelines.UftOrderBookPipeline.Invalidate` | include/qtrader/UftOrderBookPipeline.hpp:96 | faults the pipeline |
| `Pipelines.UftOrderBookPipeline.VolumeIsNetTraded` | include/qtrader/UftOrderBookPipeline.hpp:148-166 | while not faulted: the volume equals trades less busts published and the sum over the ledger, adapter and book hold the same orders, and the state is the replay of exactly the applied messages |
| `ReplicaLaws.ReplayFeasible` | include/qtrader/UftOrderBookPipeline.hpp:48-87 | every book an accepted stream reaches is well-formed, on the grid, within capacity and of 32-bit quantities |
| `ReplicaLaws.LevelTotalsFit` | include/qtrader/UftOrderBookPipeline.hpp:108-111 | with the accepted order capacities the 64-bit level totals never wrap |
| `ReplicaLaws.ExactLevelQuantity` | components/include/qtrader/DensePriceOrderBook.hpp:355-360 | in a pipeline that is not faulted the 64-bit level quantity is the exact sum over the level's queue |
| `ReplicaLaws.FeedMayCross` | tests/UftOrderBookPipelineTest.cpp:86-88 | an example: a bid at 20 and an ask at 10 cross the feed's book |
| `ReplicaLaws.FollowCrossesIff` | include/qtrader/UftOrderBookPipeline.hpp:126-167 | an accepted message leaves an uncrossed book uncrossed if and only if it is not an add or replace whose price reaches the best opposite price of the book it is added to |
| `ReplicaLaws.ReplayUncrossed` | include/qtrader/UftOrderBookPipeline.hpp:48-87 | a stream none of whose messages crosses on its way never leaves a crossed book |
| `FeedStories.IngestRunsOn` | include/qtrader/MoldUdp64Recovery.hpp:155-175 | one call of the window delivers exactly the numbers it moves past, in order, before any other callback |
| `MoldFeeds.UftBookMoldFeed.constructor` | include/qtrader/UftBookMoldFeed.hpp:11-22 | the window is primed at the pipeline's own boundary and nothing has been told yet |
| `MoldFeeds.UftBookMoldFeed.Relay` | include/qtrader/UftBookMoldFeed.hpp:40-46 | unless it was faulted or never started, the pipeline applies exactly the messages of the log and holds what they mean, whether or not an end of session follows; it is then faulted exactly by that end or by a message the stream semantics refuses; a recovered message is never answered as a gap or a duplicate; the requests are those of the log in order |
| `MoldFeeds.UftBookMoldFeed.Announce` | include/qtrader/UftBookMoldFeed.hpp:34-39 | a header ahead of the pipeline announces every number before its end |
| `MoldFeeds.UftBookMoldFeed.Ingest` | include/qtrader/UftBookMoldFeed.hpp:24-51 | status, requests and window are those of the recovery window; between calls the window is where the run over all its datagrams leaves it; while the feed is open the pipeline is faulted exactly when the stream semantics refuses what that run delivered, and otherwise holds it; once closed it holds what was delivered until then; the strategy is called only once every announced number has been applied |
| `FeedStories.ExplainedStep` | include/qtrader/UftBookMoldFeed.hpp:40-51 | what a pipeline holds, why it is faulted and what it held when it was closed stay explained by the delivered messages over one more log |
| `FeedStories.EndsToldStep` | include/qtrader/UftBookMoldFeed.hpp:40-46 | a feed is closed only at a number some packet announced as the end, and an open one has met no end unless its messages were refused |
| `FeedStories.CloggedFaults` | include/qtrader/UftBookMoldFeed.hpp:47-49 | when every slot holds a passed datagram, a data packet ahead of the stream is a transport fault, which invalidates the pipeline |
| `MoldFeeds.OrderNeverShows` | include/qtrader/UftBookMoldFeed.hpp:24-51 | two open feeds that began alike and received all of one coherent set, in any orders and with any repetitions, are both faulted or neither, and then hold the same book, ledger, volume and next number |
| `Spsc.SlotsApart` | components/include/qtrader/SpscRing.hpp:25-30 | items fewer than a capacity apart never share a slot |
| `Spsc.GivesUpIff` | components/include/qtrader/SpscRing.hpp:22-39 | a push gives up exactly when capacity minus one items are unread at its load, a pop exactly when none is |
| `Spsc.StepKeeps` | components/include/qtrader/SpscRing.hpp:22-46 | every atomic step of either side keeps at most capacity minus one items in flight, all intact, and the popped ones the first of the pushed ones |
| `Spsc.EveryInterleavingIsFifo` | components/include/qtrader/SpscRing.hpp:22-46 | under every interleaving the popped items are a prefix of the pushed ones, untorn, even when each side acts on a stale counter |
| `ShmRing.AccountsIff` | components/include/qtrader/ShmRingProtocol.hpp:139-178 | one read accounts for every number it passes if and only if the slot's number was not rewound under the copy |
| `ShmRing.WriterNeverRewinds` | components/include/qtrader/ShmRingProtocol.hpp:113-119 | a writer with increasing numbers never looks as if it had rewound a slot, at whatever moments the reader's loads happen |
| `ShmRing.FollowAccounts` | components/include/qtrader/ShmRingProtocol.hpp:126-178 | against any writer with increasing numbers, even one that overruns the reader, next minus start equals delivered plus dropped and the delivered numbers strictly increase; what may be dropped is said by the laws on a writer without gaps |
| `ShmRing.RewoundExample` | components/include/qtrader/ShmRingProtocol.hpp:169-174 | a writer whose numbers step back can make a reader see a rewound slot, and that breaks the accounting |
| `ShmDrops.CatchUpSkips` | components/include/qtrader/ShmRingProtocol.hpp:147-153 | the catch-up skips and counts exactly the numbers no longer in the ring |
| `ShmDrops.UndisturbedRead` | components/include/qtrader/ShmRingProtocol.hpp:139-178 | a call during which nothing is stamped delivers the least number still in the ring and drops exactly the smaller ones, or waits for a writer that began later |
| `ShmDrops.DropsIntactIff` | components/include/qtrader/ShmRingProtocol.hpp:155-174 | at whatever moments the loads happen, the exact condition under which a call drops numbers that are still in the ring |
| `ShmDrops.OverrunExample` | components/include/qtrader/ShmRingProtocol.hpp:157-163 | an example: one number stamped between the loads makes the reader drop 8191 numbers that are still there |
| `ShmDrops.AttachStarts` | components/include/qtrader/ShmRingProtocol.hpp:126-132 | attaching at the latest number waits for the next, attaching at the oldest starts exactly where the ring does |
| `ShmDrops.IdleWriterDrains` | components/include/qtrader/ShmRingProtocol.hpp:139-178 | while the writer rests, successive calls deliver the whole rest of the ring in order |
| `Level2.WriterKeeps` | src/Level2Pipeline.cpp:277-286 | the publishing loop keeps the hand-off invariant: it fills in its own item and leaves every number not yet confirmed intact in its slot |
| `Level2.ReadKeeps` | components/include/qtrader/ShmRingProtocol.hpp:155-177 | the slot the reader checks, copies and rechecks holds the number and the words it wants throughout |
| `Level2.PiecesAreTryRead` | components/include/qtrader/ShmRingProtocol.hpp:139-178 | polling, checking and rechecking in three different states move the reader exactly as one try_read on what these loads see |
| `Level2.AttachKeeps` | src/Level2Pipeline.cpp:252-253 | the reader may attach before, between or after the first publications; no more than the wait allows have been published by then, so it starts at number zero |
| `Level2.PollKeeps` | components/include/qtrader/ShmRingProtocol.hpp:144-153 | the reader never skips |
| `Level2.PushKeeps` | src/Level2Pipeline.cpp:269 | the ring is sent exactly the items of the source in order |
| `Level2.StepKeeps` | src/Level2Pipeline.cpp:230-291 | every step of the three threads keeps the hand-off invariant |
| `Level2.BookReceivesSource` | src/Level2Pipeline.cpp:230-291 | under every interleaving, whenever the reader attaches, it drops nothing, sees no torn item, and the book thread has received exactly the first items of the source; all of them at the end |
| `Level2.NeverStuck` | src/Level2Pipeline.cpp:230-291 | until the book thread has everything, some thread can take a step that changes the state |
| `Level2Progress.MeasureDrops` | src/Level2Pipeline.cpp:230-291 | every step of any thread that changes the state brings the end one step nearer |
| `Level2Progress.EffectiveCounts` | src/Level2Pipeline.cpp:230-291 | over every schedule the effective steps and what is then left add up to what was left before |
| `Level2Progress.EffectiveRunsDeliver` | src/Level2Pipeline.cpp:230-291 | no livelock: a run takes at most as many effective steps as are left, and one that takes them all has delivered the whole source |
| `Level2Progress.Finishes` | src/Level2Pipeline.cpp:230-291 | from every reachable state some schedule of effective steps delivers the whole source |
| `Level2.TornRun` | components/include/qtrader/ShmRingProtocol.hpp:113-178 | with any looser wait a concrete run from the start passes both stamp checks on an item that mixes two writes |
| `Level2.WaitExact` | src/Level2Pipeline.cpp:279-280 | no run of any source hands on a torn item if and only if the wait lets the writer be at most a capacity past the confirmed count |
| `Level2.LoopIsIntact` | src/Level2Pipeline.cpp:279-280 | the loop's own bound is safe with exactly one number to spare |

## Left out

- The reference book's linked nodes: its level queues are sequences of ids, so its pointer links and free list are not modelled; the dense book's are.
- The write-only `state` field of book nodes; the states appear in the order updates.
- Bitmap words are natural numbers below 2^64 with bit operations defined by halving; masking by a power of two minus one is written as a remainder or as wrapping at the capacity.
- Hash functions are arbitrary parameters; the concrete mixing constants are not modelled.
- Sinks, callbacks and engines: what a call publishes is returned as an ordered log. The adapter publishes at most one book event per message, so the pipeline applies it after the handler instead of inside it; the recovery window's callbacks reach the pipeline after the window's call instead of during it. Neither touches the other's state.
- DenseBooks.DensePriceOrderBook.LevelQuantity: totals are kept as unbounded numbers and reduced modulo 2^64 when read; the stored 64-bit field is not itself modelled. ReplicaLaws.LevelTotalsFit shows where the reduction changes nothing.
- FixedOrderIndexes.FixedOrderIndex.Erase: requires fewer live keys than entries; on a full table the original scan would not end, which its capacity of four times the orders excludes.
- DenseBooks.DensePriceOrderBook.Match: the nested loops are split into one method per loop and one per fill.
- Event time stamps, instrument ids and source-sequence stamps on published events; only the sequence used as the transaction id of a cancel is kept.
- Statistics counters other than the three error counters the pipeline inspects; counters and the adapter's source sequence are unbounded.
- Delivery failures of the in-process engine: a started pipeline always delivers a book event to its one registered book.
- ItchAdapters.NasdaqItchUftAdapter.constructor: takes table sizes for which the tables can be built; Pipelines.Configure models the exceptions.
- FixedHashTables.FixedHashTable.constructor: takes a size for which the table can be built; FixedHashTables.RoundedCapacity says which sizes throw.
- DenseBooks.DensePriceOrderBook.constructor: takes fewer than 2^32 - 1 orders, as node indices are 32-bit with the largest one reserved, and at most 2^32 - 64 levels, as the word count of the original wraps to zero for the other 63 counts and its bitmaps are then too small; no caller passes those (Pipelines.GeometryFits).
- DenseBooks.PriceIndex: prices and offsets are unbounded numbers; an offset that leaves 64 bits is undefined in the original. DenseBooks.OffsetFitsIff says for which minimum none does, and Pipelines.GeometryFits that no accepted grid has one.
- MoldFeeds.UftBookMoldFeed.constructor: takes a ten-byte session equal to the pipeline's; otherwise the original throws.
- Pipelines.UftOrderBookPipeline.Start: the strategy pointer and callback are taken to be present.
- Null message and packet pointers, error strings, and the re-entrancy guard of `ingest`: callbacks do not call back.
- Packetisers.Packetiser.Add: takes messages of at most 65535 bytes, which the 16-bit length of the record being framed already implies.
- Spsc: the ring is a state machine over atomic steps, not a class; the policy wrapper `push` around `try_push` is not modelled.
- ShmRing.FollowAccounts: the reader's counters are unbounded; payload words, epochs and `restarted` are not part of it.
- Level2.BookReceivesSource: order events are taken as the item words themselves; paced mode, time stamps and the book behind the consumer are not part of it. Data races on plain words are modelled as interleaved word copies.
- Sockets, files, mapping, latency measurement, the order lifecycle, the WonderTrader and PSX integrations, message names and the generic market-data engine.
