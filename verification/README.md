# A verified model of the trading, container and benchmark snippets

The repository is a collection of self-contained programs. This project models the ones that hold
a real algorithm or protocol and proves what they are for. The cores are independent; each has its
own modules.

| core | files | what is proved about it |
|---|---|---|
| treap map | `Treap`, `TreapHistory`, `TreapMap` | nodes relinked in place compute pure functions that keep search and heap order and refine a map; nothing leaks; the shape is independent of the history exactly when ties are parted |
| Brainfuck | `BrainFuck`, `FlatCode`, `BrainFuckMachine`, `BrainFuckPrograms` | the jump table exists exactly for balanced texts; the flat machine does what the tree of while loops means, for every number of steps; what loops, moves, white space and printing programs come to, for every input |
| SPSC rings | `Wrapping`, `Spsc` | FIFO, capacity, no slot race and exact sizes under every interleaving with stale loads |
| pipeline | `Pipeline` | per-symbol order, provenance from the quotes drawn, and conservation under every schedule with drops at every queue; everything on the way can always be sent |
| order protocol | `Framing`, `Sockets`, `Wire`, `Oms`, `OrderFlow`, `OrderLink` | frames survive any chunking and any partial sends; every order is answered once, in order, and filled exactly once, in the protocol and in the two classes that run it, down to the bytes on the wire and the updates offered |
| order book | `BookSync` | the local book equals the exchange's at `last_update_id` although the first update overlaps the snapshot, and a pass reads exactly as far as the stream fits |
| statistics | `Words`, `Variance`, `RollingStats` | when the wrapping integer variance is right and what its checks see, exactly; the running update; the two agree |
| benchmark kernels | `PointerChase`, `LoopOrder`, `LockCounter` | the chase is one cycle, and when it adds up to what the sequential walk does, exactly; rows and columns sum alike; no increment under the mutex is lost |
| vector | `Vector` | refinement of a sequence, one owner for every block, amortised growth, a total order |
| numbers as text | `Decimal` | saturating reading against the positional value of the digits; printing, digit by digit, and commas round trip |
| allocator churn | `Churn` | which block is freed when, each once and only while live; exact live counts and peak |

`Basics` holds what several modules share.

How the model is built. A class with mutable fields in the source is a class here, with the loops of
the source, and its methods are proved to compute functions on values; the laws are lemmas about
those functions. Threads are step systems: a run is any interleaving of steps of the threads, and the
main results hold for every run. Random priorities, clock readings, hash values, shuffles and the cut
points of the network are parameters, so that the results hold for all of them.

Where a promise fails the model says when, and a concrete input shows it:

- Two treap keys of equal priority with nothing higher between them show the order in which they were
  inserted (`TreapHistory.TieShowsHistory`), and erasing a fresh key then need not give the old tree
  back (`TreapHistory.TieBreaksUndo`). `TreapHistory.HistoryIndependentExactly` and `TreapHistory.EraseUndoesInsert` give the exact
  conditions.
- A push can return false on an empty ring, if it still sees an old `tail_` (`Spsc.StalePushFails`); with an
  up-to-date load it does so exactly when the ring is full (`Spsc.StepRefinesQueue`).
- The overflow checks of `var_calc` do not catch every overflow (`Variance.OverflowCanGoUnseen`);
  `Variance.RightExactlyWhen` gives the condition for every input, and `Variance.NeverTooLarge` shows
  in which direction it errs.
- `pack_with_length` casts the length to 32 bits; `Framing.PackRoundTrip` shows that a payload comes
  back exactly when it is below 4 GiB.
- The comment in rust_cpp/src/main.rs says that the bridge stops at the first advancing update; the
  code stops after its first message. `BookSync.StaleFirstMessage` shows it on a stale message, over
  which the bridge of rust_cpp/md4.cpp goes on waiting. The book is the exchange's in either case.
- The step count n * iters of the pointer chase can wrap. `PointerChase.RunPtr` says exactly when the
  two variants still return the same. That the count fits a word is sufficient
  (`PointerChase.WrappedStepsDiffer` shows that it matters) but not exact: a single element adds
  nothing however often it is visited (`PointerChase.OneElementAgrees`).
- others/brain_fuck.cpp has a case for `,` in its switch, but `,` is not among its keywords, so it ends
  the run as an invalid program, as in the model.

## Model

| member | source | states |
|---|---|---|
| `Treap.RotateRightKeys` | treap/treap.hpp:126-131 | a right rotation keeps the keys and the search order |
| `Treap.RotateLeftKeys` | treap/treap.hpp:119-124 | a left rotation keeps the keys and the search order |
| `Treap.InsertKeys` | treap/treap.hpp:133-157 | insertion keeps the search order and adds exactly its key |
| `Treap.MergeKeys` | treap/treap.hpp:177-192 | merging two trees with all keys of the first below those of the second keeps the search order and all keys |
| `Treap.EraseKeys` | treap/treap.hpp:159-175 | erasure keeps the search order and removes exactly its key |
| `Treap.FindKeys` | treap/treap.hpp:77-91 | the search finds exactly the keys of the tree |
| `Treap.InsertFind` | treap/treap.hpp:133-157 | after an insertion every other key is found as before; its own has the new value if it was fresh or assigned, and an old key keeps its priority |
| `Treap.EraseFind` | treap/treap.hpp:159-175 | after an erasure its key is gone and every other is found as before |
| `Treap.InsertHeapOrdered` | treap/treap.hpp:140-149 | the max-heap order is kept, with the strengthening that only the new node can stand above the old root |
| `Treap.MergeHeapOrdered` | treap/treap.hpp:177-192 | merging keeps the heap order, with the higher of the two root priorities on top |
| `Treap.EraseHeapOrdered` | treap/treap.hpp:159-175 | erasure keeps the heap order and never raises the root priority |
| `TreapHistory.ApplyRefinesMap` | treap/treap.hpp:46-73 | each operation keeps both orders and does to the entries what it does to a mathematical map |
| `TreapHistory.RunRefinesMap` | treap/treap.hpp:46-73 | the same over every sequence of operations |
| `TreapHistory.TreapIsUnique` | treap/treap.hpp:10-12 | entries in which equal priorities are parted by a higher one between them determine the tree |
| `TreapHistory.PreorderRebuilds` | treap/treap.hpp:133-157 | every treap is reached by some sequence of insertions |
| `TreapHistory.HistoryIndependentExactly` | treap/treap.hpp:119-192 | all histories that end with the same entries end with the same tree if and only if equal priorities are parted |
| `TreapHistory.TieShowsHistory` | treap/treap.hpp:140-149 | two equal priorities side by side: inserting in the other order gives another tree with the same entries |
| `TreapHistory.InsertSplits` | treap/treap.hpp:140-149 | a fresh node above the root ends up over the two halves of the tree cut at its key |
| `TreapHistory.MergeSplit` | treap/treap.hpp:177-192 | merging the two halves gives the tree back if and only if no tie lies across the cut |
| `TreapHistory.EraseUndoesInsert` | treap/treap.hpp:133-192 | erasing a fresh insertion restores the same tree if and only if no tie lies across its search path below its place |
| `TreapHistory.TieBreaksUndo` | treap/treap.hpp:185-191 | a tree with a tie across the path, on which inserting and erasing a key swaps the two tied keys |
| `TreapHistory.EraseUndoesInsertWhenDistinct` | treap/treap.hpp:133-192 | in particular it does when priorities are pairwise distinct |
| `TreapMap.RotateLeftInPlace` | treap/treap.hpp:119-124 | relinking computes the rotation over the same nodes |
| `TreapMap.RotateRightInPlace` | treap/treap.hpp:126-131 | relinking computes the rotation over the same nodes |
| `TreapMap.InsertInPlace` | treap/treap.hpp:133-157 | the recursion over pointers computes the insertion, reports exactly whether the key was absent, and owns the old nodes and the ones it allocated |
| `TreapMap.MergeInPlace` | treap/treap.hpp:177-192 | the recursion over pointers computes the merge over the union of the nodes |
| `TreapMap.EraseInPlace` | treap/treap.hpp:159-175 | the recursion over pointers computes the erasure, reports exactly whether the key was present, and deletes just the node it unlinked, once |
| `TreapMap.DestroySubtree` | treap/treap.hpp:194-201 | every node of the subtree is deleted exactly once |
| `TreapMap.Map.Insert` | treap/treap.hpp:46-64 | the map after `insert` or `insert_or_assign`; the returned flag is exact, `size_` is the key count, both orders hold, and the live nodes outside the map are untouched |
| `TreapMap.Map.Erase` | treap/treap.hpp:66-73 | the map without the key; exact flag, size and ownership |
| `TreapMap.Map.FindNode` | treap/treap.hpp:75-91 | a node of the map exactly when the key is present, holding its entry |
| `TreapMap.Map.Clear` | treap/treap.hpp:93-97 | the map is empty and exactly its nodes have been freed |
| `TreapMap.Map.Move` | treap/treap.hpp:22-27 | the new map takes tree and nodes, the other is empty |
| `TreapMap.Map.MoveFrom` | treap/treap.hpp:29-41 | the old nodes are freed, the others change owner, and assigning a map to itself does nothing |
| `BrainFuck.MatchIsUnique` | others/brain_fuck.cpp:25-26 | a bracket has at most one partner with balanced text between |
| `BrainFuck.MatchesDoNotCross` | others/brain_fuck.cpp:17-29 | pairs of brackets are nested or apart |
| `BrainFuck.ScanClose` | others/brain_fuck.cpp:22-28 | at a closing bracket the stack is empty only if the text is unbalanced; otherwise its top is the partner |
| `BrainFuck.PrepareJumpTable` | others/brain_fuck.cpp:13-32 | true exactly for balanced texts; then the two maps are inverse bijections between the brackets and their partners |
| `FlatCode.RenderIsInjective` | others/brain_fuck.cpp:13-32 | a text is the text of at most one program tree |
| `FlatCode.FlatRunsTree` | others/brain_fuck.cpp:53-103 | the machine passes the text of a subtree exactly as the subtree is run, wherever it stands |
| `FlatCode.FlatRunsLoop` | others/brain_fuck.cpp:90-95 | on either bracket of a loop the machine makes the loop's test |
| `FlatCode.FlatIsStructured` | others/brain_fuck.cpp:53-103 | machine and structured while semantics agree on status and state for every program and number of steps |
| `FlatCode.MoreSteps` | others/brain_fuck.cpp:53-103 | the bound on steps only cuts runs short: a run that ends does so alike under every larger bound |
| `BrainFuckMachine.RunCode` | others/brain_fuck.cpp:53-103 | the loop over `ip`, `dp` and the memory computes the flat machine; every access is inside the memory, and the pointer is outside exactly when a move has stopped the run |
| `BrainFuckMachine.Interpreter` | others/brain_fuck.cpp:40-105 | an unbalanced text is refused with no output; any other leaves memory, pointer, output and status of its tree's meaning |
| `BrainFuckMachine.ResultIsStable` | others/brain_fuck.cpp:40-105 | a program that stops on its own has one result |
| `BrainFuckPrograms.ClearLoop` | others/brain_fuck.cpp:65-95 | for every cell value the text `[-]` clears the cell in the expected number of steps |
| `BrainFuckPrograms.ClearByWrapping` | others/brain_fuck.cpp:65-95 | so does `[+]`, as a `char` wraps around |
| `BrainFuckPrograms.TransferLoop` | others/brain_fuck.cpp:65-95 | `[->+<]` adds any cell to its right neighbour modulo 256 and clears it, in five steps a unit; `[-<+>]` does so to the left |
| `BrainFuckPrograms.Moves` | others/brain_fuck.cpp:71-86 | n moves right and m left: past cell 29999 the run overflows, below cell 0 it underflows, otherwise it ends at n - m over zeros |
| `BrainFuckPrograms.AnyOutput` | others/brain_fuck.cpp:87-89 | for every sequence of bytes, the program that sets a cell to each and prints it ends with exactly these bytes as output |
| `BrainFuckPrograms.NothingIsUnprinted` | others/brain_fuck.cpp:87-89 | the output at any moment of any program is a prefix of the output at any later one |
| `BrainFuckPrograms.WhiteSpaceIsIgnored` | others/brain_fuck.cpp:34-57 | any program without its spaces, tabs and newlines ends with the same status and store |
| `BrainFuckPrograms.OthersAreInvalid` | others/brain_fuck.cpp:58-62 | any other character stops the run where it is met and changes nothing |
| `BrainFuckPrograms.CleanIsValid` | others/brain_fuck.cpp:58-62 | a program of commands, brackets and white space is never called invalid |
| `Wrapping.AssertionMeansPower` | frame_work/src/spsc_queue.h:11-11 | the static assertion admits exactly the powers of two among positive capacities |
| `Wrapping.MaskWraps` | frame_work/src/spsc_queue.h:15-15 | the mask subtracts the capacity once, for every power of two |
| `Wrapping.SizeFormulas` | frame_work/src/spsc_queue.h:34-38 | the masked and the two-case size formula are both the number of items between two indices |
| `Spsc.StepKeepsInv` | frame_work/src/spsc_queue.h:13-32 | every separate load, slot access and store, with any admissible stale index, keeps the invariant |
| `Spsc.FifoSafety` | frame_work/src/spsc_queue.h:13-32 | in every run the popped items are the first arguments of the pushes that published, as many as pops have returned one, and at most capacity - 1 are waiting; all read off the events alone |
| `Spsc.SlotsAreInRange` | frame_work/src/spsc_queue.h:19-29 | no step of any run touches a slot outside the buffer |
| `Spsc.SlotsDoNotRace` | hft_test/include/spsc_ring.h:19-38 | producer and consumer never touch the same slot at once, and each has seen the other be done with the slot it touches |
| `Spsc.SizesAreExact` | hft_test/include/spsc_ring.h:40-45 | both size formulas count the queued items when no step falls between their loads |
| `Spsc.StepRefinesQueue` | frame_work/src/spsc_queue.h:13-32 | after any run each step is a step of an atomic bounded queue or none: a store to `head_` enqueues the argument of the last push begun, a store to `tail_` gives the front to the pop; with an up-to-date load a push fails exactly when the queue is full and a pop exactly when it is empty |
| `Spsc.PushCompletes` | frame_work/src/spsc_queue.h:13-22 | whatever the consumer is in the middle of, an idle producer that has room can push any item to the end |
| `Spsc.PopCompletes` | frame_work/src/spsc_queue.h:24-32 | an idle consumer can pop the front whenever there is one |
| `Spsc.StalePushFails` | frame_work/src/spsc_queue.h:16-18 | a push that still sees an old `tail_` fails on an empty ring |
| `Spsc.SpscQueue.Push` | frame_work/src/spsc_queue.h:13-22 | one call alone: false exactly when capacity - 1 items are queued, else the item joins at the end |
| `Spsc.SpscQueue.Pop` | frame_work/src/spsc_queue.h:24-32 | one call alone: false exactly when empty, else the oldest item |
| `Spsc.SpscQueue.Size` | frame_work/src/spsc_queue.h:34-38 | the number of queued items |
| `Spsc.SpscQueue.RingSize` | hft_test/include/spsc_ring.h:40-45 | the number of queued items by the other formula |
| `Pipeline.HashConfig` | frame_work/src/feed_handler.cpp:37-39 | whatever the hash, the shard of a symbol is its hash modulo the number of shards, and exists |
| `Pipeline.ShardsByHash` | frame_work/src/feed_handler.cpp:24-39 | in every run shard i holds only items of symbols whose hash is i modulo the number of shards |
| `Pipeline.StepKeepsProvenance` | frame_work/src/strategy_shard.cpp:19-34 | every decision and order on the way is what the strategy makes of an event of the feed, in the shard of its symbol |
| `Pipeline.StepConserves` | frame_work/src/oms_risk.cpp:17-39 | no step loses or doubles an item without counting it |
| `Pipeline.StepKeepsOrder` | frame_work/src/oms_risk.cpp:17-39 | no step disturbs the order of a symbol's items on the way from feed to sink, merge of shards included |
| `Pipeline.SentInOrder` | frame_work/src/trade_io.cpp:13-23 | in every run the sequence numbers sent for a symbol strictly increase |
| `Pipeline.SentComesFromFeed` | frame_work/src/strategy_shard.cpp:26-29 | every order sent answers one quote of the schedule: number i is of symbol i mod n with sequence number i / n + 1, bought exactly on even numbers, a twentieth below the middle of that quote, else sold as much above it, with size 0.4 |
| `Pipeline.FeedIsRoundRobin` | frame_work/src/feed_handler.cpp:18-35 | for distinct symbols the events go round the list and number each symbol's events from 1 without a gap |
| `Pipeline.FeedMakes` | frame_work/src/feed_handler.cpp:18-35 | event number i has symbol i mod n, sequence number i / n + 1, the i-th quote drawn and size 0.5; nothing else in the schedule matters |
| `Pipeline.EventsAreConserved` | frame_work/src/main.cpp:30-45 | quotes drawn = pushes refused + risk-rejected + queued or held + orders taken by the sink, in every run |
| `Pipeline.QueuesStayBounded` | frame_work/src/types.h:42-45 | no queue ever holds more than 1023 items, and each can take one as long as it holds fewer |
| `Pipeline.EverythingCanBeSent` | frame_work/src/main.cpp:30-45 | any run can be continued without a refusal until everything on the way has reached the sink; then an order has been sent for every quote but those refused before |
| `Pipeline.RiskNeverRejects` | frame_work/src/oms_risk.cpp:41-43 | with the size the feed sends, the risk check never rejects |
| `Pipeline.RejectedSizes` | frame_work/src/oms_risk.cpp:41-43 | the check would reject exactly what is made of events larger than 1.875 |
| `Framing.NetworkOrder` | hft_test/include/protocol.h:50-51 | the prefix holds the length most significant byte first |
| `Framing.LengthRoundTrip` | hft_test/include/protocol.h:50-51 | the big-endian length prefix reads back |
| `Framing.UnpackFrame` | hft_test/include/protocol.h:56-65 | true exactly when a whole frame stands at the offset; then it delivers that payload and the offset grows past it, else nothing changes |
| `Framing.ParseInTwo` | hft_test/src/hft_main.cpp:354-377 | parsing the first part, then the residue with the rest, is parsing the whole |
| `Framing.ChunkingIsIrrelevant` | hft_test/src/simex_server.cpp:69-94 | for every cut into chunks the append, unpack and erase loop delivers the payloads of the whole stream and keeps only an incomplete frame |
| `Framing.PackRoundTrip` | hft_test/include/protocol.h:48-54 | a packed payload is unpacked again if and only if it is below 4 GiB |
| `Framing.ParsePrefix` | hft_test/include/protocol.h:56-65 | any prefix of a stream of frames yields a prefix of the payloads; what is left and what is to come make up the others |
| `Framing.FramesRoundTrip` | hft_test/include/protocol.h:48-65 | exactly the payloads packed are recovered |
| `Wire.OrderRoundTrip` | hft_test/include/protocol.h:21-32 | a new-order record passes the size, magic and type checks and decodes to itself |
| `Wire.ReportRoundTrip` | hft_test/include/protocol.h:34-46 | the same for an execution report |
| `Wire.OrderLayout` | hft_test/include/protocol.h:15-32 | a new order on the wire is, field after field, the header 1C A1 01 with zeros, both ids, side, type and time in force with zeros, then price, quantity and time in two's complement |
| `Wire.ReportLayout` | hft_test/include/protocol.h:15-46 | the same for a report, with header 1C A1 02 and a zero reason at the end |
| `Wire.LittleEndianByte` | hft_test/include/protocol.h:21-46 | byte j of a word is the word divided by 256^j, modulo 256 |
| `Wire.RefusedExactly` | hft_test/src/hft_main.cpp:358-361 | a payload is refused if and only if it is too short or its first three bytes are not those of the record |
| `Sockets.Socket.SendAll` | hft_test/src/simex_server.cpp:116-125 | however few bytes each call to `send` takes, and however often a call is interrupted or would block, exactly the frame is written, once |
| `Oms.OmsEngine.SendNewOrder` | hft_test/src/hft_main.cpp:319-333 | the id is issued and advanced, the table holds the new order unfilled, and its frame is written |
| `Oms.OmsEngine.ParseExecReports` | hft_test/src/hft_main.cpp:354-377 | exactly the complete frames are consumed; for each valid report in turn the strategy is offered an update with its ids, type, price and quantity, stamped by the clock, and the table is settled; reports on unknown orders change nothing |
| `Oms.SettledOrder` | hft_test/src/hft_main.cpp:371-374 | after any reports at all, each order of the table shows the sum of the quantities reported on it and the type of the last report on it; nothing else changes |
| `Oms.OmsEngine.HandleChunk` | hft_test/src/hft_main.cpp:335-352 | the same for the residue with a newly received chunk |
| `Oms.SimExServer.SendReport` | hft_test/src/simex_server.cpp:104-126 | what is appended to the stream is one complete frame and nothing else, and a receiver decodes it to the report with the order's ids and the given type, price and quantity |
| `Oms.SimExServer.HandleNewOrder` | hft_test/src/simex_server.cpp:96-102 | an Ack with nothing filled, then a Fill of the order's price and quantity |
| `Oms.SimExServer.ParseMessages` | hft_test/src/simex_server.cpp:83-94 | exactly the complete frames are consumed and the valid orders among them answered in order |
| `Oms.SimExServer.HandleChunk` | hft_test/src/simex_server.cpp:65-81 | the same for the residue with a newly received chunk |
| `OrderFlow.OrdersArrive` | hft_test/src/simex_server.cpp:83-94 | bytes received so far decode to a prefix of the orders sent |
| `OrderFlow.AnswersAre` | hft_test/src/simex_server.cpp:96-102 | the i-th order is answered by an Ack with nothing filled and a Fill of its price and quantity, with its ids and its own clock readings |
| `OrderFlow.SettleRun` | hft_test/src/hft_main.cpp:371-374 | parsing any run of reports leaves the table that the number of reports determines |
| `OrderFlow.StepKeepsInv` | hft_test/src/hft_main.cpp:310-377 | sends, deliveries of any chunk and parses keep the protocol invariant |
| `OrderFlow.IdsAreUnique` | hft_test/src/hft_main.cpp:321-321 | no identifier is issued twice within 2^64 - 1 orders |
| `OrderFlow.AnsweredInOrder` | hft_test/src/simex_server.cpp:96-102 | in every reachable state the orders handled so far have been answered Ack then Fill in id order, with their event, price and quantity, and the OMS has heard a prefix of that |
| `OrderFlow.FillParsedMeans` | hft_test/src/hft_main.cpp:357-375 | the Fill of an order is among the reports parsed exactly when twice its number of reports have been |
| `OrderFlow.FilledExactlyOnce` | hft_test/src/hft_main.cpp:371-374 | `filled` is 0 while the order's Fill is not among the reports parsed and its quantity once it is, whatever follows |
| `OrderFlow.EverythingSettles` | hft_test/src/hft_main.cpp:310-377 | when both streams have run empty every order has been answered and is filled |
| `OrderFlow.SentAsRequested` | hft_test/src/hft_main.cpp:310-333 | the orders on the wire are the requests, field by field, stamped when they were asked, and in order |
| `OrderFlow.RequestsAreReported` | hft_test/src/hft_main.cpp:354-370 | when both streams have run empty, report 2k is the Ack of request k and report 2k + 1 its Fill, at its price and quantity |
| `OrderFlow.RequestsAreFilled` | hft_test/src/hft_main.cpp:310-377 | from request to fill: when both streams have run empty the table holds exactly the requests, each filled to its whole quantity |
| `OrderLink.Link.Perform` | hft_test/src/hft_main.cpp:310-377 | every step of the protocol is a call on the OMS or the simulator object: their fields and the bytes between them become those of the protocol's next state |
| `OrderLink.Link.Converse` | hft_test/src/hft_main.cpp:288-308 | a whole conversation of the two objects: once all bytes have been read, the order table of the object holds exactly the requests, each filled, and the updates offered to the strategy are an Ack and a Fill for each request in turn, with its event, price and quantity |
| `BookSync.DeltasLeaveSizes` | rust_cpp/md4.cpp:52-63 | after the deltas a level they mention has its last size, zero meaning removed, and every other is untouched |
| `BookSync.SideSyncs` | rust_cpp/md4.cpp:52-63 | absolute sizes make an update idempotent: applied from any id it covers, it leads to the exchange's side at its last id |
| `BookSync.AcceptedUpdateSyncs` | rust_cpp/md4.cpp:150-196 | a synced book stays the exchange's through every honest update, overlapping or not; stale and rejected ones change nothing |
| `BookSync.FollowSyncs` | rust_cpp/md4.cpp:368-393 | the same along the whole stream |
| `BookSync.ContiguousIsFollowed` | rust_cpp/md4.cpp:167-171 | a stream without holes is followed to its end if and only if its first message joins the snapshot |
| `BookSync.FollowReads` | rust_cpp/md4.cpp:165-171 | messages are taken as long as each is behind, starts no later than the next id or names the last one; the id is then the highest read |
| `BookSync.SnapshotLoads` | rust_cpp/md4.cpp:119-143 | loading a full snapshot gives the exchange's side, empty levels skipped |
| `BookSync.Client.LoadSnapshot` | rust_cpp/md4.cpp:119-143 | book and id are those of the snapshot, whatever was there before |
| `BookSync.Client.ApplyDeltasTo` | rust_cpp/src/main.rs:19-28 | the loop over the deltas computes the update of a side |
| `BookSync.Client.ApplyUpdate` | rust_cpp/src/main.rs:255-282 | stale, gap or applied, exactly by the sequence rule, with the new state in each case |
| `BookSync.Client.Bridge` | rust_cpp/md4.cpp:310-366 | it succeeds exactly when one of the first 201 messages is not stale and the first such one joins; only that message changes the book, and at most 201 are read |
| `BookSync.Client.Steady` | rust_cpp/md4.cpp:368-393 | messages are followed up to the first gap or the limit |
| `BookSync.Client.BridgeOnce` | rust_cpp/src/main.rs:194-218 | exactly one message is taken; a gap is an error, a stale one ends the bridge with nothing changed |
| `BookSync.StaleFirstMessage` | rust_cpp/src/main.rs:194-218 | on a single stale message this bridge is over at the snapshot's id, while that of md4.cpp waits |
| `BookSync.Session` | rust_cpp/md4.cpp:273-396 | snapshot, bridge and steady state in one pass: the book is the exchange's at the last id however the pass ends; it is bridged exactly when the first message among 201 that is not stale fits, and then reads on to the first that does not fit or to the limit |
| `BookSync.PassOverContiguous` | rust_cpp/md4.cpp:310-393 | over a stream without holes that fits the snapshot, a pass is bridged if and only if one of the first 201 messages is not stale, and then it ends at the last id of the stream, or at the limit |
| `BookSync.SessionOnce` | rust_cpp/src/main.rs:162-253 | the same for the client with the bridge of one message: bridged exactly when the first message fits, stale or not |
| `BookSync.OncePassOverContiguous` | rust_cpp/src/main.rs:194-250 | over a stream without holes that fits, it ends at the last id of the stream, or at the limit |
| `Words.WrapOfProduct` | rdtsc/user_mode/2_rdtscp/rdtscp.c:97-97 | a product of wrapped words wraps as the product does |
| `Variance.NumeratorIsNotNegative` | rdtsc/user_mode/2_rdtscp/rdtscp.c:119-119 | by Cauchy and Schwarz the subtraction is never negative |
| `Variance.VarCalc` | rdtsc/user_mode/2_rdtscp/rdtscp.c:82-125 | for every input: when the overflow exit is taken and what is returned |
| `Variance.RightExactlyWhen` | rdtsc/user_mode/2_rdtscp/rdtscp.c:82-125 | the result is the variance rounded down if and only if the checks stay silent and the numerator fits a word, or they fire on a variance below 1 |
| `Variance.SmallSamplesAreRight` | rdtsc/user_mode/2_rdtscp/rdtscp.c:82-125 | if n * sum(x^2) < 2^64 nothing wraps, no check fires and the result is right |
| `Variance.OverflowCanGoUnseen` | rdtsc/user_mode/2_rdtscp/rdtscp.c:91-114 | an input whose overflow no check sees and whose result is wrong |
| `Variance.SumCheckIsExact` | rdtsc/user_mode/2_rdtscp/rdtscp.c:89-95 | the check on the running sum fires if and only if the samples before the last add up to 2^64 or more |
| `Variance.SquareCheckIsExact` | rdtsc/user_mode/2_rdtscp/rdtscp.c:101-109 | so does the check on the squares, for samples below 2^32 |
| `Variance.OverflowIsSeen` | rdtsc/user_mode/2_rdtscp/rdtscp.c:91-125 | three words on which the overflow exit is taken |
| `Variance.NeverTooLarge` | rdtsc/user_mode/2_rdtscp/rdtscp.c:119-124 | for every input the result is at most the variance |
| `Variance.Extremes` | rdtsc/user_mode/2_rdtscp/rdtscp.c:188-203 | the loop finds the smallest and the largest sample |
| `Variance.VarianceWithinDeviation` | rdtsc/user_mode/2_rdtscp/rdtscp.c:203-211 | four times the result is at most the square of the largest deviation, for every input |
| `RollingStats.WelfordStep` | hft_test/include/hft_common.h:77-83 | one update keeps mean and spread those of the samples so far |
| `RollingStats.RollingStats.Add` | hft_test/include/hft_common.h:77-83 | the fields after the call describe the samples with the new one |
| `RollingStats.RollingStats.SampleVariance` | hft_test/include/hft_common.h:85-88 | the square of `stddev` is the unbiased variance, 0 below two samples |
| `RollingStats.SpreadTimesCount` | hft_test/include/hft_common.h:71-83 | m2 is the sum of squared distances from the mean and n * m2 = n * sum(x^2) - (sum x)^2 |
| `RollingStats.StateIsDetermined` | hft_test/include/hft_common.h:71-83 | the samples determine mean and m2: no other state describes them |
| `RollingStats.MeanIsClosest` | hft_test/include/hft_common.h:80-80 | no other point has a smaller sum of squared distances |
| `RollingStats.VariancesAgree` | rdtsc/user_mode/2_rdtscp/rdtscp.c:119-119 | on the same samples the integer variance is the running spread over the count, rounded down |
| `PointerChase.BuildNext` | perf_lab/perf_lab.cpp:191-192 | each index points at its successor in the permutation, the last at the first |
| `PointerChase.SingleCycle` | perf_lab/perf_lab.cpp:191-192 | for every permutation and start, n steps visit each index once and lead back |
| `PointerChase.VisitAt` | perf_lab/perf_lab.cpp:172-180 | the k-th index added is the one after k + 1 steps from the start |
| `PointerChase.EachIndexPerLap` | perf_lab/perf_lab.cpp:204-206 | n * iters steps visit each index exactly `iters` times |
| `PointerChase.PtrChase` | perf_lab/perf_lab.cpp:172-180 | the sum of the indices visited, modulo 2^64 |
| `PointerChase.SeqWalk` | perf_lab/perf_lab.cpp:195-201 | the sum of the array repeated `iters` times, modulo 2^64 |
| `PointerChase.ChaseAddsUp` | perf_lab/perf_lab.cpp:172-180 | any chase adds up to the passes it makes over the array and the steps after the last whole lap |
| `PointerChase.AgreeExactlyWhen` | perf_lab/perf_lab.cpp:195-207 | against `iters` passes, a chase of some laps and a rest adds up to the same if and only if the missing passes add up to what the rest does |
| `PointerChase.RunPtr` | perf_lab/perf_lab.cpp:182-207 | the sequential variant returns the sum of `iters` passes and the chase the sum of the indices of its wrapped count of steps; they are equal always if the count fits a word, and if it wraps exactly when the missing passes do not show |
| `PointerChase.WrappedStepsDiffer` | perf_lab/perf_lab.cpp:205-205 | two elements and 2^63 laps: no step is left and the sums differ |
| `PointerChase.OneElementAgrees` | perf_lab/perf_lab.cpp:172-180 | one element: every chase adds up to 0, wrapped or not |
| `LoopOrder.Exchange` | perf_lab/perf_lab.cpp:125-148 | for every grid, summing by rows is summing by columns |
| `LoopOrder.AllLines` | perf_lab/perf_lab.cpp:128-132 | the row-major index meets each stored entry once |
| `LoopOrder.RowMajor` | perf_lab/perf_lab.cpp:125-136 | the sum of all entries repeated `iters` times, modulo 2^64 |
| `LoopOrder.ColMajor` | perf_lab/perf_lab.cpp:138-148 | the same sum |
| `LockCounter.NothingIsLost` | perf_lab/perf_lab.cpp:321-335 | at every moment of every interleaving the counter is the number of stores in the run so far, modulo 2^64, and only the holder of the mutex is between load and store |
| `LockCounter.LockedTotal` | perf_lab/perf_lab.cpp:321-335 | when all threads are done the counter is their number times their iterations, modulo 2^64 |
| `LockCounter.NeverStuck` | perf_lab/perf_lab.cpp:324-329 | as long as a thread is not done some step can be taken |
| `LockCounter.CountLocally` | perf_lab/perf_lab.cpp:337-349 | the per-thread counters add up to the same total |
| `Vector.RunGrows` | std_vector/vector_basic.cpp:100-148 | over any pushes and pops, from any start: a plain stack, size <= capacity <= twice the peak, and the elements moved equal the growth of the capacity |
| `Vector.GrowthIsAmortised` | std_vector/vector_basic.cpp:100-148 | p >= 1 pushes on an empty vector move fewer than 2p elements, pops in between or not |
| `Vector.MyVec.FromList` | std_vector/vector_basic.cpp:38-41 | the items of the list, with no room to spare |
| `Vector.MyVec.Copy` | std_vector/vector_basic.cpp:44-56 | same items and capacity in a block of its own |
| `Vector.MyVec.Assign` | std_vector/vector_basic.cpp:59-76 | the same for assignment, self-assignment included |
| `Vector.MyVec.Release` | std_vector/vector_basic.cpp:36-36 | the block is deleted, once, and no other vector's block is touched |
| `Vector.MyVec.Move` | std_vector/vector_basic.cpp:78-83 | the block changes owner and the source is empty |
| `Vector.MyVec.MoveAssign` | std_vector/vector_basic.cpp:85-98 | the same for assignment; to itself it does nothing |
| `Vector.MyVec.Reserve` | std_vector/vector_basic.cpp:100-121 | the items stay and the capacity is the larger of the old one and the request |
| `Vector.MyVec.PushBack` | std_vector/vector_basic.cpp:123-148 | the item joins at the end; the capacity stays if there is room, and otherwise doubles, or becomes 1 |
| `Vector.MyVec.PopBack` | std_vector/vector_basic.cpp:137-140 | the last item goes, the block stays |
| `Vector.NeverShared` | std_vector/vector_basic.cpp:11-11 | two vectors never share a block |
| `Vector.UntouchedStaysValid` | std_vector/vector_basic.cpp:11-11 | what one vector does to the ledger of blocks leaves every other vector the owner of its own |
| `Vector.MyVec.Equals` | std_vector/vector_basic.cpp:158-165 | true exactly for equal items |
| `Vector.MyVec.CompareTo` | std_vector/vector_basic.cpp:167-175 | the loop computes the comparison |
| `Vector.CompareMeans` | std_vector/vector_basic.cpp:167-175 | equal exactly for equal items, less exactly if shorter or less at the first difference, and antisymmetric |
| `Vector.CompareIsTransitive` | std_vector/vector_basic.cpp:167-175 | the order is transitive |
| `Decimal.MyAtoi` | atoi/atoi.cpp:12-42 | for every string the unbounded value of spaces, sign and digit prefix, clamped to an int |
| `Decimal.MeaningOfParts` | atoi/atoi.cpp:12-42 | white space, a sign or none, digits and a rest mean the sum of each digit's place in 0123456789 times its power of ten, negative after a minus sign |
| `Decimal.EveryStringHasParts` | atoi/atoi.cpp:12-42 | every string is made of such parts |
| `Decimal.DigitIsPlace` | atoi/atoi.cpp:26-27 | the digits are the ten characters of 0123456789, each worth its place there |
| `Decimal.ReadDigits` | atoi/atoi.cpp:24-38 | the digit loop never leaves the range of an int and stops exactly on values above INT_MAX |
| `Decimal.PrintedIsCanonical` | param_pack/param_pack.cpp:198-206 | a printed number has no leading zeros and reads as itself |
| `Decimal.PrintedDigit` | param_pack/param_pack.cpp:198-206 | the j-th character from the right of a printed n is the one at place n / 10^j mod 10 in 0123456789 |
| `Decimal.CanonicalIsPrinted` | param_pack/param_pack.cpp:198-206 | every such string is the print of its value |
| `Decimal.ReadPrinted` | atoi/atoi.cpp:12-42 | reading a printed n gives n up to INT_MAX and INT_MAX above |
| `Decimal.CommasEveryThree` | param_pack/param_pack.cpp:218-228 | counted from the right every fourth character is a comma, the others are the digits in order, and none is left over |
| `Decimal.CommasComeOut` | param_pack/param_pack.cpp:211-231 | taking the commas out restores the string if and only if it had none |
| `Churn.Batch` | perf_lab/malloc_compare.cpp:226-248 | a batch leaves the number of live blocks where it was; the picks say which blocks are freed, in which order, and what is held; only live blocks are freed |
| `Churn.RunThread` | perf_lab/malloc_compare.cpp:205-254 | the blocks freed, in order, are those the picks choose batch by batch and then the ones held; the live count after the initial fill and after every batch is the old one plus min(live slots, allocations); the peak is that plus one batch; in the end exactly what was live before is live |
| `Churn.PositionIs` | perf_lab/malloc_compare.cpp:243-244 | the k-th pick names the position picks[k mod n] mod size |
| `Churn.FreesMove` | perf_lab/malloc_compare.cpp:240-248 | frees only move blocks from those held to those freed, each once |
| `Churn.LiveCount` | perf_lab/malloc_compare.cpp:211-253 | the number of live blocks is the number handed out less the number freed |
| `Churn.Touch` | perf_lab/malloc_compare.cpp:165-174 | the first 64 bytes of every page of the block are written and nothing outside it |

## Left out

- Treap keys are integers under `<`; other key types and comparators, and move-only values, are not modelled. The random engine is a parameter.
- Interpreter: the printed newline at the end and the texts of the error messages are not part of the output; the status stands for them. The run is cut after a number of steps that is a parameter, as a program need not stop; `BrainFuckMachine.ResultIsStable` shows that the bound does nothing else. A text of 2^31 characters or more, whose positions an `int` cannot hold, is not modelled.
- Rings: the memory model beyond modification orders and acquire loads that may be stale is not modelled, nor is `size` called by a third thread between steps.
- Pipeline: a push that fails although a slot is free is allowed at any time, which covers every stale index. Prices are exact; the `BinanceDepthConnector`, logging, sleeping and shutdown are not modelled.
- Wire records: padding bytes are taken as zero, which the source leaves to the initialisers of the structs and to alignment; the layout is that of x86-64.
- Order protocol: a call to `send` may take any part of the frame, be interrupted or block, but some later call takes something; an error of `send` or `recv` and a broken connection are not modelled. Identifiers are claimed unique for fewer than 2^64 orders. `filled` is an unbounded sum, which does not matter as every order is filled once. The ring from OMS to strategy may drop an update, as the result of its push is ignored, so nothing is claimed beyond what is offered to it.
- `Strategy` in hft_test/src/hft_main.cpp: order gating, positions and profit are left out. Its flag is cleared by an Ack already, so it does not bound the orders outstanding, and its rule for the side of a fill is for demonstration only.
- Order book: messages are parsed records. Levels are exact numbers, malformed numbers and NaN prices are not modelled, and a snapshot is assumed to be complete (the exchange cuts it at 1000 levels). An update is honest when it carries the final size of every level changed since the previous update.
- Running statistics: arithmetic is over exact reals and the square root of `stddev` is left out.
- Variance: a sample is a list, so a negative `size`, which returns 0 like an empty one, does not appear; the spurious-minimum counter and the totals of `main` are left out.
- Pointer chase: an array of more than 2^32 elements, whose indices the 32-bit entries cannot hold, is not modelled; neither is an empty one, for which the source reads before its permutation.
- The other benchmark modes of perf_lab/perf_lab.cpp (branches, false sharing, allocation, system calls, page faults) have no result worth stating. A matrix is modelled as a list of n * n numbers; its 32-bit fill is not.
- Vector: `Release` also resets the fields, which the source leaves to the code after `delete[]`; allocation never fails and assigning an element does not throw; iterators and `operator[]` are plain accesses.
- Allocator churn: the option parser replaces zero slots and zero batches by defaults, so both are positive here. An allocation that fails aborts the program, which is not modelled; the ledger numbers allocations, so an address that is handed out again counts as a new block. Threads share nothing but the allocator, so one is modelled, with the blocks of the others held fixed.
- Sockets, TLS, WebSocket, HTTP, JSON, epoll, shared memory, kernel modules, timing code and the demonstrations of language features are not modelled.
