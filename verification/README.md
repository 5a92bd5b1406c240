# BOFuzz / LibAFL: LLMP and the ACFG analyses, in Dafny

This project models three parts of the repository and proves what they promise.

**LLMP**, the lock-free message channel of `libafl_bolts/src/llmp.rs`. A sender
reserves, fills and commits messages on a shared page, chains to a new page with
an end-of-page (EOP) message, retires pages its receiver has joined into a cache
and takes them back once the receiver has left them. A receiver walks the page,
keeps a cached newest id and follows EOPs. The channel is a state machine
(`LlmpProtocol`) whose steps are the single accesses of either side to memory the
other side touches; a run is any interleaving of such steps. `LlmpInvariant`
states what every step keeps, `LlmpSenderSteps` and `LlmpReceiverSteps` prove it
step by step, and `LlmpSafety` draws the conclusions for every reachable state.
`LlmpChannel` has the sender and receiver as objects whose methods carry out runs
of that machine, and `LlmpSizing` ties the size of the next page to the requests
of the run. `LlmpBroker` is the broker's client table and one brokering
pass; `LlmpListener` is the id bookkeeping between listener thread and broker.
`LlmpRelay` puts the channels together: clients that send, the broker that reads
their chains and forwards onto its own, and the readers of that chain.

**The graph analyses** of `static_analysis/features_extractor.py`: iterative
Kosaraju (`Scc`), descendant and ancestor counts over the condensation
(`Reachability`), dominators (`Dominators`), natural loops and nesting depth
(`Loops`), Brandes centrality (`ShortestPaths`, `Dependency`, `Brandes`,
`Centrality`), the Voronoi assignment of blocks to coverage sites (`Adjacency`,
`Voronoi`) and the graph of sites (`SancovGraph`). Sets and dictionaries are
visited in an arbitrary order, so every result holds for every iteration order.
Floating-point numbers are reals.

**Holm's adjustment** of `eval/src/rq1_statistics_table.py` (`Holm`), tied to the
step-down procedure it stands for.

`Base`, `Graph`, `FiniteSum` and `Sorting` hold shared vocabulary.

Three statements hold only under a condition, and the condition is part of the result:

- A block's loop nesting depth is at least 1 exactly if it lies on a cycle or has a
  predecessor no root reaches (`Loops.DepthLaw`); `Loops.DepthOffCycle` is a
  function in which a block off every cycle is counted.
- The id a connecting client is told equals the id it is filed under exactly if, up
  to that point, registrations by others and announcements that could not be opened
  balance (`LlmpListener.ToldIdLaw`). `LlmpListener.RegistrationShiftsIds` and
  `LlmpListener.FailedMapShiftsIds` are runs in which they differ, one for each cause.
- A reader of the broadcast chain sees the id a message is stamped with, not the client it
  was forwarded from. The messages under the id a client stamps are a prefix of what that
  client sent and the hooks let pass exactly if nothing else was let onto the chain under
  that id: the broker, if it stamps the same id, sent nothing of its own, and no message of
  another client that stamps it was let pass (`LlmpRelay.SharedIdsMix`). Ids are shared in
  runs of the code: the broker's own id 0 is also the first id it files under, and a client
  is told an id some other client may be filed under and stamp (`LlmpListener.ToldIdLaw`).
  `LlmpRelay.OwnMessageFirst` and `LlmpRelay.TwoClientsOneId` are such runs, one for each
  cause. Traced by origin instead of stamp, the messages are in order in every run
  (`LlmpRelay.ForwardedInOrder`).

## Model

| member | source | states |
|---|---|---|
| LlmpLayout.Align | libafl_bolts/src/llmp.rs:422-434 | the least multiple of 64 not below the argument |
| LlmpLayout.AlignShift | libafl_bolts/src/llmp.rs:422-434 | alignment is the same at every aligned base address, so offsets may stand for addresses |
| LlmpLayout.NextShmemSize | libafl_bolts/src/llmp.rs:519-525 | a power of two with room for twice the largest allocation, an EOP and the page header |
| LlmpLayout.NextShmemLeast | libafl_bolts/src/llmp.rs:519-525 | no smaller power of two has that room |
| LlmpLayout.PaddedLen | libafl_bolts/src/llmp.rs:1469-1474 | padding is less than 64 bytes and the message ends aligned |
| LlmpLayout.RoomExact | libafl_bolts/src/llmp.rs:1492-1497 | there is room exactly if the message can end somewhere aligned with an EOP still fitting behind it |
| LlmpLayout.RoomOnNextPage | libafl_bolts/src/llmp.rs:1174-1193 | a message that did not fit has room at the start of a page of the next size, although its padding differs there |
| LlmpPage.PageInitWritable | libafl_bolts/src/llmp.rs:532-559 | initialising any map, fresh or used, gives an empty page that can be written to |
| LlmpPage.MessagesDisjoint | libafl_bolts/src/llmp.rs:588-600 | the messages of a page do not overlap and stay below the EOP reserve |
| LlmpPage.ReserveWritable | libafl_bolts/src/llmp.rs:1450-1526 | reserving a message leaves the committed ones alone and keeps the page's layout |
| LlmpPage.FillWritable | libafl_bolts/src/llmp.rs:1286-1290 | writing the reserved message leaves the committed ones alone |
| LlmpPage.ShrinkWritable | libafl_bolts/src/llmp.rs:1223-1246 | shrinking keeps the layout and gives the requested length |
| LlmpPage.CommitWritable | libafl_bolts/src/llmp.rs:1533-1572 | committing appends exactly the stamped message to what the page holds, and the bounds check of send passes |
| LlmpPage.EopFits | libafl_bolts/src/llmp.rs:1415-1445 | an EOP always fits behind the committed messages, and none of the assertions of alloc_eop fails |
| LlmpPage.EopCommit | libafl_bolts/src/llmp.rs:1155-1163 | committing the EOP closes the page and names the next one |
| LlmpPage.ReceiverChecksPass | libafl_bolts/src/llmp.rs:566-586 | the receiver's pointer arithmetic finds message i and its bounds checks pass |
| LlmpInvariant.InitInv | libafl_bolts/src/llmp.rs:927-951 | a new sender satisfies the invariant |
| LlmpSenderSteps.AllocInv | libafl_bolts/src/llmp.rs:1450-1526 | allocation keeps the invariant, whether there is room or not |
| LlmpSenderSteps.SendInv | libafl_bolts/src/llmp.rs:1533-1572 | commit keeps the invariant |
| LlmpSenderSteps.ShrinkInv | libafl_bolts/src/llmp.rs:1210-1247 | shrinking keeps the invariant |
| LlmpSenderSteps.ScanInv | libafl_bolts/src/llmp.rs:1008-1025 | looking at the joined counts keeps the invariant |
| LlmpSenderSteps.MoveInv | libafl_bolts/src/llmp.rs:1027-1045 | retiring a joined page keeps the invariant |
| LlmpSenderSteps.LeftIsDead | libafl_bolts/src/llmp.rs:1055-1076 | a cached page marked left is not part of the chain still to be read |
| LlmpSenderSteps.ProbeInv | libafl_bolts/src/llmp.rs:1055-1061 | reading a cached page's joined count, or taking a fresh map, keeps the invariant |
| LlmpSenderSteps.ProbeLeftInv | libafl_bolts/src/llmp.rs:1062-1093 | skipping, dropping or reusing a cached page keeps the invariant |
| LlmpSenderSteps.WriteEopInv | libafl_bolts/src/llmp.rs:1155-1160 | writing the EOP keeps the invariant |
| LlmpSenderSteps.SendEopInv | libafl_bolts/src/llmp.rs:1162-1170 | committing the EOP and switching pages keeps the invariant |
| LlmpSenderSteps.RetryInv | libafl_bolts/src/llmp.rs:1187-1192 | the second allocation keeps the invariant |
| LlmpSenderSteps.SenderStepInv | libafl_bolts/src/llmp.rs:1008-1193 | every step of the sender keeps the invariant |
| LlmpReceiverSteps.LookupExact | libafl_bolts/src/llmp.rs:1671-1693 | the receiver finds a message exactly if the id it works with is beyond what it consumed, and then the next one |
| LlmpReceiverSteps.VisibleBounds | libafl_bolts/src/llmp.rs:1660-1669 | the id the receiver works with is never ahead of the page, and shows a message exactly if the page does |
| LlmpReceiverSteps.LoadInv | libafl_bolts/src/llmp.rs:1655-1693 | looking for a message keeps the invariant |
| LlmpReceiverSteps.ReadInv | libafl_bolts/src/llmp.rs:1695-1740 | reading a message, an EOP or an EXITING keeps the invariant |
| LlmpReceiverSteps.LeaveInv | libafl_bolts/src/llmp.rs:1742-1743 | marking the old page left keeps the invariant |
| LlmpReceiverSteps.MapInv | libafl_bolts/src/llmp.rs:1745-1751 | mapping the named page keeps the invariant |
| LlmpReceiverSteps.JoinInv | libafl_bolts/src/llmp.rs:1753-1754 | marking the new page joined keeps the invariant |
| LlmpReceiverSteps.AttachInv | libafl_bolts/src/llmp.rs:2922-2936 | attaching a receiver to the first page keeps the invariant |
| LlmpReceiverSteps.ReceiverStepInv | libafl_bolts/src/llmp.rs:1655-1772 | every step of a receiver keeps the invariant |
| LlmpSafety.RunInv | libafl_bolts/src/llmp.rs:1008-1772 | the invariant holds after every interleaving of sender and receiver steps |
| LlmpSafety.DeliveredIsPrefix | libafl_bolts/src/llmp.rs:1655-1772 | in every run, what a receiver was given is a prefix of what was committed: in order, once each, tag, sender, flags and payload intact |
| LlmpSafety.NoneMeansAll | libafl_bolts/src/llmp.rs:1671-1682 | recv reports no message exactly if everything committed was delivered and the receiver is on the last page |
| LlmpSafety.StepHistory | libafl_bolts/src/llmp.rs:1655-1772 | one step commits at most one message and hands a receiver at most the next message it lacks |
| LlmpSafety.CacheIsTransparent | libafl_bolts/src/llmp.rs:1660-1693 | with the cached id recv finds what it would find by reading the id afresh |
| LlmpSafety.NothingBreaks | libafl_bolts/src/llmp.rs:1008-1772 | no bounds check, magic check or bookkeeping assertion of either side fails in any run, the debug assertions on joined and left counts included; an EXITING sent with a payload is not covered: recv reports it as such |
| LlmpSafety.CachedCounts | libafl_bolts/src/llmp.rs:1060-1072 | in every run a cached page is marked joined and left no more often than joined, so the debug assertions hold whenever the cache is searched |
| LlmpSafety.ReuseIsSafe | libafl_bolts/src/llmp.rs:1049-1101 | a page is dropped or initialised again only from the cache, marked joined and left, held by no receiver, and not among the pages still to be read |
| LlmpSafety.ReadsOnlyJoinedPages | libafl_bolts/src/llmp.rs:853-867 | a page a receiver looks at is in memory and initialised; where pages are not kept forever it is also marked joined and not marked left |
| LlmpSafety.NamedPageIsReady | libafl_bolts/src/llmp.rs:1745-1751 | the page an EOP names is initialised and of the announced size when it is mapped, so the assertion of LlmpSharedMap::existing holds |
| LlmpSafety.CurrentPageLayout | libafl_bolts/src/llmp.rs:1450-1526 | with nothing unsent, the page holds contiguous messages with ids 1 to current_msg_id, the last ends aligned at size_used, and an EOP fits |
| LlmpSafety.SecondAllocSucceeds | libafl_bolts/src/llmp.rs:1187-1192 | after a page switch the allocation succeeds for every length the first attempt accepted, on fresh and on reused pages |
| LlmpSafety.CopyStaysInside | libafl_bolts/src/llmp.rs:3016-3018 | the possibly longer copy of a forwarded message stays inside the source page because of its EOP reserve |
| LlmpSafety.DeliveredForwardable | libafl_bolts/src/llmp.rs:2776-2778 | every message a receiver is given, in any run, meets what forward_msg needs |
| LlmpSafety.ForwardPreserves | libafl_bolts/src/llmp.rs:3010-3026 | forwarding commits the message under the next id with sender, tag, flags, length and payload unchanged, and keeps the layout |
| LlmpChannel.LlmpSender.constructor | libafl_bolts/src/llmp.rs:927-951 | a new sender is in an initial state of the channel |
| LlmpChannel.LlmpSender.AllocNextIfSpace | libafl_bolts/src/llmp.rs:1450-1526 | a message is reserved exactly if it fits together with an EOP; the new page contents are given |
| LlmpChannel.LlmpSender.Send | libafl_bolts/src/llmp.rs:1533-1572 | never fails on the pending message, and commits exactly it |
| LlmpChannel.LlmpSender.CountJoined | libafl_bolts/src/llmp.rs:1009-1025 | the number of leading pages the receiver has joined, the current page not counted; the sender is stopped if there is none and more than three pages are out |
| LlmpChannel.LlmpSender.PruneOldPages | libafl_bolts/src/llmp.rs:1008-1045 | exactly the leading joined pages move to the cache: the pages held stay the same and in order, the current page is untouched; gives up exactly if more than three pages are out and the first is unjoined |
| LlmpChannel.LlmpSender.FindReleased | libafl_bolts/src/llmp.rs:1055-1076 | the index of the first cached page marked left, or the end of the cache if there is none |
| LlmpChannel.LlmpSender.TakeReleased | libafl_bolts/src/llmp.rs:1076-1093 | a released page is linked exactly if it is large enough and dropped otherwise, leaving a smaller cache |
| LlmpChannel.LlmpSender.AskProvider | libafl_bolts/src/llmp.rs:1094-1100 | a fresh map is linked, or the provider's failure is reported with the channel unchanged |
| LlmpChannel.LlmpSender.NewOrUnusedShmem | libafl_bolts/src/llmp.rs:1049-1101 | terminates; stops exactly if the next size overflows, links an empty page exactly if the cache has a usable one or the provider answers, and is otherwise refused; the page is the first usable one of the cache, or the provider's if there is none |
| LlmpChannel.LlmpSender.AllocEop | libafl_bolts/src/llmp.rs:1415-1445 | writes the EOP of the state machine |
| LlmpChannel.LlmpSender.SendEop | libafl_bolts/src/llmp.rs:1162-1168 | commits it and makes the new page current |
| LlmpChannel.LlmpSender.HandleOutEop | libafl_bolts/src/llmp.rs:1104-1171 | commits no message; ends ready to allocate on the new page, refused by the provider, or stopped for a slow receiver or an overflow, and says exactly when each |
| LlmpChannel.LlmpSender.AllocNext | libafl_bolts/src/llmp.rs:1174-1193 | reserves a message of the requested length, page switch included; whether it is granted, refused or stops, and for which reason, is given in terms of the state before |
| LlmpChannel.LlmpSender.SendBufWithFlags | libafl_bolts/src/llmp.rs:1273-1293 | refuses reserved tags; otherwise commits exactly this message if the allocation is granted and nothing if it is not, with the exact outcome of the allocation |
| LlmpChannel.LlmpSender.ForwardMsg | libafl_bolts/src/llmp.rs:3010-3026 | commits a copy of the source message, changed only in id and padding, exactly if the allocation is granted, and nothing otherwise |
| LlmpChannel.LlmpSender.ShrinkAlloced | libafl_bolts/src/llmp.rs:1210-1247 | null pointer, nothing unsent and a larger padded length are each refused exactly then, with nothing changed; otherwise the message has the new length |
| LlmpChannel.LlmpReceiver.FindNext | libafl_bolts/src/llmp.rs:1655-1693 | finds the next message as the state machine does, and its checked pointer never fails |
| LlmpChannel.LlmpReceiver.FollowEop | libafl_bolts/src/llmp.rs:1738-1754 | leaves the page, maps and joins the next one of the chain |
| LlmpChannel.LlmpReceiver.Recv | libafl_bolts/src/llmp.rs:1655-1772 | terminates, and returns the first undelivered committed message, the end of the stream exactly if that message is an EXITING, or none exactly when all were delivered |
| LlmpSizing.LargestIsNoted | libafl_bolts/src/llmp.rs:1487-1490 | in every run, the current page notes the largest allocation tried so far on any page of the chain, and carries the sender's id |
| LlmpSizing.SwitchSize | libafl_bolts/src/llmp.rs:1129-1129 | the size asked for at a page switch is the least power of two, not below the initial size, with room for twice every allocation tried so far, an EOP and the page header |
| LlmpSizing.VerdictOfSize | libafl_bolts/src/llmp.rs:1104-1193 | after any run, what becomes of a request that does not fit, in terms of that size and of the pages out and cached |
| LlmpSizing.OverflowMeans | libafl_bolts/src/llmp.rs:1469-1474 | a request is stopped for overflow only if no page of less than 2^64 bytes could hold it, and otherwise its end is below 2^64 |
| LlmpBroker.DrainExact | libafl_bolts/src/llmp.rs:2642-2791 | the reading loop reads up to the first message that stops it; clients opened, exits queued, messages sent, what is left and the status are those of the messages read, in order |
| LlmpBroker.ReadsUnique | libafl_bolts/src/llmp.rs:2642-2791 | how far the loop reads is determined by the inbox and the ids left |
| LlmpBroker.ReadingExact | libafl_bolts/src/llmp.rs:2602-2613 | over a whole pass the clients announced and messages sent are exactly those of the messages read, client by client |
| LlmpBroker.ReadingUnique | libafl_bolts/src/llmp.rs:2602-2613 | how many messages of each client a pass reads is determined by the inboxes |
| LlmpBroker.FailsExact | libafl_bolts/src/llmp.rs:2604-2612 | a client stops the pass exactly if its reading ends in a message other than an EXITING |
| LlmpBroker.RequestedExact | libafl_bolts/src/llmp.rs:2604-2612 | the ids queued for removal are exactly those for which some client has a CLIENT_EXIT among the messages read, or that shut down themselves |
| LlmpBroker.TableWellFiled | libafl_bolts/src/llmp.rs:2902-2913 | ids stay strictly increasing and below num_clients_seen while clients are added during a pass |
| LlmpBroker.PassExact | libafl_bolts/src/llmp.rs:2600-2634 | after a pass a client is in the table exactly if it was there or was announced in a message read in the pass, and no removal left from before, no CLIENT_EXIT read and no EXITING of its own asked for it to go; order is kept |
| LlmpBroker.Broker.AddClient | libafl_bolts/src/llmp.rs:2907-2913 | appends under the next id and keeps the table sorted |
| LlmpBroker.Broker.BinarySearch | libafl_bolts/src/llmp.rs:2655-2663 | finds the client with the id if there is one |
| LlmpBroker.Broker.FindClient | libafl_bolts/src/llmp.rs:2649-2663 | fast path and binary search find the same, only, client with the id |
| LlmpBroker.Broker.HandleEvent | libafl_bolts/src/llmp.rs:2687-2788 | each kind of message has exactly its effect on table, removals and broadcast |
| LlmpBroker.Broker.HandleNewMsgs | libafl_bolts/src/llmp.rs:2642-2791 | reads one client up to the first message that stops it; table, removals, broadcast and status are those of the messages read, and the client is found every time, whatever was added meanwhile |
| LlmpBroker.Broker.RemoveRequested | libafl_bolts/src/llmp.rs:2615-2632 | removes exactly the requested clients and keeps the rest in order |
| LlmpBroker.Broker.ReadClients | libafl_bolts/src/llmp.rs:2601-2613 | reads the clients there at the start in order, all of them or up to the first that fails |
| LlmpBroker.Broker.BrokerOnce | libafl_bolts/src/llmp.rs:2600-2634 | gets through exactly if every client is read to its end or to an EXITING; then broadcast and table hold exactly what the messages read say, and otherwise it stops at the first failing client with nothing removed |
| LlmpListener.RunInv | libafl_bolts/src/llmp.rs:3264-3323 | both counters in every run of listener, broker and other registrations |
| LlmpListener.RunCounts | libafl_bolts/src/llmp.rs:3273-3322 | in every run an id is told for each local client and each remote broker that could be accepted and no other event; the announcements handled and queued are theirs in order; only other registrations register |
| LlmpListener.HandledCount | libafl_bolts/src/llmp.rs:3273-3322 | the number of announcements handled is the least, over all points of the run, of those announced before it and the reads after it |
| LlmpListener.IdsFromEvents | libafl_bolts/src/llmp.rs:3273-3322 | both ids of every announcement, told and filed, from the events of the run alone |
| LlmpListener.ToldIdLaw | libafl_bolts/src/llmp.rs:3273-3321 | the id told and the id filed differ by registrations from elsewhere minus announcements that did not open; they agree exactly if the two balance |
| LlmpListener.ToldIdsAreFiled | libafl_bolts/src/llmp.rs:3344-3358 | if only the listener registers clients and every map opens, every client is filed under the id it was told |
| LlmpListener.RegistrationShiftsIds | libafl_bolts/src/llmp.rs:3281-3296 | a registration by others before a client connects: told 1, filed under 2 |
| LlmpListener.FailedMapShiftsIds | libafl_bolts/src/llmp.rs:2748-2755 | an announced map that does not open: the next client is told 2 and filed under 1 |
| LlmpRelay.PollStep | libafl_bolts/src/llmp.rs:1655-1772 | a step of the broker on a client's chain hands it at most the next message it lacks |
| LlmpRelay.PublishStep | libafl_bolts/src/llmp.rs:3012-3022 | the copy is committed with sender, tag, flags, length and payload of the message it was made of |
| LlmpRelay.StepKeeps | libafl_bolts/src/llmp.rs:2642-2791 | every step of a client, of the broker or of a reader keeps that the messages of the broadcast chain that were forwarded from a client are those of it let pass, whatever ids are stamped |
| LlmpRelay.RunKeeps | libafl_bolts/src/llmp.rs:2642-2791 | so does every run, in any interleaving |
| LlmpRelay.ForwardedInOrder | libafl_bolts/src/llmp.rs:2642-2791 | in every run, what a reader of the broadcast chain was given of the messages forwarded from a client is a prefix of what that client committed and the hooks let pass: in order, once each, changed only in id and padding |
| LlmpRelay.ForwardedAll | libafl_bolts/src/llmp.rs:2642-2791 | once broker and reader find nothing more, the reader was given all of it |
| LlmpRelay.EveryMessageSourced | libafl_bolts/src/llmp.rs:3010-3022 | every message of the broadcast chain was forwarded from a client and carries its stamp, or is the broker's and carries the broker's |
| LlmpRelay.ChosenAll | libafl_bolts/src/llmp.rs:2769-2779 | if the hooks let everything pass, that is every message decided on |
| LlmpRelay.HandCanBeCopied | libafl_bolts/src/llmp.rs:3010-3018 | a message in hand can always be copied into the space allocated for it |
| LlmpRelay.SharedIdsMix | libafl_bolts/src/llmp.rs:2776-2788 | in every run, the messages on the broadcast chain under the id a client stamps are a prefix of what that client sent and the hooks let pass if and only if neither the broker nor another client got a message onto the chain under that id |
| LlmpRelay.RelayedInOrder | libafl_bolts/src/llmp.rs:2642-2791 | under that condition a reader that goes by the stamp was given a prefix of what the client sent and the hooks let pass |
| LlmpRelay.RelayedAll | libafl_bolts/src/llmp.rs:2642-2791 | once broker and reader find nothing more, a reader that goes by the stamp was given exactly that if and only if the condition holds |
| LlmpRelay.OwnMessageFirst | libafl_bolts/src/llmp.rs:2829-2852 | a run in which the broker sent under its id before the client that stamps the same id sent any |
| LlmpRelay.TwoClientsOneId | libafl_bolts/src/llmp.rs:2983-3005 | a run in which two clients filed under different ids stamp the same one, not the broker's, and a message of the first is let pass before the second sent any |
| Scc.FinishingOrder | static_analysis/features_extractor.py:961-979 | if u reaches a node, some node of u's component finishes no earlier than it |
| Scc.Reverse | static_analysis/features_extractor.py:955-959 | the reversed adjacency |
| Scc.CompIsScc | static_analysis/features_extractor.py:984-997 | what the backward search collects is exactly the component of its start |
| Scc.CollectComponent | static_analysis/features_extractor.py:987-996 | collects exactly the nodes that reach the start by a path that avoids the nodes visited before |
| Scc.ComputeSccs | static_analysis/features_extractor.py:948-999 | a partition into non-empty sets in which two nodes share a set exactly if they reach each other, listed so that no edge runs from a later set to an earlier one |
| Reachability.ReachCondensed | static_analysis/features_extractor.py:1041-1057 | a block reaches another exactly if its component reaches the other's in the condensation |
| Reachability.FindBeyond | static_analysis/features_extractor.py:1019-1030 | the components reachable over at least one edge |
| Reachability.ReachableSizes | static_analysis/features_extractor.py:1016-1034 | for each component the number of blocks in it and beyond it, less one |
| Reachability.NumberComponents | static_analysis/features_extractor.py:1043-1048 | every block is numbered with its component, and sizes are block counts |
| Reachability.BuildDag | static_analysis/features_extractor.py:1050-1057 | exactly the edges between different components |
| Reachability.DagAcyclic | static_analysis/features_extractor.py:1064-1064 | the condensation has no cycle |
| Reachability.DescendantsCounted | static_analysis/features_extractor.py:1066-1072 | the number counted on the condensation is the number of other blocks reachable in the graph |
| Reachability.AncestorsCounted | static_analysis/features_extractor.py:1067-1073 | the same against the edges |
| Reachability.ComputeStaticReachability | static_analysis/features_extractor.py:1036-1073 | both features are the numbers of other blocks reachable from, and reaching, the block |
| Dominators.BuildPreds | static_analysis/features_extractor.py:1149-1155 | the predecessor sets inside the function |
| Dominators.ChooseEntry | static_analysis/features_extractor.py:1157-1158 | a block without predecessor, or the lowest address if there is none |
| Dominators.Recompute | static_analysis/features_extractor.py:1172-1177 | the intersection over the predecessors plus the block itself |
| Dominators.Round | static_analysis/features_extractor.py:1168-1180 | a round in any order keeps soundness, and either shrinks the sets or has reached the fixpoint |
| Dominators.FixpointExact | static_analysis/features_extractor.py:1166-1180 | at the fixpoint a block's set holds exactly the blocks on every path from a root |
| Dominators.ComputeDominators | static_analysis/features_extractor.py:1161-1180 | halts with exactly the blocks on every root-to-block path |
| Dominators.UnrootedDominated | static_analysis/features_extractor.py:1161-1180 | a block no root reaches is dominated by all blocks |
| Dominators.EntryIrrelevant | static_analysis/features_extractor.py:1157-1158 | which predecessor-free block is taken as entry makes no difference |
| Loops.FindBackEdges | static_analysis/features_extractor.py:1182-1187 | exactly the edges into a dominator |
| Loops.NaturalLoop | static_analysis/features_extractor.py:1189-1202 | the header and exactly the blocks that reach the latch without passing the header |
| Loops.MergeLoops | static_analysis/features_extractor.py:1204-1211 | for each header the union of its natural loops |
| Loops.CountLoops | static_analysis/features_extractor.py:1213-1215 | the number of headers whose merged loop contains the block |
| Loops.DepthIsChain | static_analysis/features_extractor.py:1213-1249 | for a block that roots reach, the depth is the length of the longest chain of merged loops around it, each properly inside the next, and 1 on a cycle in none |
| Loops.DepthCounts | static_analysis/features_extractor.py:1213-1249 | for every block, the depth is the number of different headers whose merged loop contains it, and 1 on a cycle in none |
| Loops.DeeperInside | static_analysis/features_extractor.py:1213-1215 | a header that roots reach lies deeper than the header of any loop its own lies properly inside |
| Loops.LoopDominated | static_analysis/features_extractor.py:1189-1202 | the header dominates every block of its loop |
| Loops.LoopConnected | static_analysis/features_extractor.py:1189-1202 | from any block of a natural loop every block of it that roots reach is reached along a path inside the loop |
| Loops.MergedConnected | static_analysis/features_extractor.py:1204-1211 | the same for the merged loops of a header |
| Loops.LoopsNested | static_analysis/features_extractor.py:1204-1215 | of two headers whose merged loops share a block that roots reach, one loop lies properly inside the other |
| Loops.DominatorsOrdered | static_analysis/features_extractor.py:1161-1180 | of two dominators of a block that roots reach, one dominates the other |
| Loops.LoopOnCycle | static_analysis/features_extractor.py:1189-1202 | a block of a loop that roots reach lies on a cycle |
| Loops.LoopScc | static_analysis/features_extractor.py:1237-1243 | the test for a loop component is exact |
| Loops.IsLoopScc | static_analysis/features_extractor.py:1237-1243 | more than one block, or a block that is its own successor |
| Loops.RaiseCycles | static_analysis/features_extractor.py:1234-1249 | blocks on cycles that were not counted get depth 1, nothing else changes |
| Loops.DepthLaw | static_analysis/features_extractor.py:1157-1249 | the depth is at least 1 exactly if the block lies on a cycle or has a predecessor no root reaches |
| Loops.DepthOnCycles | static_analysis/features_extractor.py:1157-1249 | where roots reach every block, the depth is at least 1 exactly on cycles |
| Loops.DepthOffCycle | static_analysis/features_extractor.py:1157-1249 | a function with a block on no cycle that is counted |
| Loops.ComputeLoopNesting | static_analysis/features_extractor.py:1145-1249 | the whole computation yields the depth the laws are about |
| ShortestPaths.ShortestExact | static_analysis/features_extractor.py:1287-1306 | the paths counted at a node's distance are exactly its shortest paths |
| ShortestPaths.SigmaRec | static_analysis/features_extractor.py:1304-1306 | the number of shortest paths is the sum over the predecessors one step closer |
| Dependency.OnwardIdentity | static_analysis/features_extractor.py:1307-1312 | shortest paths that go on from a node go on through exactly one of its neighbours one step further |
| Dependency.DependencyRec | static_analysis/features_extractor.py:1307-1312 | the sum over targets of the fraction of shortest paths through a node obeys the recurrence of the back-accumulation |
| Brandes.ScanEdges | static_analysis/features_extractor.py:1298-1306 | looking at one node's edges keeps what is known of distances, counts and predecessors |
| Brandes.Search | static_analysis/features_extractor.py:1287-1306 | distances are shortest, sigma counts the shortest paths, P holds the predecessors one step closer, and the stack is ordered by distance |
| Brandes.GiveBack | static_analysis/features_extractor.py:1310-1312 | the popped node passes back its share to each recorded predecessor |
| Brandes.Accumulate | static_analysis/features_extractor.py:1307-1314 | each node other than the source is credited with the sum over targets of the fraction of shortest paths through it |
| Centrality.ContributionExact | static_analysis/features_extractor.py:1313-1314 | that credit is the sum over all other blocks, reachable or not |
| Centrality.ComputeCentrality | static_analysis/features_extractor.py:1270-1327 | for any set of k sources among n blocks, the value times (k - 1)(n - 1) is the betweenness over the sources if all blocks are, and times k(k - 1)(n - 1) is n times it if only some are; with at most one source the value is that betweenness, times n if other blocks exist |
| Centrality.CentralityBounds | static_analysis/features_extractor.py:1316-1327 | taken over all n blocks, the feature lies between 0 and (n - 2) / (n - 1), and is 0 for a function of one block |
| Centrality.CentralityMax | static_analysis/features_extractor.py:1316-1327 | the upper bound is reached exactly if every ordered pair of other blocks has a path and all its shortest ones pass the block |
| Centrality.HubReachesMax | static_analysis/features_extractor.py:1316-1327 | a block to which every other is joined both ways, and to nothing else, reaches it |
| Adjacency.BuildAdjacency | static_analysis/features_extractor.py:1392-1416 | exactly the edges between different numbered blocks, reversed ones added in undirected mode |
| Adjacency.UndirectedExtends | static_analysis/features_extractor.py:1414-1415 | the undirected adjacency is the symmetric closure of the directed one |
| Adjacency.NoSelfLoop | static_analysis/features_extractor.py:1419-1436 | no block is its own neighbour |
| Voronoi.ValidateUnique | static_analysis/features_extractor.py:1787-1820 | passes exactly if no two sites share a block |
| Voronoi.UsablePlaces | static_analysis/features_extractor.py:1837-1844 | exactly the sites whose block is part of the graph |
| Voronoi.ClaimSeeds | static_analysis/features_extractor.py:1846-1854 | each seed block goes to the smallest site on it |
| Voronoi.ScanLayer | static_analysis/features_extractor.py:1858-1866 | each block next to the layer is offered the smallest owner among its predecessors in the layer |
| Voronoi.NextLayer | static_analysis/features_extractor.py:1868-1875 | settling the offers gives exactly the blocks one step further, each with its nearest site |
| Voronoi.AssignBlocks | static_analysis/features_extractor.py:1823-1875 | owner and distance of each block are the least pair (distance, site) over all sites, and blocks no site reaches have none |
| Voronoi.OwnerByPaths | static_analysis/features_extractor.py:1823-1875 | the owner has a path of the noted length from a block of its own, no site has a shorter one and no smaller site one as short; a block without owner has no path from any site |
| Voronoi.CollectRegions | static_analysis/features_extractor.py:1877-1886 | every block is in exactly its owner's region or among the unassigned, in order |
| Voronoi.RegionConnected | static_analysis/features_extractor.py:1823-1875 | every block is reached from its own site's block along a shortest path inside its region |
| Voronoi.AssignedIffReached | static_analysis/features_extractor.py:1877-1886 | a block is assigned exactly if some site's block reaches it |
| Voronoi.OrderIrrelevant | static_analysis/features_extractor.py:1823-1875 | the assignment does not depend on the order of the seed list |
| SancovGraph.LinkBlock | static_analysis/features_extractor.py:2075-2084 | enters exactly the crossings out of one block, on both sides |
| SancovGraph.BuildSancovGraph | static_analysis/features_extractor.py:2062-2084 | successors and predecessors hold exactly the crossings between different regions |
| SancovGraph.PredecessorsTransposed | static_analysis/features_extractor.py:2083-2084 | predecessors is the transpose of successors |
| SancovGraph.SeedOwnsBlock | static_analysis/features_extractor.py:1787-1820 | with no shared block every site owns its own block, at distance 0 |
| SancovGraph.SitesReach | static_analysis/features_extractor.py:2062-2084 | if one site's block reaches another's, the second site is reachable from the first in the site graph |
| SancovGraph.LinkMeans | static_analysis/features_extractor.py:2075-2084 | in directed mode a link means the first site's block reaches a block of the second's region |
| SancovGraph.QuotientExact | static_analysis/features_extractor.py:2062-2084 | one site links to another exactly if they differ and some control-flow edge, or reversed edge in undirected mode, runs from a block nearest to the first to a block nearest to the second |
| SancovGraph.DirectedLinksLead | static_analysis/features_extractor.py:2062-2084 | in directed mode the block of the linking site reaches a block nearest to the other |
| SancovGraph.SitesFromGraph | static_analysis/features_extractor.py:2059-2084 | the whole chain from control-flow graph to site graph, in either mode: refused exactly on shared blocks; otherwise the links are exactly those the edges of the mode give between nearest sites, in directed mode each follows a path, reachability between sites is kept and predecessors is the transpose of successors |
| Holm.HolmAdjust | eval/src/rq1_statistics_table.py:209-225 | missing values stay missing; every other entry is the least of 1 and the largest of 0 and the values up to its own, each times the number of values no smaller |
| Holm.RunningIsPeak | eval/src/rq1_statistics_table.py:219-223 | the running maximum in sorted order is that order-free value, ties included |
| Holm.AdjustedDecides | eval/src/rq1_statistics_table.py:209-225 | for a level of at most 1, an adjusted value is below it exactly if the level is positive and Holm's step-down procedure rejects the hypothesis |
| Holm.AdjustedUnique | eval/src/rq1_statistics_table.py:219-223 | tied hypotheses get the same adjusted value |
| Holm.AdjustedMonotone | eval/src/rq1_statistics_table.py:219-223 | a larger p-value never gets a smaller adjusted value |
| Holm.AdjustedBounds | eval/src/rq1_statistics_table.py:219-223 | the adjusted value of a p-value lies between it and 1 |
| Holm.PermutationCommutes | eval/src/rq1_statistics_table.py:209-225 | permuting the list permutes the result |

## Left out

- Weak memory: the relaxed, acquire and release orderings of llmp.rs; runs are sequentially consistent interleavings.
- Bytes of a page: memory is kept per message start, so a write inside a message body is one write to that message; `LlmpPage.MessagesDisjoint` is what makes this sound for laid pages.
- Methods of `LlmpSender` and `LlmpReceiver` run without interruption; other interleavings of their steps are covered by the state machine and not by the objects.
- Several receivers on a chain that does not keep its pages forever: the counters are flags, so the channel is modelled with one receiver per chain, or any number with keep_pages_forever.
- LlmpChannel.LlmpSender.CountJoined: stops the sender where the code first sends a last message and then panics.
- LlmpSafety.NothingBreaks: the assertion of recv that an EXITING carries no payload is not among those that never fail; a sender that sends such a message trips it, and `LlmpChannel.LlmpReceiver.Recv` says exactly when.
- Overflow of usize or of a client id stops the sender or the pass instead of wrapping or panicking; other integer widths are unbounded.
- cancel_send, reset, mark_safe_to_unmap on a sender, new_p2p, reattaching senders and receivers to existing maps or from the environment, and LlmpClient.
- Shared-memory backends: a provider returns an unused id with at least the bytes asked for, or fails.
- The boolean results of broker_once and handle_new_msgs, exit conditions of the broker loops, and last-message times.
- Sorting and deduplicating clients_to_remove, which the membership test after it does not notice.
- LlmpBroker.Broker.HandleEvent: a message hook appears as its verdict and the messages it adds, or as failing; one that rewrites the message, reaches into the broker or fails with ShuttingDown is not modelled, nor is a NEW_SHM_CLIENT or CLIENT_EXIT payload of the wrong size.
- LlmpListener.ToldIdLaw: an announcement lost on the way counts as one that does not open; TCP, threads and message formats are not modelled.
- In `LlmpBroker` messages handed on are values in `broadcast` and what a client sends is its inbox; in `LlmpRelay` they travel over the pages, and there the client table is left out: a client is filed under any free id and stamps any id, one that is removed is one that is not polled any more, internal messages are ones not let pass, and the hooks' verdicts are arbitrary; a hook that rewrites a message is not modelled.
- Sampling of centrality sources: the sample is a parameter. Logarithms, normalisation and every rounding of floats.
- The loop boundary flag and the debugging roles of compute_loop_features.
- Lists of length node_count for owner and distance are maps, with a missing key for None.
- Writing regions and site graph as JSON, feature arrays, Moran's I, the gamma-weighted mean the repository's README describes (the code sums a region), and all extraction from IDA.
- Degree and depth features, region sums and the remaining statistics of rq1_statistics_table.py, which would only add easy members.
- The other crates, LLVM passes, build and plotting scripts.
