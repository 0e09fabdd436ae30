# HTC host-target communications: a verified model

This project models the Host Target Communications layer of a wireless host driver and proves
what its design relies on. The core is the transmit engine of `htc/htc_send.c`: credit-based
flow control, one send loop shared by concurrent callers and credit reports, requeueing after a
failure, bundling, and the lookup of completed packets, all on intrusive circular lists. Around
it stand the division of credits among endpoints, the receive side's trailer parser and
reassembly, the reference-counted configuration stores, and the fixed-point rate filter.

`dafny verify dfyconfig.toml` checks everything.

## How the layers fit

- `DlList.dfy`, `PacketQueue.dfy`, `QueueScans.dfy`: linked nodes on the heap. Every list and
  queue operation is proved against the sequence operation it stands for; the scans that splice
  queues while walking them (PM extraction, completion lookup, requeueing a bundle) are proved
  on the same nodes.
- `TxTypes.dfy`, `TxSpec.dfy`: the packets, and what each region that holds the TX lock computes,
  as functions on values.
- `TxEngine.dfy`: the concurrent model of one endpoint. A step is one lock-held region of one
  thread, or an answer of HIF, runtime PM or the target. Any number of threads may call in.
- `TxInvariants.dfy`, `TxTheorems.dfy`: what every step keeps, and what therefore holds after
  every run: mutual exclusion, conservation of credits, exactly-once, order, no lost wakeup.
- `TxLosses.dfy`, `TxWitnesses.dfy`: exactly when a run loses credits or runtime-PM references,
  and runs that do.
- `HtcEndpoint.dfy`: the endpoint as an object whose methods follow the code loop by loop. It
  carries the concurrent model and the run since the endpoint was connected. Wherever the code
  has released the TX lock, other threads, HIF and the target take any legal steps they like, as
  an oracle says; every method is proved to keep the fields equal to the model's state after a
  legal run, so the theorems about runs hold of the object between any two lock-held regions.
  A drain can be kept busy by callers; what is proved is that it takes no more turns than packets
  were queued at its start and accepted since.
- `LinkedEndpoint.dfy`: the lock-held regions once more, on linked queues. Each does to the packets
  its queues carry what the function of `TxSpec.dfy` does that the object and the model are built on.
- `Bundle.dfy`: packing several messages into one transfer, and what becomes of order and credits.
- `BundleSender.dfy`: the object that packs, submits and requeues: the loop of
  `htc_issue_packets_bundle`, the loop of `htc_issue_packets` around it with its single sends, and
  one pass of the drain loop.
- `CreditAllocation.dfy`: from the target's credit count to the endpoints. Its main result joins
  the allocation with the runs of all endpoints.
- `Trailer.dfy`, `RxReassembly.dfy`: the receive side.
- `CfgStores.dfy`, `RateFilter.dfy`: the configuration stores and the rate average.
- `Common.dfy`: an option type, a constant, and a little arithmetic on numbers and sequences.

## What the code does not keep

Where a property one would expect fails, the code is modelled as it is, the condition under which
it holds is proved, and an input shows the failure:

- Runtime-PM references: a failed send of AUTO_PM packets puts references that were never taken,
  and a RUNTIME_PUT packet gives its reference back when sent (`htc/htc_send.c:838`, 918-922) and
  again when completed (2339); lost and flushed packets keep theirs (`TxLosses.PmBalancedIff`,
  `TxLosses.PmForgottenIff`; `TxWitnesses.FailedPmSendOverPuts`,
  `TxWitnesses.RuntimePutPutsTwice`).
- Leaked credits: a failure before HIF sees a packet reclaims nothing. Credits leak exactly if the
  endpoint charges its packets and such a failure ever met a packet (`TxLosses.LeakedIffGaveUp`),
  and the loss can leave a packet waiting although the target was never asked for credits
  (`TxWitnesses.LeakHidesStarvation`).
- Bundle padding rounds up to whole credits only in the cases `Bundles.PadRoundsUpIff` lists
  (`Bundles.PaddingFallsShort`).
- Bundles: a refused bundle goes back to the TX queue behind everything that HIF still takes in the
  same call. Over one pass of the drain loop messages are delivered in the order given exactly if
  every transfer but the last was taken, and the last too if messages were left over
  (`Bundles.DeliveryOrderIff`, `BundleSenders.BundleSender.SendPass`,
  `BundleSenders.RefusedBundleReorders`); several refused bundles are also reversed among themselves
  (`Bundles.OrderKeptIff`). The credits of a refused bundle are not reclaimed, its messages are
  charged again when they are dequeued again, and away from endpoint 0 that is a loss exactly if a
  bundle was refused (`BundleSenders.ChargedAgain`, `BundleSenders.RefusedBundlesLeakIff`).
- Bundles: the loop does not ask whether a message fits an empty bundle. A first message that does
  not is preceded by the submission of an empty buffer, and a call that gets to its end stays inside
  its buffers exactly if every message but the last has room in an empty one
  (`BundleSenders.BundleSender.IssuePacketsBundle`, `Bundles.OutgrownIff`,
  `BundleSenders.OversizedOutgrows`).
- Credit allocation: what services connected once are given stays within the target's credits
  exactly if the table does (`CreditAllocation.EndpointsFitIff`). A service connected to two
  endpoints is given its credits twice (`CreditAllocation.TwiceConnectedOversubscribes`), and a
  restart with fewer WMI endpoints leaves old entries in the table
  (`CreditAllocation.FewerEndpointsOversubscribe`).
- A frame whose first piece is shorter than the header is reassembled by luck only
  (`RxReassembly.ReassembledIff`, `RxReassembly.ShortFirstPieceFails`), and a frame that overshoots
  its length swallows what follows (`RxReassembly.OvershootSwallowsAll`,
  `RxReassembly.OvershootHappens`).
- The rate filter overflows for samples from 2^24 kbit/s on (`RateFilter.CodeFollowsFilterIff`,
  `RateFilter.OverflowAt24Bits`); no rate of the tables in `dp/cmn_dp_api/dp_ratetable.c` is that
  high (`RateFilter.TableRatesFit`). One of its callers, `dp/wifi3.0/dp_rx_mon_status.c:496`,
  discards the new average.

The comment at `htc/htc_packet.h:216` says tail for a macro that enqueues at the head; the model
follows the macro.

## Model

| member | source | states |
|---|---|---|
| DlList.InitList | htc/dl_list.h:41-42 | makes the head a well-formed circular list of nothing, whatever its links were |
| DlList.InitAndAdd | htc/dl_list.h:45-50 | makes a list of exactly the given item |
| DlList.IsEmpty | htc/dl_list.h:52-53 | the pointer test is true exactly when the list has no items |
| DlList.IsEntryInList | htc/dl_list.h:65-79 | true exactly for the head itself and the items |
| DlList.InsertTail | htc/dl_list.h:100-109 | appends the item and keeps the circular list well-formed |
| DlList.InsertHead | htc/dl_list.h:114-122 | prepends the item and keeps the circular list well-formed |
| DlList.Remove | htc/dl_list.h:128-138 | takes out exactly the given item, wherever it is, and leaves it pointing to itself |
| DlList.RemoveItemFromHead | htc/dl_list.h:143-153 | returns and removes the first item, or nothing from an empty list |
| DlList.RemoveItemFromTail | htc/dl_list.h:155-165 | returns and removes the last item, or nothing from an empty list |
| DlList.TransferItemsToTail | htc/dl_list.h:168-181 | concatenates destination and source in that order and empties the source, also when a side is empty |
| DlList.TransferItemsToHead | htc/dl_list.h:184-197 | concatenates source and destination in that order and empties the source, also when a side is empty |
| PacketQueues.PacketQueue.Init | htc/htc_packet.h:204-208 | an empty queue of depth 0 |
| PacketQueues.PacketQueue.InitAndAdd | htc/htc_packet.h:294-298 | a queue of exactly the packet, of depth 1 |
| PacketQueues.PacketQueue.Enqueue | htc/htc_packet.h:211-214 | appends the packet; the cached depth stays the number of packets |
| PacketQueues.PacketQueue.EnqueueToHead | htc/htc_packet.h:217-220 | prepends the packet with exact depth |
| PacketQueues.PacketQueue.PacketAtHead | htc/htc_packet.h:224-232 | the first packet, or nothing exactly when the queue is empty |
| PacketQueues.PacketQueue.Remove | htc/htc_packet.h:235-239 | removes exactly the given packet with exact depth |
| PacketQueues.PacketQueue.Dequeue | htc/htc_packet.h:242-251 | returns and removes the first packet with exact depth |
| PacketQueues.PacketQueue.DequeueTail | htc/htc_packet.h:254-263 | returns and removes the last packet with exact depth |
| PacketQueues.PacketQueue.TransferToTail | htc/htc_packet.h:271-277 | the queue is its packets and then the source's; depths add up; the source is empty |
| PacketQueues.PacketQueue.TransferToHead | htc/htc_packet.h:285-291 | the queue is the source's packets and then its own, which is what the opposite transfer to the tail would hold |
| QueueScans.ExtractPmPackets | htc/htc_send.c:950-966 | splits the TX queue in place into its AUTO_PM packets and the others, each in order |
| QueueScans.PmNodesCarryPm | htc/htc_send.c:950-966 | the packets carried by the extracted nodes are the AUTO_PM packets of the specification |
| QueueScans.TakeByNetbuf | htc/htc_send.c:2273-2290 | removes the first packet with the netbuf, or leaves the queue alone if there is none |
| QueueScans.SpliceAndSearch | htc/htc_send.c:2264-2297 | splicing the lookup queue out, searching it and splicing it back keeps the order of all other packets |
| QueueScans.LookupTxPacket | htc/htc_send.c:2236-2298 | returns and removes exactly the first packet with the netbuf, on the fast and the slow path, and keeps the rest in order |
| QueueScans.EnqueueNext | htc/dl_list.h:84-95 | reading the successor before relinking a node keeps the links still to be walked intact |
| QueueScans.EnqueueEach | htc/htc_send.c:398-401 | the walk that relinks nodes without unlinking them ends and visits every packet once, in order |
| QueueScans.RequeueBundle | htc/htc_send.c:384-414 | after a failed bundle the TX queue is the saved packets and then its own, with exact depths, and the saved queue is empty |
| TxSpec.CreditsRequiredIsLeast | htc/htc_send.c:1103-1127 | the charge is the least positive number of credits that covers packet and header, away from endpoint 0 |
| TxSpec.GrabTakesPrefix | htc/htc_send.c:1068-1179 | the dequeue loop takes a prefix in order, records every credit it takes on a packet, never overdraws, and stops only at a blocked packet, an empty queue or a failed PM get |
| TxSpec.GrabFlags | htc/htc_send.c:1147-1174 | a packet asks for credits exactly when charging it left no more than a maximum message needs |
| TxSpec.GrabByResourceTakesPrefix | htc/htc_send.c:1215-1271 | the loop without credit flow takes a prefix in order and charges nothing |
| TxSpec.GetPacketsIsPmFirst | htc/htc_send.c:1058-1182 | taken packets and then the TX queue are all AUTO_PM packets in order and then all others in order; PM references are taken for exactly the packets dequeued when no AUTO_PM packet was queued |
| TxSpec.DequeuedNetbufs | htc/htc_send.c:1168-1178 | dequeuing loses and duplicates no netbuf |
| TxSpec.Find | htc/htc_send.c:2273-2290 | the position of the first packet with a netbuf, or the end |
| TxSpec.WithoutSplices | htc/htc_send.c:2236-2298 | removing the first match cuts one packet out and splices the two sides |
| TxSpec.Room | htc/htc_send.c:1327-1366 | never admits more packets than were offered, whatever two unlocked depth readings say |
| TxSpec.KeptSplits | htc/htc_send.c:1380-1422 | the send-full callback keeps or refuses every overflowing packet, once |
| TxSpec.AdmitSplits | htc/htc_send.c:1327-1431 | every packet offered is admitted or left with the caller, once |
| TxInvariants.EnterInv | htc/htc_send.c:1441-1615 | entering the lock-held region, as drainer or not, keeps every invariant |
| TxInvariants.InvStep | htc/htc_send.c:1289-1620 | every step of any thread, of HIF and of the target keeps all invariants together |
| TxTheorems.ExecInv | htc/htc_send.c:1289-1620 | the invariants hold after every legal run |
| TxTheorems.AtMostOneDrainer | htc/htc_send.c:1462-1474 | TxProcessCount is the number of threads in the drain section and at most one, under any interleaving |
| TxTheorems.CreditsAreConserved | htc/htc_send.c:1121-1178 | initial and reported credits are those on the endpoint, on packets the drainer holds, on packets HIF took, and leaked; the endpoint never owes any |
| TxTheorems.TargetNotOversubscribed | htc/htc_send.c:1129-1143 | credits outstanding at the target never exceed the endpoint's allocation, nor the host's credits if the target reports only what it was sent |
| TxTheorems.EveryPacketExactlyOnce | htc/htc_send.c:1289-1620 | a netbuf is in at most one of the TX queue, the drainer's hands and the lookup queue, and however often it was offered, every offer is still held or was answered once as refused, completed, cancelled, released or lost |
| TxTheorems.CompletionFindsPacket | htc/htc_send.c:819-852 | a completion finds its packet exactly unless a flush released it while HIF held it, because recording for lookup precedes the send; ul_outstanding_cnt is exactly what HIF has yet to answer for |
| TxTheorems.DisturbedIff | htc/htc_send.c:1443-1452 | the model's account of disturbed classes is exactly: some step put a nodrop packet in front of others of its class, flushed queued ones, or lost one for want of a header address |
| TxTheorems.OrderKeptIff | htc/htc_send.c:1443-1460 | handed, held and queued packets of a tag class are the accepted ones in lock order, through all send failures and requeues, exactly if no step of the run put one of the class in front of others of it, flushed one or lost one |
| TxTheorems.FirstInFirstOutIff | htc/htc_send.c:1589-1594 | without AUTO_PM packets the engine is first in, first out under any pattern of send failures and concurrent callers, exactly if no such step happened |
| TxTheorems.NoStrandedPacket | htc/htc_send.c:1441-1615 | when no thread is inside and the last drain did not end on an error, the TX queue is empty or its head is out of credits |
| TxTheorems.MessageNeeds | htc/htc_services.c:339-342 | a message within MaxMsgLength needs at most one credit beyond TxCreditsPerMaxMsg |
| TxTheorems.StarvationIsSignalled | htc/htc_send.c:1147-1174 | if the head waits for credits, nobody drains and nothing leaked, the last packet HIF took asked for credits |
| TxLosses.PmReferences | htc/htc_send.c:1069-1096 | runtime-PM references are those of packets in flight, corrected by the puts without a get and the gets without a put |
| TxLosses.StepLedger | htc/htc_send.c:753-922 | which steps leak credits, put a reference too many or too early, or forget one, exactly |
| TxLosses.RunLedger | htc/htc_send.c:753-922 | what a run has lost of a kind grows exactly when some step of it takes that exit |
| TxLosses.PmBalancedIff | htc/htc_send.c:1582-1587 | in a run that forgets no reference, gets and puts balance exactly when no failed drain put back an AUTO_PM packet and no RUNTIME_PUT packet was sent |
| TxLosses.PmForgottenIff | htc/htc_send.c:2484-2510 | in a run without puts too many, they balance exactly when no reference was forgotten |
| TxLosses.LeakedIff | htc/htc_send.c:753-814 | credits have leaked exactly if some step put back or lost charged packets without reclaiming |
| TxLosses.GrabBilled | htc/htc_send.c:1103-1174 | away from endpoint 0 every packet a drain takes was charged at least one credit, on endpoint 0 none |
| TxLosses.BilledStep | htc/htc_send.c:1289-1620 | what drainers hold stays charged in that way, whoever steps |
| TxLosses.LeakedIffGaveUp | htc/htc_send.c:753-814 | credits have leaked exactly if the endpoint charges packets and htc_issue_packets ever gave up on one for want of padding credit, a header address or a mapping |
| TxWitnesses.FailedPmSendOverPuts | htc/htc_send.c:1582-1587 | a legal run in which one failed map of an AUTO_PM packet leaves the reference count at -1 |
| TxWitnesses.RuntimePutPutsTwice | htc/htc_send.c:830-922 | a legal run without any failure in which one RUNTIME_PUT packet, sent and completed, leaves it at -1 |
| TxWitnesses.LeakHidesStarvation | htc/htc_send.c:804-814 | a legal run after which the head waits for a credit, the target was never asked for one and no thread is left to ask |
| HtcEndpoints.SurplusFalls | htc/htc_send.c:1441-1551 | nobody but a drainer putting packets back lets the TX queue grow by more than was accepted |
| HtcEndpoints.OthersStep | htc/htc_send.c:1462-1474 | a step of someone else leaves a thread where it is, and while that thread drains the TX queue grows only by what was accepted |
| HtcEndpoints.HtcEndpoint.Unlocked | htc/htc_send.c:1553-1555 | while the lock is free others take any legal steps; the run grows by them, the fields follow, and this thread's phase stays |
| HtcEndpoints.HtcEndpoint.CreditsFor | htc/htc_send.c:1103-1127 | computes the specified charge |
| HtcEndpoints.HtcEndpoint.DequeueCharged | htc/htc_send.c:1067-1179 | the loop takes, charges and flags exactly what the specification says, and takes PM references for what it takes |
| HtcEndpoints.HtcEndpoint.DequeueByResource | htc/htc_send.c:1214-1271 | the loop by transmit resources takes exactly what the specification says |
| HtcEndpoints.HtcEndpoint.ExtractPm | htc/htc_send.c:950-966 | splits the TX queue by tag on the WMI endpoint only |
| HtcEndpoints.HtcEndpoint.GetSendPackets | htc/htc_send.c:1039-1278 | both dequeue functions do what GetPackets says, including giving PM packets back to the head |
| HtcEndpoints.HtcEndpoint.DrainPass | htc/htc_send.c:1487-1551 | the top of the drain loop |
| HtcEndpoints.HtcEndpoint.ReclaimCredits | htc/htc_send.c:907-912 | adds back what the packets of the local queue were charged, no more |
| HtcEndpoints.HtcEndpoint.RecordOne | htc/htc_send.c:819-830 | recording a packet is the model's Record step |
| HtcEndpoints.HtcEndpoint.AcceptOne | htc/htc_send.c:852-922 | an accepted packet is the model's HifAccepts step |
| HtcEndpoints.HtcEndpoint.RefuseOne | htc/htc_send.c:889-916 | a refused packet leaves the lookup queue, goes back to the head and credits are reclaimed: the model's HifRefuses step |
| HtcEndpoints.HtcEndpoint.SendOne | htc/htc_send.c:819-922 | one packet is recorded, and HIF's answer comes after whatever others did meanwhile |
| HtcEndpoints.HtcEndpoint.IssuePackets | htc/htc_send.c:702-925 | issuing a queue extends the run legally, for every pattern of answers and of steps of others between the lock-held regions, and says which packets are left |
| HtcEndpoints.HtcEndpoint.AdmitPackets | htc/htc_send.c:1316-1433 | overflow handling admits, leaves and drops exactly what Admit says |
| HtcEndpoints.HtcEndpoint.EnterLocked | htc/htc_send.c:1441-1551 | the region up to the first unlock is Enter |
| HtcEndpoints.HtcEndpoint.PutBackLocked | htc/htc_send.c:1582-1613 | an error puts PM references and the packets back and lets the next drainer in |
| HtcEndpoints.HtcEndpoint.DrainRound | htc/htc_send.c:1553-1608 | one turn of the drain loop, with others acting at every unlock, extends the run legally and takes at least one packet or leaves the section |
| HtcEndpoints.HtcEndpoint.DrainOn | htc/htc_send.c:1487-1615 | any number of turns of the drain loop extend the run legally; when it is done the thread is outside, and it is done after as many turns as packets were queued at the start and accepted since |
| HtcEndpoints.HtcEndpoint.TrySend | htc/htc_send.c:1289-1620 | the offer is answered as Admit says, and all that happens up to the end of the call, in any interleaving, is a legal run that starts with the offer and leaves this thread outside the drain section |
| HtcEndpoints.HtcEndpoint.TrySendNull | htc/htc_send.c:2403-2429 | the same for a call without packets, as kicks and completions make it |
| HtcEndpoints.HtcEndpoint.ProcessCreditEntry | htc/htc_send.c:2585-2656 | a credit entry is added and, if credits and packets are there, the queue is kicked after the lock was released and others may have acted |
| HtcEndpoints.HtcEndpoint.TxCompletion | htc/htc_send.c:2326-2365 | a completion of a packet sent on its own finds the first match, is the model's HifCompletes step, and without credit flow kicks the queue |
| HtcEndpoints.HtcEndpoint.FlushTx | htc/htc_send.c:2465-2481 | every queued packet is cancelled in order and the queue is empty |
| HtcEndpoints.DrainTopShrinks | htc/htc_send.c:1487-1551 | a pass never lengthens the TX queue and shortens it if it takes a packet |
| LinkedEndpoints.MoveHead | htc/htc_send.c:1144-1178 | the charged packet at the head of one linked queue goes to the tail of another |
| LinkedEndpoints.LinkedEndpoint.constructor | htc/htc_services.c:296-342 | empty linked queues and the credits given: an endpoint of the specification |
| LinkedEndpoints.LinkedEndpoint.ChargeHead | htc/htc_send.c:1103-1174 | charges the head as one step of the specified dequeue, or gives the PM reference back when it must stay |
| LinkedEndpoints.LinkedEndpoint.DequeueCharged | htc/htc_send.c:1067-1179 | on linked queues the loop takes, charges and flags exactly the packets the specification says and moves them to the send queue in order |
| LinkedEndpoints.LinkedEndpoint.DequeueByResource | htc/htc_send.c:1214-1271 | the same for the loop by transmit resources |
| LinkedEndpoints.LinkedEndpoint.ExtractPm | htc/htc_send.c:950-966 | splits the linked TX queue by tag on the WMI endpoint only |
| LinkedEndpoints.LinkedEndpoint.GetSendPackets | htc/htc_send.c:1039-1278 | on linked queues both dequeue functions do what GetPackets says, with AUTO_PM packets that stay linked back in front |
| LinkedEndpoints.LinkedEndpoint.DrainPass | htc/htc_send.c:1487-1551 | the top of the drain loop on linked queues is DrainTop |
| LinkedEndpoints.LinkedEndpoint.EnterLocked | htc/htc_send.c:1441-1551 | from taking the lock to its first release, the linked queues, the local queue and the fields change as Enter says |
| LinkedEndpoints.LinkedEndpoint.RecordNext | htc/htc_send.c:736-830 | the next packet's node moves from the local queue to the tail of the lookup queue, and it is counted |
| LinkedEndpoints.LinkedEndpoint.RefuseOne | htc/htc_send.c:889-916 | the refused packet's node is unlinked from the lookup queue, linked at the head of the local one, and the charges of all in it are reclaimed |
| LinkedEndpoints.LinkedEndpoint.ReclaimCredits | htc/htc_send.c:907-912 | walking the links adds up exactly what the packets were charged |
| LinkedEndpoints.LinkedEndpoint.PutBack | htc/htc_send.c:1582-1613 | one PM put for each packet of the local queue, which is spliced in front of the TX queue |
| LinkedEndpoints.LinkedEndpoint.Completed | htc/htc_send.c:2236-2340 | a completion unlinks the first packet with the netbuf and changes the endpoint as Complete says |
| Bundles.PadRoundsUpIff | htc/htc_send.c:563-569 | padded length is whole credits exactly when the transfer fits one credit, is whole credits already, or overshoots by half a credit |
| Bundles.PaddingFallsShort | htc/htc_send.c:563-569 | a transfer of 130 bytes with credits of 100 is padded to 160 |
| Bundles.UnpackInvertsPacked | htc/htc_send.c:600-651 | whoever knows the length and the room of each message takes every message out of a bundle, even if the padding behind the last was cut |
| Bundles.CoveredSlot | htc/htc_send.c:634-649 | a message whose fragments cover it goes out whole, in the room the loop reckoned with |
| Bundles.CoveredMissNothing | htc/htc_send.c:592-612 | messages covered by their fragments miss nothing of the room reckoned with, so bytes placed and space remaining add up to the bundle size exactly |
| Bundles.OneCreditTransfer | htc/htc_send.c:562-569 | a message of at most one credit with header takes one whole credit |
| Bundles.BundleCounts | htc/htc_send.c:571-617 | no bundle holds more than MaxMsgsPerHTCBundle messages, whatever their lengths; if all messages need one credit, every bundle but the last holds exactly that many |
| Bundles.OutgrownIff | htc/htc_send.c:571-617 | a call that gets to its end leaves its buffer exactly if a message other than the last has no room in an empty bundle |
| Bundles.RefusedShape | htc/htc_send.c:384-414 | nothing comes back exactly when nothing was refused, and only what was submitted comes back |
| Bundles.OrderKeptIff | htc/htc_send.c:384-414 | refused bundles come back in order among themselves exactly when at most one was refused |
| Bundles.DeliveryOrderIff | htc/htc_send.c:384-414 | of any list of transfers and what is left: taken ones, what is left and what came back are the messages in the order given exactly if every transfer but the last was taken, and the last too if messages were left; that this is what a pass delivers is BundleSenders.BundleSender.SendPass |
| Bundles.ChargeSplits | htc/htc_send.c:384-414 | credits charged to bundled messages are with bundles HIF took or with messages queued again |
| Bundles.BundleLeakIff | htc/htc_send.c:384-414 | where every message was charged, messages that came back carry a charge exactly if a bundle was refused; that they are charged once more is BundleSenders.ChargedAgain |
| Bundles.NothingLost | htc/htc_send.c:384-414 | messages of refused bundles and of taken ones are together those of all bundles |
| Bundles.ProperAt | htc/htc_send.c:571-581 | every bundle is decodable, fits its buffer, and was closed only because the next message did not fit |
| Bundles.FilledSnoc | htc/htc_send.c:618-651 | adding a message keeps the buffer decodable, and bytes placed and bytes missing of uncovered messages are together exactly the room reckoned with |
| Bundles.SubmitFilled | htc/htc_send.c:571-581 | submitting the buffer keeps submitted messages and the rest equal to the input, in order |
| BundleSenders.BundleSender.CopyFragments | htc/htc_send.c:634-646 | copies exactly what the fragments hold of the message and its header, cutting the last fragment, and nothing before it |
| BundleSenders.BundleSender.PlaceMessage | htc/htc_send.c:561-651 | a placed message occupies its transfer length, and the bytes placed stay decodable |
| BundleSenders.BundleSender.SendBundled | htc/htc_send.c:366-416 | a taken bundle can be looked up; a refused one goes back in front of the TX queue and leaves nothing else behind, no credit reclaimed |
| BundleSenders.BundleSender.FillBundles | htc/htc_send.c:552-664 | for messages of any size: as long as the next message stays inside its buffer, bytes placed, bytes missing and space remaining add up to the bundle size at every turn, and the bundles submitted are proper and the messages in order |
| BundleSenders.BundleSender.IssuePacketsBundle | htc/htc_send.c:523-665 | submitted bundles and then what is left are the input in order, every bundle is proper, the queues hold what the submitted bundles leave, TxCredits stays, messages are left only for want of a buffer, of padding credit, or of a second message, and a call that gets to its end leaves its buffer exactly if a message but the last has no room in an empty one |
| BundleSenders.BundleSender.SendSingle | htc/htc_send.c:819-916 | a message sent by itself can be looked up once taken; refused, it leaves the queues as they were and the charge of all that is left is reclaimed |
| BundleSenders.BundleSender.IssuePackets | htc/htc_send.c:702-925 | bundles and single sends together: transfers, the message lost for want of a header address, and what is left are the input in order; credits are reclaimed for what is left exactly when HIF refused a single send |
| BundleSenders.BundleSender.SendPass | htc/htc_send.c:1553-1613 | what HIF took and then the TX queue are the messages taken, those left, those that came back and the old queue; they are the messages in the order given exactly if no transfer was refused in front of another or of what was left |
| BundleSenders.ChargedAgain | htc/htc_send.c:1068-1179 | messages dequeued, bundled, refused and dequeued again: credits after the second dequeue, charges of it, of what is left, of bundles taken and, a second time, of messages that came back make up the credits at the start |
| BundleSenders.RefusedBundlesLeakIff | htc/htc_send.c:384-414 | for messages charged by the dequeue loop away from endpoint 0, that second charge loses credits exactly if a bundle was refused |
| BundleSenders.RefusedBundleReorders | htc/htc_send.c:523-665 | four messages, two to a bundle, the first bundle refused: after the modelled sender has sent the rest, what HIF took and the TX queue are out of order |
| BundleSenders.OversizedOutgrows | htc/htc_send.c:571-617 | a message of three credits before another, two credits to a bundle: the loop leaves its buffer |
| CreditAllocation.LastMatchWins | htc/htc.c:562-567 | the last entry of a service is the one that counts |
| CreditAllocation.ShareOf | htc/htc.c:529-566 | a WMI service gets its share and every other service nothing |
| CreditAllocation.SharesFit | htc/htc.c:529-535 | the shares of all WMI services together never exceed the total, even truncated to 8 bits |
| CreditAllocation.EndpointCreditsExact | htc/htc_services.c:126-337 | endpoints hold one share for each endpoint that serves a WMI service |
| CreditAllocation.GivenWithinTable | htc/htc_services.c:126-337 | if every service is connected once, the endpoints are given at most what the table holds |
| CreditAllocation.EndpointsFitIff | htc/htc_services.c:126-337 | services connected once are sure to stay within a total exactly if the table does |
| CreditAllocation.SharesSum | htc/htc.c:529-535 | a freshly set-up table holds one share for each service |
| CreditAllocation.EndpointsFit | htc/htc_services.c:126-337 | with such a table and every service connected once, all endpoints together get at most the target's credits |
| CreditAllocation.OutstandingWithin | htc/htc_send.c:1129-1143 | the credits outstanding over all endpoints never exceed what these were given |
| CreditAllocation.TargetCreditsSuffice | htc/htc.c:516-576 | however all endpoints' runs go, the target is never sent more than the credits it announced |
| CreditAllocation.StartTarget | htc/htc.c:629-700 | a created and started target whose services are each connected once, whatever target and HIF answer: however all endpoints then run, no more credits are outstanding than were announced |
| CreditAllocation.TwiceConnectedOversubscribes | htc/htc_services.c:126-337 | a started target on which one service was connected to two endpoints and given more than the target has |
| CreditAllocation.FewerEndpointsOversubscribe | htc/htc.c:516-535 | a target restarted with fewer WMI endpoints, each service connected once, given more than the target has |
| CreditAllocation.CreditsPerMaxMsgIsLeast | htc/htc_services.c:339-342 | TxCreditsPerMaxMsg is the least number of credits that covers a maximum message |
| CreditAllocation.Target.constructor | htc/htc.c:325-337 | a zeroed target: empty table, unused endpoints, one WMI endpoint |
| CreditAllocation.Target.ResetEndpointStates | htc/htc.c:717-737 | every endpoint is unused again and keeps its credits |
| CreditAllocation.Target.SetupAssignments | htc/htc.c:465-556 | fails exactly for an endpoint count of zero or beyond the known services, and otherwise gives the counted services equal shares and leaves all other entries |
| CreditAllocation.Target.GetCreditAllocation | htc/htc.c:557-576 | the scan finds the last matching entry |
| CreditAllocation.Target.ConnectService | htc/htc_services.c:113-394 | sets up exactly one unused endpoint, with the allocation and rounding specified, or none; a service without a pipe fails but keeps its endpoint |
| CreditAllocation.Target.WaitTarget | htc/htc.c:629-700 | the total is the smaller of the announced and the configured credits; with no credits or no credit size it fails; otherwise the table is set up and the control endpoint connected if it is unused, on a first start and on any later one |
| Trailers.ParseSplits | htc/htc_recv.c:659-722 | parsing splits the buffer into whole records and a rest, and no whole record starts the rest |
| Trailers.ParseJoin | htc/htc_recv.c:659-722 | whole records in front of anything are parsed as they are |
| Trailers.ParseIsLongest | htc/htc_recv.c:659-722 | any other way to start the buffer with whole records is a prefix of the parsed one |
| Trailers.ParsesWholeIff | htc/htc_recv.c:659-728 | nothing is left exactly when the buffer is a concatenation of whole records, which are then the parsed ones |
| Trailers.ReportsInvertEncode | htc/htc_send.c:2585-2640 | reading inverts writing credit reports |
| Trailers.BadEndpointStops | htc/htc_send.c:2587-2592 | a report for an endpoint that does not exist discards all reports behind it |
| Trailers.TrailerRoundTrip | htc/htc_recv.c:659-728 | the credits a target writes into a trailer, among other records, are the credits the host applies |
| Trailers.ReportsIntoIsReports | htc/htc_send.c:2585-2640 | walking through reports in the buffer reads the reports of the payload |
| Trailers.WalkIsParse | htc/htc_recv.c:659-728 | the walk of the loop ends where parsing ends, accepts exactly what parses without rest, and adds what the parsed records say |
| Trailers.TrailerReader.NextRecord | htc/htc_recv.c:659-722 | one turn of the loop is one step of the walk, or stops where that stops |
| Trailers.TrailerReader.ProcessCreditReport | htc/htc_send.c:2585-2656 | reads as many reports as the length holds, inside the buffer, up to an endpoint that does not exist |
| Trailers.TrailerReader.ApplyRecord | htc/htc_recv.c:690-716 | a record of another kind changes nothing |
| Trailers.TrailerReader.ProcessTrailer | htc/htc_recv.c:638-728 | for every buffer and length it ends, reads only inside, succeeds exactly when the walk reaches the end, and applies exactly what the walk says |
| RxReassembly.ReceiveSound | htc/htc_recv.c:250-268 | while a frame is in progress something is queued and its length is not the expected one |
| RxReassembly.MissedStaysQueued | htc/htc_recv.c:253-268 | while the expected length is missed every netbuf is queued, in order |
| RxReassembly.OvershootSwallowsAll | htc/htc_recv.c:253-268 | a frame past its expected length is not delivered, whatever follows, until 4 GiB are queued |
| RxReassembly.WholeFramePasses | htc/htc_recv.c:271-319 | a netbuf that holds its whole frame passes untouched |
| RxReassembly.RestIff | htc/htc_recv.c:250-268 | the rest of the pieces complete a frame exactly when they hit the awaited length; hit early, the header is read again |
| RxReassembly.ReassembledIff | htc/htc_recv.c:317-329 | a split frame is delivered byte for byte exactly when the header read from the first piece names a valid endpoint and a length that a later piece hits |
| RxReassembly.HeaderInFirstPieceSuffices | htc/htc_recv.c:317-329 | if the first piece holds the header, every split is delivered byte for byte and the state is reset |
| RxReassembly.ShortFirstPieceFails | htc/htc_recv.c:271-319 | a frame whose first piece holds half of the header is not reassembled |
| RxReassembly.OvershootHappens | htc/htc_recv.c:253-268 | a netbuf with the end of one frame and the start of the next takes the total past the length awaited |
| RxReassembly.Receiver.RxSgToSingleNetbuf | htc/htc_recv.c:181-229 | every queued byte in order in one netbuf, or nothing for fewer than two pieces or without memory; the state is reset either way |
| RxReassembly.Receiver.RxCompletion | htc/htc_recv.c:231-329 | does what Receive says; CurRxSgTotalLen is the summed length of the queue, 0 when idle, and the short-queue failure never fires |
| RxReassembly.Receiver.Dispatch | htc/htc_recv.c:271-329 | a netbuf outside reassembly is dropped, passed on or starts a frame as Examine says |
| RxReassembly.Receiver.Flush | htc/htc_recv.c:222-229 | empties the queue and resets the state |
| CfgStores.NewValueGoodIff | cfg/src/cfg.c:76-276 | an item of any kind ends with a value it may have exactly when it had one or the line is acceptable: a number that fits or is clamped between sensible bounds, a text of fitting length, a flag or address that parses |
| CfgStores.ParsedWellFormed | cfg/src/cfg.c:339-358 | parsing any file leaves every item, of whatever kind, with a value it may have |
| CfgStores.FirstIsFirst | cfg/src/cfg.c:440-465 | the store found is the first listed one with the path |
| CfgStores.PsocsAddUp | cfg/src/cfg.c:662-709 | every psoc uses exactly one listed store |
| CfgStores.Config.UsersAddUp | cfg/src/cfg.c:467-471 | the users of all stores are the global pointer and one per psoc: no reference is lost or counted twice |
| CfgStores.Config.NothingLeft | cfg/src/cfg.c:742-763 | with no global store and no psoc the list is empty |
| CfgStores.Config.StoreAlloc | cfg/src/cfg.c:383-421 | a new store has one user and is listed last; without memory nothing changes |
| CfgStores.Config.StoreFree | cfg/src/cfg.c:423-438 | takes exactly the store off the list |
| CfgStores.Config.StoreGet | cfg/src/cfg.c:440-465 | finds the first store with the path and counts one more user on it alone |
| CfgStores.Config.StorePut | cfg/src/cfg.c:467-471 | the last user frees the store, and nobody else does |
| CfgStores.Config.ParseToStore | cfg/src/cfg.c:489-501 | the items of the file are handled in order |
| CfgStores.Config.CfgParse | cfg/src/cfg.c:765-794 | makes the global store from the defaults and the file, or leaves everything as it was |
| CfgStores.Config.CfgRelease | cfg/src/cfg.c:796-806 | drops the global reference; the store stays exactly if a psoc uses it |
| CfgStores.Config.OnPsocCreate | cfg/src/cfg.c:662-692 | the psoc shares the global store, or nothing changes |
| CfgStores.Config.OnPsocDestroy | cfg/src/cfg.c:694-709 | the psoc's store stays exactly if it is global or another psoc uses it |
| CfgStores.Config.PsocParse | cfg/src/cfg.c:808-863 | a psoc on the global store moves to the first store of the path, or to a new one made from the global values; no store of others is freed or changed, also for the global path itself and after a failed parse |
| CfgStores.Config.DispatcherDeinit | cfg/src/cfg.c:742-763 | once all psocs are gone the list is empty exactly when the global store was released, as the code asserts |
| RateFilter.LpfQuotient | dp/cmn_dp_api/dp_ratetable.h:68-73 | unsigned 64-bit arithmetic gives the signed quotient even for a wrapped sample |
| RateFilter.LpfIsFilterIff | dp/cmn_dp_api/dp_ratetable.h:66-73 | of any average, wrapped or not, the code computes seven parts old and one part new exactly when the scaled sample and the result fit an int |
| RateFilter.CodeFollowsFilterIff | dp/cmn_dp_api/dp_ratetable.h:66-73 | over a whole run the code's averages are the filter's exactly when every sample fits |
| RateFilter.OverflowAt24Bits | dp/cmn_dp_api/dp_ratetable.h:66-73 | a first sample of 2^24, the least that does not fit, becomes the average -2^31 |
| RateFilter.AverageBounded | dp/cmn_dp_api/dp_ratetable.h:68-73 | averages of samples in lo..hi stay within 128 lo - 7 and 128 hi over every run |
| RateFilter.OutRounds | dp/cmn_dp_api/dp_ratetable.h:75-83 | reading out rounds to the nearest rate, by at most 64/128 |
| RateFilter.RateBetweenSamples | dp/cmn_dp_api/dp_ratetable.h:66-83 | the rate read out lies between the least and the greatest sample |
| RateFilter.FixedIff | dp/cmn_dp_api/dp_ratetable.h:68-73 | a sample leaves the average alone exactly when it is at most 7 below it, and otherwise brings it nearer |
| RateFilter.GapShrinks | dp/cmn_dp_api/dp_ratetable.h:68-73 | every sample takes an eighth off its distance to the average, up to rounding |
| RateFilter.ComesNear | dp/cmn_dp_api/dp_ratetable.h:68-73 | repeating a sample brings the average within any goal of at least 7 in as many steps as eighths must come off, for good |
| RateFilter.Converges | dp/cmn_dp_api/dp_ratetable.h:66-83 | so it becomes the rate read out in as many steps as bring the distance below half a rate, for good |
| RateFilter.Rests | dp/cmn_dp_api/dp_ratetable.h:66-73 | in the end the average rests at most 7 below the sample |

## Left out

- TxEngine: bundling, async_update endpoints, `htc_send_data_pkt` and USB single-pipe scheduling use other locking and are not in the concurrent model; a run has one endpoint, and a credit report with several entries is one event per entry and endpoint.
- TxEngine.FlushLookupQueue: only while no thread drains, as at shutdown; a flush that races with a send in progress is not modelled.
- TxEngine.HifAccepts: HIF taking a packet and `hif_send_head` returning are one step, so a completion that overtakes the return is not distinguished from one just after it.
- TxEngine.TrySend: reading the queue depth before taking the lock is modelled by two arbitrary readings; the EpSendFull callback by the set of packets it keeps.
- TxEngine.Fresh: a caller offers a netbuf only while neither HTC nor HIF holds it, and offers AUTO_PM packets only on the WMI endpoint, as the driver does.
- TxTheorems.StarvationIsSignalled: assumes a header of at most one credit and payloads within MaxMsgLength, on which the rounding in `htc_connect_service` rests.
- DlList.DlNode: a packet and its list link are one object, since the link is the first member of the packet and the code casts between them.
- HtcEndpoints.HtcEndpoint.DrainOn: runs a given number of turns, since callers that never stop can keep the drain busy for ever.
- HtcEndpoints.HtcEndpoint: other threads act as steps of the concurrent model, not as calls of the same methods; each method is proved for any thread. Its queues are sequences; the same lock-held regions on linked queues are LinkedEndpoints.LinkedEndpoint, which no other threads act on.
- BundleSenders.BundleSender: requires that fragments hold the frame header, which the code relies on without checking. Where the code would leave its buffer the model stops. Padding credits of SDIO are an oracle that may stop the loop, and what `htc_handle_extra_tx_credit` appends is not in the buffer. No other thread acts during a call, and runtime PM is not counted here.
- Writing frame-header fields, sequence numbers and flags into buffers; DMA mapping; netbuf headroom.
- The free list of bundle packets, statistics, credit history, hang events and debug dumps.
- Trailers.TrailerReader.ProcessTrailer: fields of record headers and credit reports are single bytes at positions that are parameters, since their layout is not part of the repository; the kick after each credit report is HtcEndpoints.HtcEndpoint.ProcessCreditEntry.
- RxReassembly.Receiver.RxCompletion: calls are serialised, less than 4 GiB may be queued, where the 32-bit total is the total, and what happens to a complete frame after the length check is not followed.
- CreditAllocation.Target.SetupAssignments: the epping mode, which hands out more than the total on purpose, and alternative credit sizes of SDIO.
- CreditAllocation.Target.ConnectService: the exchange with the target is its answer, present or not; metadata, callbacks and connect flags are not modelled.
- CfgStores.Config: callers are serialised; INI files are the items read from them and whether the file ended well; what the parsers of `qdf/src/qdf_types.c` make of a text is given; printing and registration with the object manager are not modelled.
- RateFilter.Average: the results about bounds and convergence are for runs whose samples fit; `CodeFollowsFilterIff` says when that matters.
