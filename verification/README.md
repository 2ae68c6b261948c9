# Verified models of nine ns-2 components

The network simulator ns-2 contains protocols and algorithms whose correctness rests on invariants that no
single function shows. This project models nine of them and proves those invariants.

| files | component | source |
|---|---|---|
| `AomdvTable`, `AomdvProtocol`, `AomdvNetwork`, `AomdvPaths`, `AomdvAnswers`, `AomdvSearch`, `AomdvAgent`, `AomdvRuns` | AOMDV multipath routing | `aomdv/aomdv.cc`, `aomdv/aomdv_rtable.cc` |
| `AodvProtocol`, `AodvNetwork`, `AodvAnswers`, `AodvLosses`, `AodvSearch`, `AodvExamples`, `AodvAgent`, `AodvRuns` | AODV routing | `aodv/aodv.cc`, `aodv/aodv_rtable.cc` |
| `MaxMin`, `Filling`, `Asim` | rate allocation by progressive filling | `asim/asim.cc` (the loop of `asim/asimstd.cc` is the same) |
| `Reassembly`, `ReassemblyOverlap`, `ReassemblyFin`, `ReassemblyQueue` | BayTCP reassembly queue and data path | `baytcp/tcp-full-bay.cc` |
| `Reservation`, `ReservationAgent` | reservation signalling over many links | `adc/salink.cc`, `adc/param-adc.cc`, `adc/sa.cc`, `tcp/saack.cc` |
| `TokenBucket`, `TokenBucketTight`, `TokenBucketAgent` | token bucket filter | `adc/tbf.cc` |
| `SendBuffer`, `SendBufferQueue` | packets that wait for a route | `aodv/aodv_rqueue.cc` (`aomdv/aomdv_rqueue.cc` is the same) |
| `LossMeter`, `LossMeterAgent` | IVS loss meter | `common/ivs.cc` |
| `Multicast`, `MulticastAgent` | multicast classifier | `classifier/classifier-mcast.cc`, `.h` |

`Common` holds the vocabulary. `dafny verify dfyconfig.toml` checks everything.

## How the models are built

Every component has two layers. The first is a set of functions on values: one function per operation, from the
old state and the input to the new state and the output. The second is the code in its own form: classes whose
methods change fields, arrays and linked lists in place, each proved equal to its function by a contract of the
form `(View(), out) == Operation(old(View()), input)`. The theorems are about the functions: about every state
that any finite run of events reaches, with any number of nodes, flows, links, packets or segments.

The two routing protocols run on a network that is the set of all packets ever sent. Delivery takes any packet of
that set at any time, so loss, duplication, delay and reordering of any kind are covered. In AOMDV any node may
receive any packet. In AODV a reply reaches only the node it is sent to. Timers may fire at any time, a neighbour
may be given up at any time, and any node may start a request at any time. In AODV an event at
which an assert of the code would fail is not part of a run; `AodvNetwork.AssertionsHold` says that without local
repair there is no such event, and `AomdvNetwork.AssertionsHold` that in AOMDV there never is.

Findings:

* AOMDV as configured (node-disjoint paths, no link-layer detection) is loop free without any side condition.
* AODV is loop free in runs without local repair, and in runs with local repair as long as no repair timer finds its
  route still under repair. The timer takes such an entry down without raising its number. `FreshnessIff` shows that
  a run keeps the freshness of every entry at every step exactly when this never happens, and `RepairLoop` is a run
  in which it happens and two neighbours end up pointing at each other.
* AODV's recvReply does not test whether the reply is about the node itself. A reordered reply can give a node a
  route to itself (`SelfRouteLoop`); `CyclesPassDestination` shows that every cycle of raw next hops passes through
  the destination, where packets end.
* The TCP reassembly path gives the queue the untrimmed length of a segment whose front was trimmed, and links a
  segment that reaches into the queue behind the segments it reaches. So when other segments wait, a packet that
  brings the next byte can have bytes acknowledged that never came (`OverlapOvershoots`), or be held back itself
  (`OverlapHolds`). A packet that overlaps a segment further on in the queue leaves the queue out of order, and a
  later packet that overlaps nothing before the next byte can then take received bytes out of the queue without
  acknowledging them (`OverlapLoses`). `OverlapIff` and `TidyIff` say exactly when one packet does the first or the
  second on a queue in order. `OverlapRuns` says it for whole streams without FIN, whatever overlaps: after every
  packet exactly the bytes that have come are acknowledged or wait in order, if and only if no packet does either.
* A FIN that takes the fast path is counted and one that goes through the queue is not (`FastPathAgrees`). So a FIN
  that comes before other bytes is not acknowledged when they have come, but only when the FIN is repeated then
  (`FinComesEarly`); `FinIff` says it for every order of arrival.
* Both routing protocols start the expanding ring search at the last hop count, which is 255 in a new route entry. So
  the first search for a destination asks the whole network, and the first ring of `TTL_START` hops is never used
  (`AodvSearch.AsksWidely`, `AomdvSearch.AsksWidely`).
* `SA_Agent::stop` sends a TEARDOWN even for a flow that was rejected. The link then subtracts a rate it never
  added. `BooksBalance` says exactly when the books agree and `RejectedStopOvercommits` is a run in which two flows
  of rate 1 hold a link of capacity 1.
* The token bucket sends queued packets without a check. `TimerIsRight` shows that this leaves exactly zero tokens
  if the packet fits into the bucket, and `ConformsIff` that a run conforms exactly when every packet sent does.
* In asim the branch of `Update` that damps an overloaded link is never taken on a link with positive spare
  capacity right after `newupdate` (`NewUpdate`).

## Model

| member | source | states |
|---|---|---|
| AomdvNetwork.LoopFreedom | src/ns2/aomdv/aomdv.cc:784-1338 | in every state of every run, following any stored paths towards a destination, in any combination, never meets a node twice |
| AomdvNetwork.EdgeDescends | src/ns2/aomdv/aomdv.cc:796-953 | each path at i through j (j not the destination) leads to an entry with a newer sequence number, or the same one with advertised hops set and below those of i |
| AomdvNetwork.PathTables | src/ns2/aomdv/aomdv_rtable.cc:181-320 | in every reachable entry next hops and last hops are pairwise distinct, the number of paths is within the limit, a path exists exactly when the entry is up, and no path is longer than the advertised hops |
| AomdvNetwork.OneHopCount | src/ns2/aomdv/aomdv.cc:1204-1206 | all packets one node ever sends about one destination and sequence number carry the same hop count |
| AomdvNetwork.WriteOnce | src/ns2/aomdv/aomdv.cc:539-566 | along every run sequence numbers never fall, and for one number the advertised hops are set at most once and then stay |
| AomdvNetwork.AssertionsHold | src/ns2/aomdv/aomdv.cc:861-863 | the parity asserts of all handlers, nb_delete among them, and the asserts that a path heard again has the hop count of the message plus one, hold whatever packet is delivered to whomever, whenever |
| AomdvNetwork.StepOk | src/ns2/aomdv/aomdv.cc:746-780 | every event keeps the network invariant: each stored path is backed by an advertisement its next hop made and stands by, all advertisements of one node agree |
| AomdvNetwork.RecvRequestOk | src/ns2/aomdv/aomdv.cc:784-1054 | after a request the node's entries are still sound and no less fresh, and what it sends is true of its new table |
| AomdvNetwork.RecordReverseOk | src/ns2/aomdv/aomdv.cc:796-914 | the first half of a request leaves sound entries, and a usable reverse route with the number of the request if the request is kept |
| AomdvNetwork.RecvReplyOk | src/ns2/aomdv/aomdv.cc:1058-1270 | after a reply the node's entries are sound and no less fresh, and what it passes on is true of its new table |
| AomdvNetwork.RecvErrorOk | src/ns2/aomdv/aomdv.cc:1273-1343 | after a route error the entries are sound and no less fresh, and the numbers it reports onwards belong to routes that are gone (0 or odd) |
| AomdvNetwork.NbDeleteOk | src/ns2/aomdv/aomdv.cc:473-520 | after the loss of a neighbour the entries are sound and no less fresh, and only routes that are gone are reported |
| AomdvNetwork.RtPurgeOk | src/ns2/aomdv/aomdv.cc:635-684 | after expired paths and routes are dropped the entries are sound and no less fresh |
| AomdvNetwork.RtResolveOk | src/ns2/aomdv/aomdv.cc:568-632 | after a data packet has asked for a route the entries are sound and no less fresh, and what is sent is true |
| AomdvNetwork.SendRequestOk | src/ns2/aomdv/aomdv.cc:1413-1533 | a request that is originated carries a number of the node that is live and no older than before |
| AomdvNetwork.RecvHelloOk | src/ns2/aomdv/aomdv.cc:1667-1691 | a hello, which acts as a reply from the neighbour about itself, leaves sound and no less fresh entries |
| AomdvNetwork.AdvertiseOk | src/ns2/aomdv/aomdv.cc:1044-1046 | freezing the advertised hops at the longest path keeps the entry sound |
| AomdvNetwork.RenewOk | src/ns2/aomdv/aomdv.cc:796-835 | starting over with a newer number and one backed path gives a sound entry whatever was there |
| AomdvNetwork.DeleteOk | src/ns2/aomdv/aomdv_rtable.cc:262-275 | dropping the path through a neighbour keeps the others disjoint, backed and in order |
| AomdvPaths.ForwardLearns | src/ns2/aomdv/aomdv.cc:1100-1165 | what a reply teaches the entry: a newer number starts over with its one path; the same number prolongs the stored path with its hops, or adds it at the end if it shares no hop, there is room and it is not too long; the reply is followed up exactly when its path is stored then |
| AomdvPaths.ReverseLearns | src/ns2/aomdv/aomdv.cc:834-912 | the same for a request; it is dropped exactly when it is outdated, its disjoint path is too long, or, at the destination, its path shares a hop and is no shorter way to its last hop; it can be answered exactly when its path is stored then |
| AomdvPaths.NeighbourLost | src/ns2/aomdv/aomdv.cc:473-520 | exactly the paths through the neighbour go; a route that has none left goes down under a newer number; exactly those of these routes that others use are reported, in one message, with that number |
| AomdvPaths.ErrorSpreads | src/ns2/aomdv/aomdv.cc:1273-1343 | a route error takes away exactly the paths through its sender to destinations named with a number not older than the entry's, and goes on for exactly the routes that went down by it and are used by others |
| AomdvPaths.ErrorReaches | src/ns2/aomdv/aomdv.cc:473-520 | in every run, when a node gives up the last path of a route that others use, whoever hears its report has no path through it left to that destination, and passes the news on if others use its own route and it has gone down |
| AomdvPaths.RoutesExpire | src/ns2/aomdv/aomdv.cc:635-684 | the expired paths of an expired entry go, in order; an entry that has none left goes down under a newer number; all others stay |
| AomdvAnswers.FreshAnswers | src/ns2/aomdv/aomdv.cc:924-1054 | in every run, however often request and reply are passed on, each reply belongs to exactly one request of the node it is for, is about the destination asked for, and is newer than the number asked for |
| AomdvAnswers.UsefulAnswers | src/ns2/aomdv/aomdv.cc:1058-1165 | a requester whose entry is not newer than when it asked takes the route from whatever answer reaches it, as its only path |
| AomdvAnswers.RequestAnswered | src/ns2/aomdv/aomdv.cc:784-1054 | when an answer is due and what it says: the destination answers with its own number, raised if needed; a node with a usable route not older than what is asked answers once, with what its entry says from now on, if the request came by a path that can be answered on; the first copy of another request is passed on; everything else is dropped |
| AomdvAnswers.RequestTouches | src/ns2/aomdv/aomdv.cc:784-1054 | a request changes no entry but that for its source, and in that for its destination at most what is advertised and the mark of use |
| AomdvAnswers.ReplyPassedOn | src/ns2/aomdv/aomdv.cc:1166-1260 | a reply whose path is stored goes on, once for each request, to the next hop of the first path to the node it is for, with what the entry says from now on |
| AomdvAnswers.ReplyTouchesLittle | src/ns2/aomdv/aomdv.cc:1058-1270 | a reply changes no entry but that for its subject, and in that for the node it is for only the lifetime of the first path |
| AomdvSearch.AsksWidely | src/ns2/aomdv/aomdv.cc:1413-1533 | in every run: when a request is sent, how far it goes, how long the node waits and what is counted; the first search is network wide |
| AomdvSearch.TimeoutIs | src/ns2/aomdv/aomdv.cc:1486-1496 | the wait is positive and at most MAX_RREQ_TIMEOUT; below that it is two round trips of the ring for each search of the whole network |
| AomdvSearch.TtlInRuns | src/ns2/aomdv/aomdv.cc:746-780 | in every run requests and replies have between 1 and 30 hops to go |
| AomdvSearch.PassedOnHopLess | src/ns2/aomdv/aomdv.cc:1346-1360 | a packet that is passed on has one hop less to go |
| AomdvSearch.DataResolved | src/ns2/aomdv/aomdv.cc:568-632 | a data packet keeps the first path of a usable route alive; without one the node asks for its own packets and answers others with a route error about that destination |
| AomdvSearch.HelloHeard | src/ns2/aomdv/aomdv.cc:1630-1691 | a node with a route up says hello; whoever hears it keeps it as a neighbour and learns the path of one hop |
| AomdvSearch.IdsForgotten | src/ns2/aomdv/aomdv.cc:333-350 | a request is forgotten exactly when its time is over |
| AomdvTable.MaxHopcount | src/ns2/aomdv/aomdv_rtable.cc:347-360 | the result is the hop count of some path and no path is longer; none exactly if no path has a positive count |
| AomdvTable.MinHopcount | src/ns2/aomdv/aomdv_rtable.cc:362-374 | the result is the hop count of some path and no path is shorter |
| AomdvTable.PathLookup | src/ns2/aomdv/aomdv_rtable.cc:207-218 | the first path through the neighbour, or the end if there is none |
| AomdvTable.DisjointPathLookup | src/ns2/aomdv/aomdv_rtable.cc:220-232 | the first path with that next hop and that last hop, or the end if there is none |
| AomdvTable.PathLookupLasthop | src/ns2/aomdv/aomdv_rtable.cc:248-260 | the first path with that last hop, or the end if there is none |
| AomdvAgent.RtEntry.NewDisjointPath | src/ns2/aomdv/aomdv_rtable.cc:234-246 | the loop answers yes exactly when no stored path shares the next hop or the last hop |
| AomdvAgent.RtEntry.PathInsert | src/ns2/aomdv/aomdv_rtable.cc:181-205 | a path goes to the end of the list, the count stays the length of the list, nothing else changes |
| AomdvAgent.RtEntry.PathDelete | src/ns2/aomdv/aomdv_rtable.cc:262-275 | the loop removes the first path through the neighbour and keeps the order of the rest |
| AomdvAgent.RtEntry.PathPurge | src/ns2/aomdv/aomdv_rtable.cc:389-406 | restarting the scan after every removal leaves exactly the unexpired paths, in order |
| AomdvAgent.Aomdv.RecvRequest | src/ns2/aomdv/aomdv.cc:784-1054 | the handler on the agent's fields and route objects gives the node and the packets of the protocol step that the theorems are about |
| AomdvAgent.Aomdv.RecvReply | src/ns2/aomdv/aomdv.cc:1058-1270 | the handler on fields and route objects equals the protocol step for a reply |
| AomdvAgent.Aomdv.RecvError | src/ns2/aomdv/aomdv.cc:1273-1343 | the handler on fields and route objects equals the protocol step for a route error, by a loop over the reported destinations |
| AomdvAgent.Aomdv.HandleLinkFailure | src/ns2/aomdv/aomdv.cc:473-520 | the handler on fields and route objects equals the protocol step for a lost neighbour, by a loop over the routes |
| AomdvAgent.Aomdv.RtPurge | src/ns2/aomdv/aomdv.cc:635-684 | the handler on fields and route objects equals the protocol step for a purge, by a loop over the routes |
| AomdvAgent.Aomdv.RtResolve | src/ns2/aomdv/aomdv.cc:568-632 | the handler on fields and route objects equals the protocol step for a data packet without a next hop |
| AomdvAgent.Aomdv.SendRequest | src/ns2/aomdv/aomdv.cc:1413-1533 | the handler on fields and route objects equals the protocol step for a new request; its assert that the own number is even is a proved fact |
| AomdvRuns.Ready | src/ns2/aomdv/aomdv.cc:784-1338 | what the methods take for granted (up routes have a path and an even number, the own number is even) holds of every agent in every run |
| AomdvRuns.Execute | src/ns2/aomdv/aomdv.cc:688-780 | in every state of every run an agent object that is one of its nodes can carry out any event that may come next, and is then that node of the next state and has sent what the step sends |
| AodvNetwork.LoopFreedom | src/ns2/aodv/aodv.cc:656-995 | in every state of every run whose repair timers fire in time, a packet for d meets no node twice before it is at d |
| AodvNetwork.NoRepairsInTime | src/ns2/aodv/aodv.cc:322-344 | a run without local repair meets that side condition, so loop freedom holds in it unconditionally |
| AodvNetwork.EdgeDescends | src/ns2/aodv/aodv.cc:404-413 | the next hop of a usable route has a newer number, or the same one with fewer hops |
| AodvNetwork.CyclesPassDestination | src/ns2/aodv/aodv.cc:826-938 | if raw next hops ever form a cycle, the destination lies on it and has a route to itself |
| AodvNetwork.SelfRouteIff | src/ns2/aodv/aodv.cc:853-880 | a reply gives a node a route to itself exactly when it is about the node and fresher than its entry |
| AodvNetwork.SelfRouteOnlyByReply | src/ns2/aodv/aodv.cc:620-650 | no other event does |
| AodvNetwork.SelfRouteRuns | src/ns2/aodv/aodv.cc:853-880 | no state of a run has a node with a route to itself exactly when no event of the run hands a node a reply about itself that is fresher than its entry |
| AodvNetwork.FreshnessGrows | src/ns2/aodv/aodv.cc:349-432 | along every run whose repair timers fire in time, no entry becomes less fresh between any two states: the number never falls, and for one number the hops never rise |
| AodvNetwork.FreshnessIff | src/ns2/aodv/aodv.cc:188-214 | a run keeps the freshness of every entry at every step exactly when no repair timer finds its route under repair |
| AodvNetwork.RepairTimeoutAdvances | src/ns2/aodv/aodv.cc:188-214 | the repair timer keeps freshness exactly when the route is no longer under repair |
| AodvNetwork.Ownership | src/ns2/aodv/aodv.cc:758-768 | the number of a usable route to d is at most d's own counter |
| AodvNetwork.UsefulReplies | src/ns2/aodv/aodv.cc:775-787 | every reply caused by a request, however often passed on, is newer than the requester's entry was when it asked, and a requester whose entry still has that number installs it |
| AodvNetwork.AssertionsHold | src/ns2/aodv/aodv.cc:349-385 | in runs without local repair no assert of any handler, nb_insert and sendRequest among them, fails on any possible event |
| AodvNetwork.ErrorHeardOk | src/ns2/aodv/aodv.cc:954-966 | a route error that changes an entry strictly raises its number, because usable entries are even and reported numbers odd or 0 |
| AodvNetwork.StepOk | src/ns2/aodv/aodv.cc:620-650 | every event keeps the network invariant: each usable route and each packet in flight is backed by its sender's entry |
| AodvNetwork.RecvRequestOk | src/ns2/aodv/aodv.cc:656-823 | a request leaves sound, no less fresh entries and true packets, and an answer that is newer than what was asked for |
| AodvNetwork.RecvReplyOk | src/ns2/aodv/aodv.cc:826-938 | a reply leaves sound and no less fresh entries, and what is passed on is true and still newer than what was asked for |
| AodvNetwork.RtPurgeOk | src/ns2/aodv/aodv.cc:506-552 | after expired routes are taken down the entries are sound and no less fresh |
| AodvNetwork.NbDeleteOk | src/ns2/aodv/aodv.cc:350-385 | after the loss of a neighbour the entries are sound and no less fresh, and only routes that are gone are reported |
| AodvAnswers.EveryReplyWasAsked | src/ns2/aodv/aodv.cc:775-823 | in every run each reply belongs to a request of the node it is for, about its destination, and its label is the number that was asked for; without local repair it is newer |
| AodvAnswers.RequestAnswered | src/ns2/aodv/aodv.cc:656-823 | when an answer is due and what it says: only the first copy counts; it gives the way back if it is fresher; the destination answers with a number above all it gave and what was asked; a node with a route not older than what is asked answers one hop further and makes the next hops precursors of each other; otherwise the request is passed on, never asking for less |
| AodvAnswers.ReplyAnswered | src/ns2/aodv/aodv.cc:826-938 | a reply that is not fresher changes nothing and goes nowhere; another gives the route and goes on to the next hop towards the node it is for, which becomes a precursor |
| AodvLosses.NeighbourLost | src/ns2/aodv/aodv.cc:350-385 | in every run in time: after the loss no route uses the neighbour and no list of precursors holds it; exactly the routes that used it are reported, in one message, each with its old number plus 1; all others stay |
| AodvLosses.ErrorSpreads | src/ns2/aodv/aodv.cc:941-1000 | a route error takes away exactly the routes through its sender named with a number not older than the entry's, and goes on for those of them with precursors |
| AodvLosses.ErrorReaches | src/ns2/aodv/aodv.cc:350-385 | in every run in time: if a node gives up its next hop, every node that goes through it gives up its route when it hears the report, and warns its own precursors |
| AodvLosses.RoutesExpire | src/ns2/aodv/aodv.cc:506-552 | exactly the routes that are up and past their time go down, under the next number |
| AodvLosses.RepairGivenUp | src/ns2/aodv/aodv.cc:188-214 | the repair timer takes down exactly a route in repair, without a new number |
| AodvLosses.IdsForgotten | src/ns2/aodv/aodv.cc:245-258 | a request is forgotten exactly when its time is over |
| AodvSearch.AsksWidely | src/ns2/aodv/aodv.cc:1065-1185 | in every run: when a request is sent, how far it goes, how long the node waits and what is counted; the first search is network wide |
| AodvSearch.TimeoutIs | src/ns2/aodv/aodv.cc:1139-1146 | the wait is at most MAX_RREQ_TIMEOUT; below that it is two round trips of the ring for each search of the whole network |
| AodvSearch.TtlInRuns | src/ns2/aodv/aodv.cc:620-650 | in every run requests and replies have between 1 and 30 hops to go |
| AodvSearch.PassedOnHopLess | src/ns2/aodv/aodv.cc:1003-1015 | a packet that is passed on has one hop less to go |
| AodvSearch.DataResolved | src/ns2/aodv/aodv.cc:439-503 | a data packet keeps a route that is up alive; without one the node asks for its own packets, waits during repair, and answers others with a route error about that destination |
| AodvSearch.RepairAsks | src/ns2/aodv/aodv.cc:388-402 | local repair marks the route and asks for a new one, under the rules of every search |
| AodvExamples.RepairLoop | src/ns2/aodv/aodv.cc:322-334 | there is a run in which a packet from node 3, passed on twice, is stuck at node 1, whose route has one hop; node 1 repairs the route, and the run ends with nodes 1 and 2 pointing at each other |
| AodvExamples.SelfRouteLoop | src/ns2/aodv/aodv.cc:853-880 | there is a run without local repair in which node 0 routes to itself through node 1, whose route leads back |
| AodvAgent.RtEntry.PcDelete | src/ns2/aodv/aodv_rtable.cc:141-152 | the loop removes the first precursor with that address and keeps the order of the rest |
| AodvAgent.Aodv.RecvRequest | src/ns2/aodv/aodv.cc:656-823 | the handler on the agent's fields and route objects gives the node and the packets of the protocol step that the theorems are about |
| AodvAgent.Aodv.RecvReply | src/ns2/aodv/aodv.cc:826-938 | the handler on fields and route objects equals the protocol step for a reply |
| AodvAgent.Aodv.RecvError | src/ns2/aodv/aodv.cc:941-1000 | the handler on fields and route objects equals the protocol step for a route error, with the asserts of the code as proved facts |
| AodvAgent.Aodv.HandleLinkFailure | src/ns2/aodv/aodv.cc:350-385 | the handler on fields and route objects equals the protocol step for a lost neighbour, by a loop over the routes |
| AodvAgent.Aodv.RtPurge | src/ns2/aodv/aodv.cc:506-552 | the handler on fields and route objects equals the protocol step for a purge, by a loop over the routes |
| AodvAgent.Aodv.SendRequest | src/ns2/aodv/aodv.cc:1065-1185 | the handler on fields and route objects equals the protocol step for a new request |
| AodvAgent.Aodv.LocalRepair | src/ns2/aodv/aodv.cc:388-402 | the handler on fields and route objects equals the protocol step for a local repair |
| AodvRuns.Ready | src/ns2/aodv/aodv.cc:349-385 | what the methods take for granted follows from the asserts of the code |
| AodvRuns.Execute | src/ns2/aodv/aodv.cc:559-650 | in every state of every run an agent object that is one of its nodes can carry out any event that may come next, and is then that node of the next state and has sent what the step sends |
| MaxMin.HeldBackIsFair | src/ns2/asim/asim.cc:844-957 | if every flow crosses a full link on which nobody has a larger scale factor, no feasible allocation gives anyone more without taking from one who is no better off |
| MaxMin.FairIsUnique | src/ns2/asim/asim.cc:844-957 | for given positive weights there is only one such allocation |
| Filling.SharedIsFair | src/ns2/asim/asim.cc:844-957 | the outcome fits all links exactly when every link that carries bulk flows had positive spare capacity, and then it is the weighted max-min fair allocation |
| Filling.SharedOneWay | src/ns2/asim/asim.cc:844-957 | whatever capacities are exhausted, only one outcome is well shared: links with capacity are not overloaded, flows across one are held back by one, and all other flows keep their rates |
| Filling.WorstIsBetter | src/ns2/asim/asim.cc:878-889 | the chosen bottleneck had capacity to share, and its congestion ratio is at most that of the previous one |
| Filling.FillStep | src/ns2/asim/asim.cc:903-946 | one round keeps the invariant and scales some waiting flow |
| Filling.FillDone | src/ns2/asim/asim.cc:878-957 | when the loop ends nobody waits on a link that had capacity, no such link is overloaded, and each flow across one is held back by one |
| Asim.Network.Fill | src/ns2/asim/asim.cc:878-957 | the loop over arrays ends, the bottlenecks of its rounds are pairwise different links with ratios that never rise, and its bookkeeping equals the sums it stands for |
| Asim.Network.NewUpdate | src/ns2/asim/asim.cc:844-960 | the rates it leaves to the bulk flows that send anything are well shared with the old rates as weights, and are the weighted max-min fair allocation when all bulk flows are routed over links with positive spare capacity; bulk flows without capacity anywhere on their way keep their rates, bulk flows of rate 0 keep 0 and short flows theirs; each link's load follows as in Update, and on links that had capacity the damping branch of Update is not taken |
| Asim.Network.Freeze | src/ns2/asim/asim.cc:907-933 | exactly the waiting flows across the bottleneck get their weight over the ratio, once each, and the bottleneck ends exactly full |
| Asim.Network.FindBottleneck | src/ns2/asim/asim.cc:878-889 | the link with the largest ratio, or -1 when no ratio is positive |
| Asim.Network.Update | src/ns2/asim/asim.cc:678-722 | each link's offered load is the sum over the flows that cross it, each as often as it crosses, and its load moves half way there, capped |
| Asim.Network.BuildIncidence | src/ns2/asim/asim.cc:490-524 | the table of flows per link lists each flow as often as it crosses the link, and the link's load grows by what the short flows across it offer, each as often as it crosses |
| Reassembly.DeliversPrefix | src/ns2/baytcp/tcp-full-bay.cc:1314-1404 | for segments that are disjoint or repeated, in any order, the acknowledged number is the first byte not yet received, and the bytes received are exactly those delivered in order and those queued |
| Reassembly.OrderDoesNotMatter | src/ns2/baytcp/tcp-full-bay.cc:1314-1404 | two arrivals of the same bytes in different orders and with different repetitions acknowledge the same number |
| Reassembly.NeverBack | src/ns2/baytcp/tcp-full-bay.cc:1377-1385 | the acknowledged number never decreases |
| Reassembly.ReceiveKeeps | src/ns2/baytcp/tcp-full-bay.cc:801-829 | the data path, with its trimming and both of its branches, keeps the queue sorted, free of delivered bytes and complete |
| Reassembly.AddKeeps | src/ns2/baytcp/tcp-full-bay.cc:1314-1404 | a segment that goes through the queue keeps it sorted, free of delivered bytes and complete, and keeps every byte below the acknowledged number received |
| Reassembly.FastPathAgrees | src/ns2/baytcp/tcp-full-bay.cc:1057-1073 | the fast path leaves the state the queue would leave exactly when the packet is not a FIN |
| ReassemblyOverlap.OverlapRuns | src/ns2/baytcp/tcp-full-bay.cc:801-829 | for every stream without FIN, whatever overlaps: after each packet the bytes acknowledged or queued are exactly those that have come and the queue is in order, if and only if each packet finds a state on which OverlapIff and TidyIff say it is handled rightly |
| ReassemblyOverlap.ExactStep | src/ns2/baytcp/tcp-full-bay.cc:801-829 | one packet keeps the state exact (bytes acknowledged or queued in order are those that have come) if and only if it is handled rightly |
| ReassemblyOverlap.OverlapIff | src/ns2/baytcp/tcp-full-bay.cc:801-829 | for every packet that is not a FIN and every queue in order without overlaps: the acknowledged number is the first byte held neither by the packet nor by the queue, except exactly when others wait, the packet brings the next byte, and it repeats bytes before it or reaches into what waits |
| ReassemblyOverlap.TidyIff | src/ns2/baytcp/tcp-full-bay.cc:1344-1370 | for every packet that is not a FIN, a queue in order and free of overlaps stays in order and free of overlaps exactly when the packet, as it is entered, does not overlap what waits other than by repetition |
| ReassemblyOverlap.AlwaysTidy | src/ns2/baytcp/tcp-full-bay.cc:1314-1404 | segments that are disjoint or repeated keep the queue in that shape in every run |
| ReassemblyOverlap.OverlapOvershoots | src/ns2/baytcp/tcp-full-bay.cc:1314-1321 | a concrete state and segment after which bytes that never came are acknowledged |
| ReassemblyOverlap.OverlapHolds | src/ns2/baytcp/tcp-full-bay.cc:1344-1378 | a concrete state and segment after which the next byte has come and is still not acknowledged |
| ReassemblyOverlap.OverlapLoses | src/ns2/baytcp/tcp-full-bay.cc:1344-1404 | a concrete stream of three segments after which two bytes that came are neither acknowledged nor queued |
| ReassemblyFin.FinIff | src/ns2/baytcp/tcp-full-bay.cc:1054-1113 | for every stream of disjoint or repeated data that ends with a FIN, in any order and with repetitions: the number of the FIN is acknowledged, and nothing waits, exactly when the FIN or a repetition of it came after all bytes before it; until then the acknowledged number is the first byte that has not come |
| ReassemblyFin.FinInOrder | src/ns2/baytcp/tcp-full-bay.cc:1057-1073 | a FIN whose own bytes are all that is missing, whole, trimmed or gone, leaves the number after its own and an empty queue |
| ReassemblyFin.FinRepeated | src/ns2/baytcp/tcp-full-bay.cc:801-829 | a FIN that was acknowledged changes nothing |
| ReassemblyFin.FinEarly | src/ns2/baytcp/tcp-full-bay.cc:1090-1098 | a FIN that comes early waits and takes no number |
| ReassemblyFin.FinComesEarly | src/ns2/baytcp/tcp-full-bay.cc:1054-1113 | a concrete stream in which all bytes and the FIN have come and the FIN is not acknowledged until it is repeated |
| ReassemblyQueue.Queue.Add | src/ns2/baytcp/tcp-full-bay.cc:1314-1404 | relinking the doubly linked list inserts the segment at its place and delivers the gap-free run at the head, and the flags are those of the delivered segments |
| ReassemblyQueue.Queue.Place | src/ns2/baytcp/tcp-full-bay.cc:1338-1352 | the node found is the one just before the place of the new segment |
| ReassemblyQueue.Queue.Link | src/ns2/baytcp/tcp-full-bay.cc:1354-1370 | all links in both directions, head and tail are right after insertion |
| ReassemblyQueue.Queue.DeliverRun | src/ns2/baytcp/tcp-full-bay.cc:1377-1403 | the unlinking loop takes out exactly the longest run without a gap |
| ReassemblyQueue.Queue.Receive | src/ns2/baytcp/tcp-full-bay.cc:1054-1113 | the data part of recv on the list equals the function the theorems are about |
| Reservation.Atomicity | src/ns2/adc/salink.cc:86-126 | in every run, once a flow's CONFIRM has crossed its whole path, each link of the path holds the flow's rate once if the decision was 1 and not at all otherwise |
| Reservation.DecisionIsConjunction | src/ns2/adc/salink.cc:86-104 | when the REQUEST has crossed the path its decision bit is 1 exactly when every link booked the rate |
| Reservation.Conservation | src/ns2/adc/param-adc.cc:78-96 | in every run the booked rate and the flow count of a link are what all flows have booked there less what they released, and the booked rate never exceeds utilization times bandwidth |
| Reservation.AdmittedIff | src/ns2/adc/salink.cc:86-104 | in every run a REQUEST is booked at a link exactly when its rate fits into what all flows leave of the capacity, and its decision bit stays 1 exactly then |
| Reservation.AnswerTells | src/ns2/tcp/saack.cc:75-100 | the receiver accepts exactly when the decision bit is 1, and what comes back as a CONFIRM is the REQUEST unchanged |
| Reservation.DecisionStays | src/ns2/adc/sa.cc:175-208 | neither the answer nor the CONFIRM nor the TEARDOWN changes what was decided |
| Reservation.TeardownBalances | src/ns2/adc/sa.cc:136-143 | after a TEARDOWN nothing of the flow is left on any link exactly when the flow had been accepted |
| Reservation.BooksBalance | src/ns2/adc/salink.cc:127-132 | a link's booked rate equals the rates its admitted flows hold exactly when no rejected flow of positive rate has sent a TEARDOWN across it |
| Reservation.NeverOvercommitted | src/ns2/adc/param-adc.cc:89-96 | if only accepted flows send a TEARDOWN, the rates held on a link never exceed its capacity |
| Reservation.RejectedStopOvercommits | src/ns2/adc/sa.cc:136-143 | there is a run in which a rejected flow stops and the rates held on a link are twice its capacity |
| Reservation.AllRunsGoOn | src/ns2/adc/salink.cc:194-205 | with at most 500 flows the table of pending flows never runs out in any run |
| Reservation.Lookup | src/ns2/adc/salink.cc:185-192 | the first slot that holds the id; -1 exactly when none does |
| Reservation.StepKeeps | src/ns2/adc/salink.cc:74-141 | every event keeps, on every link, the sums and that a flow has exactly one slot while its CONFIRM is awaited and none otherwise |
| ReservationAgent.SALink.Recv | src/ns2/adc/salink.cc:74-141 | the array, the counter and the admission object change as the link function says, and the program exits exactly when an admitted request finds no slot |
| ReservationAgent.ParamAdc.AdmitFlow | src/ns2/adc/param-adc.cc:89-96 | a rate is admitted exactly when it still fits, and only then added |
| ReservationAgent.SaAgent.SendReq | src/ns2/adc/sa.cc:146-158 | the REQUEST that leaves carries the flow's rate and the decision 1 |
| ReservationAgent.SaAgent.Recv | src/ns2/adc/sa.cc:175-208 | an answer goes back as a CONFIRM with the same decision, and the source runs exactly if it is 1 |
| ReservationAgent.SaAgent.Stop | src/ns2/adc/sa.cc:136-143 | a TEARDOWN leaves in every case |
| TokenBucket.ConformsIff | src/ns2/adc/tbf.cc:74-152 | over every interval of a run the bits sent are at most a full bucket and what flows in meanwhile, exactly when no packet sent is larger than the bucket |
| TokenBucket.SmallPacketsConform | src/ns2/adc/tbf.cc:97-152 | if no packet that arrives is larger than the bucket, every run conforms over every interval and its tokens stay between 0 and the bucket |
| TokenBucket.TokensInRange | src/ns2/adc/tbf.cc:117-126 | while no packet larger than the bucket has left, tokens stay between 0 and the bucket |
| TokenBucket.TimerIsRight | src/ns2/adc/tbf.cc:107-152 | in every run packets wait exactly while the timer is set, it is set for the moment the tokens reach the head's size, the timeout finds a packet, and it leaves exactly 0 tokens if and only if the packet fits the bucket |
| TokenBucket.TimeoutTokens | src/ns2/adc/tbf.cc:128-144 | what the unchecked send leaves is 0, or the bucket less the packet if that is negative |
| TokenBucket.Fifo | src/ns2/adc/tbf.cc:86-95 | packets leave in the order of acceptance, all accepted packets have left or wait, and at most qlen wait |
| TokenBucketTight.ArrivalIff | src/ns2/adc/tbf.cc:74-115 | in every run a packet leaves at once exactly when nobody waits and every interval that ends now still conforms with it; otherwise it is dropped exactly when qlen packets wait; the first packet finds a full bucket |
| TokenBucketTight.NoSooner | src/ns2/adc/tbf.cc:107-152 | while packets wait, the head could leave at no moment before the timer, and can leave then exactly when it fits the bucket |
| TokenBucketAgent.Tbf.Recv | src/ns2/adc/tbf.cc:74-115 | the method on the filter's fields equals the step the theorems are about |
| TokenBucketAgent.Tbf.Timeout | src/ns2/adc/tbf.cc:128-152 | the method equals the timer step the theorems are about, and aborts exactly when the queue is empty |
| SendBuffer.LatestInOrder | src/ns2/aodv/aodv_rqueue.cc:50-138 | in every run under a clock that does not run back, the packets that wait for a destination are a last part of those that came for it, in order, and the buffer is sorted by expiry and holds at most 64 |
| SendBuffer.Accounted | src/ns2/aodv/aodv_rqueue.cc:50-138 | in every such run the packets that came for a destination are, in their order, those that left and those that wait: none is lost, repeated, invented or overtaken |
| SendBuffer.WhyLeft | src/ns2/aodv/aodv_rqueue.cc:50-138 | each packet that left was handed out by that event, or had expired, or was the oldest of 64 unexpired ones when another came |
| SendBuffer.ServesOldest | src/ns2/aodv/aodv_rqueue.cc:106-138 | deque(dst) hands out the oldest packet that waits for dst and changes nothing for other destinations |
| SendBuffer.PurgesAgree | src/ns2/aodv/aodv_rqueue.cc:205-260 | the searching purge and the commented-out one leave the same packets exactly when no expired packet stands behind an unexpired one |
| SendBuffer.PurgesAgreeInRuns | src/ns2/aodv/aodv_rqueue.cc:205-260 | in every run under a clock that does not run back the two purges leave the same packets |
| SendBufferQueue.RQueue.Enque | src/ns2/aodv/aodv_rqueue.cc:50-85 | the linked list after a packet that does not wait already has entered is the sequence after Enque, also for a packet that was in the buffer before |
| SendBufferQueue.RQueue.DequeDst | src/ns2/aodv/aodv_rqueue.cc:106-138 | the linked list and the returned packet after deque(dst) are those of DequeFor |
| SendBufferQueue.RQueue.Purge | src/ns2/aodv/aodv_rqueue.cc:232-260 | the loop of unlinking ends and leaves the purged sequence |
| SendBufferQueue.RQueue.Find | src/ns2/aodv/aodv_rqueue.cc:140-150 | the answer is yes exactly when some packet waits for the destination |
| SendBufferQueue.RQueue.VerifyQueue | src/ns2/aodv/aodv_rqueue.cc:190-202 | the walk counts len packets and ends at the tail, so neither assert fails |
| LossMeter.Partition | src/ns2/common/ivs.cc:281-314 | every number between the first and the next expected was heard or lies in exactly one hole, and the holes still remembered are the latest of all there ever were |
| LossMeter.CountsMissing | src/ns2/common/ivs.cc:338-364 | aging throws away exactly the holes older than the window, a prefix, and the loss behind the verdict is the number of distinct missing packets in the remembered holes inside the window |
| LossMeter.HolesInTime | src/ns2/common/ivs.cc:281-314 | in every run under a clock that does not run back, the holes are in order of time and none is younger than the next packet |
| LossMeter.KeepDrops | src/ns2/common/ivs.cc:347-357 | on holes in order of time aging removes a prefix |
| LossMeter.FewPerRtt | src/ns2/common/ivs.cc:371-395 | when an rtt holds few packets, no loss is unloaded, one is loaded and more is congested |
| LossMeter.ManyPerRtt | src/ns2/common/ivs.cc:371-395 | when an rtt holds many packets, losses of up to 5 in 100 are unloaded, up to 15 loaded and more congested |
| LossMeter.HearSmooths | src/ns2/common/ivs.cc:316-332 | the mean goes an eighth of the way to each new age, the first sets it, and the deviation an eighth of the way to the distance left; without holes the verdict is unloaded |
| LossMeter.MeanInRange | src/ns2/common/ivs.cc:316-327 | in every run the mean stays in the range of the ages and the deviation within its width |
| LossMeter.GoesOnIff | src/ns2/common/ivs.cc:281-314 | the program goes on exactly as long as the numbers increase |
| LossMeterAgent.IvsReceiver.HearPacket | src/ns2/common/ivs.cc:271-396 | the list with its dangling tail after a walk that removes and counts equals the function; the tail is the last hole whenever there is one |
| LossMeterAgent.IvsReceiver.HearNext | src/ns2/common/ivs.cc:271-396 | in every such run the receiver object can hear the next packet and is then the meter of the next state |
| LossMeterAgent.IvsReceiver.Age | src/ns2/common/ivs.cc:335-364 | one walk leaves exactly the holes that are young enough and counts those inside the window, for lists in any order |
| Multicast.HashAgrees | src/ns2/classifier/classifier-mcast.cc:87-113 | after any operations, a lookup in the chain the key hashes to finds what a newest-first scan of one unhashed list finds, with the any-interface case |
| Multicast.TableIsBuckets | src/ns2/classifier/classifier-mcast.cc:166-177 | after any operations each chain is the part of the list that hashes to it, in order |
| Multicast.BucketChanges | src/ns2/classifier/classifier-mcast.cc:259-270 | overwriting an interface changes the same entry in its chain as in the list and no other chain |
| Multicast.ClassifiedBy | src/ns2/classifier/classifier-mcast.cc:115-155 | a miss is reported exactly when neither the pair nor the group has an entry; an entry for the packet's own interface always gives a slot |
| Multicast.SlotGiven | src/ns2/classifier/classifier-mcast.cc:115-155 | which entry decides: for the packet's interface the newest of the pair, else of the group; else the newest of the pair for any interface, else of the group |
| Multicast.WrongIifIff | src/ns2/classifier/classifier-mcast.cc:115-155 | a wrong interface is reported exactly when nothing serves the packet's interface and the deciding entry is for another one |
| MulticastAgent.HashTable.Lookup | src/ns2/classifier/classifier-mcast.cc:87-100 | walking one chain finds the newest matching entry of the whole table |
| MulticastAgent.HashTable.LookupStar | src/ns2/classifier/classifier-mcast.cc:102-113 | walking one chain finds the newest entry of the whole table for the group and interface |
| MulticastAgent.HashTable.SetHash | src/ns2/classifier/classifier-mcast.cc:166-177 | the table becomes the old one with the entry in front |
| MulticastAgent.HashTable.ChangeIface | src/ns2/classifier/classifier-mcast.cc:259-264 | the interface of the newest match is overwritten and nothing else |
| MulticastAgent.HashTable.Clear | src/ns2/classifier/classifier-mcast.cc:68-79 | every chain and the list are empty |
| MulticastAgent.MCastClassifier.Classify | src/ns2/classifier/classifier-mcast.cc:115-155 | the four lookups give the classification that ClassifiedBy is about |

## Left out

Numbers and time

- Sequence numbers, hop counts, broadcast ids and sizes are unbounded: the wrap of 8, 16 and 32 bit fields is not modelled.
- Rates, times, tokens and capacities are exact reals: rounding is not modelled.
- A negative lifetime in a reply is truncated toward zero as a signed number; the code converts it to unsigned.

Routing (AODV, AOMDV)

- "No hop count yet" is `None`, where the code has INFINITY in aomdv.cc and INFINITY2 (0xff) in the tables.
- Lists with unique keys (routes, broadcast ids, neighbours) are maps, so the order of the destinations inside one route error is lost; so is the limit of 100 of them per packet.
- Flushing the send buffer when a route appears, and the requests that rt_purge starts for waiting packets, are separate events that may happen at any time.
- A purge of neighbours is one event per neighbour given up.
- A position stands for a pointer into the list of paths.
- AOMDV's local repair, link-layer detection, packet salvaging and link-disjoint branches are not compiled in; asserts on rt_hops, which AOMDV never sets, are left out.
- AODV's statistics of discovery latency enter as a parameter, the time per hop.
- The way of a data packet: how often the packet that starts a local repair was passed on is part of the event.
- Forwarding of data beyond its effect on lifetimes, jitter, the interface queue, tracing and Tcl commands.
- AodvNetwork.LoopFreedom: requires that no repair timer finds its route under repair, because it is false otherwise (AodvExamples.RepairLoop).

asim

- Update2, Update3 and allscaled are not called by newupdate; the formulas for TCP throughput, queues and RED (square roots, powers, exponentials) are left out.
- Reading the input files is left out except for the table of flows per link and the load of the short flows.
- Asim.Network.NewUpdate: throughputs of bulk flows are not negative before the call.

BayTCP

- SYN, ACK and RST processing, the congestion window, timers and the state machine that closes a connection.
- Reassembly.DeliversPrefix: is about streams without FIN and without partial overlap, because it is false otherwise (FastPathAgrees, OverlapOvershoots); streams with a FIN are the subject of ReassemblyFin.FinIff, those with partial overlap of ReassemblyOverlap.OverlapRuns.
- ReassemblyOverlap.OverlapRuns: like OverlapIff and TidyIff it is about packets that are no FIN, whose extra number only the fast path counts.
- Upcalls to the application.

Reservation signalling

- Admission by measurement (ACTO, ACTP, HB, MS) and the estimators; only the parameter-based control is modelled.
- Each flow signals once; its id is not -1, the mark of a free slot. Packet addresses, the bucket size and the data packets of a flow are left out.
- A stop while the REQUEST or CONFIRM is still under way.
- The count of admitted flows starts at 0, which the add-trace command sets; the constructor sets -1.

Other components

- TokenBucket: the rate is positive. Drops by the target and the size of the scheduler's clock are left out.
- SendBuffer: the reasons reported with dropped packets.
- LossMeter: upcalls, keys and response suppression of the IVS receiver, and the IVS source.
- Multicast: the reply of the group protocol to a miss, slots and replicators.
