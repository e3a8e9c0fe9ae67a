# SemperOS in Dafny

SemperOS runs one microkernel per group of processing elements. The kernels own parts of a
common capability tree and coordinate by messages. This project models the protocols and
structures behind that, and proves what they keep over every run: the distributed
revocation of capabilities, the distributed shutdown, the transfer and derivation of
capabilities, the m3fs block cache, the send queue of the kernel, the endpoint tables with
the connect handshake, and the work loop of the load generator.

Each area has modules with the state, the steps as functions and the theorems, and a module
with classes whose methods do what the handlers do, step by step, and are proved to do
exactly what the functions say.

| area | theorems | classes |
|---|---|---|
| revocation | `CapTree`, `RevocationWave`, `RevocationInvariant`, `RevocationTheorems`, `RevocationSettled` | `RevocationHandlers` |
| revocation on ordered channels | `RevocationOrder`, `RevocationEvents`, `RevocationRaces`, `RevocationOvertaking`, `RevocationSchedules`, `RevocationLeftovers`, `RevocationTrees` | `RevocationHandlers` |
| shutdown | `Shutdown`, `ShutdownSafety` | `ShutdownHandlers` |
| capabilities | `Capabilities`, `CapabilityExchange`, `MemoryRuns`, `RemoteObtain` | `CapabilityHandlers` |
| block cache | `CacheSlots`, `CacheReplacement`, `CacheLimits`, `CacheStore`, `CacheRefinement` | `BlockCache` |
| send queue | `SendQueues` | `SendQueues` |
| endpoints and connect | `Endpoints`, `Handshake`, `HandshakeSafety` | `Endpoints`, `HandshakeHandlers` |
| load generator | `LoadGen`, `LoadGenPolling` | `LoadGenLoop` |

## What the code does not keep

Several properties one would expect hold only under a condition. The code is modelled as it
is; each line names the theorem with the exact condition.

- A revoke system call is answered if and only if at most one remote edge leaves the kernel
  below every local child (`AnsweredIffResponsive`). A local child's whole counter is added
  to its local parent, but its completion takes off only one. The capabilities are revoked
  either way. `NeverAnswered` is a tree of four capabilities whose caller sleeps for ever.
- A revocation entry that is completed by `notifySubscribers` stays in the list. A waiting
  capability below the origin that has no remote child leaves its entry behind in every run
  (`EveryRunLeaves`, shown at a chain of four in `ChainLeaves`). In general, with one ordered
  channel from each kernel to each other, the entry of a waiting capability can stay behind
  if and only if the capability never completes or can be outlasted (`StaysIff`), and no
  ordered run leaves anything behind if and only if the call is answered and nothing below
  the origin can be outlasted (`NothingStaysIff`). See below for what outlasting means;
  `OrderOfKidsDecides` has two trees that differ only in the order of two children, of which
  one always cleans up and the other does not.
- An exchange that is accepted fills all its slots if and only if every source slot holds a
  capability that can be cloned (`ExchangeAllOrNothing`); the same decides whether a remote
  obtain pairs child keys and filled slots one to one (`OneToOne`). `ServiceNotPassed` and
  `ServiceNotTaken` show a service capability that is accepted and fills nothing.
- Permissions fall from ancestor to descendant if and only if no derivation uses an offset
  whose low three bits name a permission that its source lacks (`PermissionsFall`,
  `UncoveredRun`). `MemObject` asserts that addresses are aligned, which rules those offsets
  out (`AlignedIsCovered`); the model is of the code without that assertion.
- The cache holds the most recently used blocks on all traces of a given length if and only
  if the length does not exceed the range of its 32-bit clock (`RightUntilTheClockWraps`).
- A request to the cache keeps all contents if and only if the slot it takes is the block's
  own, empty, marked dirty or in step with the DRAM (`RequestKeepsContents`);
  `UnmarkedIsLost` is a store that is lost.
- The messages of all peers of an endpoint fit its slots if and only if the slots are a
  multiple of the messages per peer, or the whole table fits one endpoint (`CapacityIff`,
  and `CapacityExceeded` for a layout where they do not).
- Removing an item from the work loop keeps exactly the others if and only if its first
  place in the array is a live one or it has none (`RemoveExact`). The last place keeps its
  item, so an item that has left can be found there once more (`RemovedTwice`).
- `Capability::addChild` announces in a comment that local children are put first. The code
  puts a remote child first or second. Local ones stay in front if and only if the new child
  is local, or there are none, or one and the new child's kernel has a higher number
  (`LocalFirstIff`, and `RemoteInFront` for a list where they do not).
- SHUTDOWN is not broadcast just once: after a broadcast every further request or reply that
  kernel 0 takes broadcasts it again (`BroadcastAgainIff`).

**Outlasting.** A waiting capability `p` loses its entry when the last answer comes from a
remote child and keeps it when the last answer comes through a local one. It can be
outlasted (`RevocationOvertaking.Outlasts`) if some remote edge `r` below a local child can
report after everything at and below the remote children of `p`. On ordered channels,
holding back the request for `r` holds back what is sent behind it on its channel, and
whatever needs that to be taken first (`Behind`). When the held message is taken, the next
message on the way to the report of `r` and back is held instead, and of what was held back
only the part stays that goes over the new channel, with what needs it (`Rest`). `Reaches`
follows this along a path of edges that report last. The condition is that some such path
ends with nothing held back. It depends on the tree, the placement and the order of the
children alone.

## Assumptions

- Revocation: handlers run to completion, one revocation is under way at a time, and
  capabilities are not added below it meanwhile. No kernel holds an entry for one of its
  capabilities when it starts. An entry that an earlier revocation left behind for a slot
  that was filled again breaks this: `RevocationList::add` panics on it where assertions are
  compiled in, and otherwise `find` returns the old entry. What is stated over `Run` holds
  for messages that arrive in any order; what is stated over `OrderedRun` is for one ordered
  channel per pair of kernels, and every ordered run is a run (`OrderedIsRun`).
- Shutdown: handlers run to completion. `KPE::sendTo` can put a thread to sleep before
  closingRequests is raised (KPE.cc:59-68, SyscallHandler.cc:1037-1038); a KREPLY could then
  leave before the KREQUEST, as if the channel had been reordered. The set of kernels is
  fixed, channels keep their order (`OrderMatters` shows why), an idle kernel stays idle, no
  VPE exits on kernel 0 after it became idle, and a peer that has stopped its work loop
  handles nothing more.
- Capabilities: the VPE number names the table and equals the PE number, as the comment in
  `CapTable::set` demands; memory comes aligned from the allocator, whose answers are
  parameters.
- Cache: block number 0 marks an empty slot and is not requested.
- Send queue: allocator answers and the rest of the heap are parameters; other code leaves
  buffers alone that the queue has taken over.
- Handshake: each pair of kernels begins at most one, and has no entries for each other
  before. Messages may arrive in any order.
- Load generator: messages arrive as a parameter says, and the counters of rounds do not overflow.

## Model

| member | source | states |
|---|---|---|
| CapTree.AwaitCountsRemoteEdges | src/apps/kernel/cap/CapTable.cc:86-118 | The counter that revoke_rec builds up over local and remote children is the number of remote edges leaving the kernel below the capability |
| CapTree.LocalPartByKids | src/apps/kernel/cap/CapTable.cc:86-111 | What revoke_rec visits on one kernel is the capability itself and what it visits below each local child |
| CapTree.RemoteEdgesByKids | src/apps/kernel/cap/CapTable.cc:86-118 | What it asks other kernels for is its remote children and what it asks for below each local child |
| RevocationHandlers.RecClosed | src/apps/kernel/cap/CapTable.cc:61-159 | The recursion of revoke_rec, child by child with shared lists and counters, comes to one closed effect: the local part is gone, one REVOKE per remote edge is sent, and exactly the capabilities that have to wait have an entry with its counter and its local parent subscribed |
| RevocationInvariant.StepKeepsInv | src/apps/kernel/KernelcallHandler.cc:747-820 | Every delivery and every wake-up keeps the invariant of the wave: where each capability stands, what each counter counts, who sleeps and what is unacknowledged |
| RevocationInvariant.RevokeKeepsInv | src/apps/kernel/KernelcallHandler.cc:747-779 | So does the handler of REVOKE |
| RevocationInvariant.FinishKeepsInv | src/apps/kernel/KernelcallHandler.cc:781-820 | So does the handler of REVOKEFINISH, whatever chain of local parents it completes |
| RevocationInvariant.CreditKeepsInv | src/apps/kernel/cap/Revocations.cc:25-62 | Subtracting one answer and telling subscribers, as far up as counters reach zero, keeps the invariant |
| RevocationInvariant.RunInv | src/apps/kernel/KernelcallHandler.cc:747-820 | The invariant holds in every state of every run, for every tree and placement |
| RevocationTheorems.WakeupOnlyWhenRevoked | src/apps/kernel/KernelcallHandler.cc:797-806 | The origin's thread runs on only when every capability of the distributed subtree is gone and only acknowledgements are on their way |
| RevocationTheorems.WokenOnce | src/apps/kernel/KernelcallHandler.cc:797-806 | The origin is notified at most once |
| RevocationTheorems.CounterAccounts | src/apps/kernel/KernelcallHandler.cc:775-820 | Every counter is its REVOKEs on the way plus child entries still waiting plus REVOKEFINISHes on the way to it, plus what its local children added |
| RevocationTheorems.StepFalls | src/apps/kernel/KernelcallHandler.cc:747-820 | A measure falls with every delivery and wake-up |
| RevocationTheorems.RunsEnd | src/apps/kernel/KernelcallHandler.cc:747-820 | Every run over a tree with e remote edges has at most 6e + 1 states |
| RevocationTheorems.Drain | src/apps/kernel/KernelcallHandler.cc:747-820 | Every run can be driven on until nothing but given messages is left, so no handler blocks the wave |
| RevocationTheorems.AnsweredIffResponsive | src/apps/kernel/cap/CapTable.cc:101-109 | When all is quiet everything is revoked; the caller has been answered, and woken exactly once if it had to sleep, if and only if the tree is responsive |
| RevocationTheorems.NothingTwice | src/apps/kernel/KernelcallHandler.cc:775-820 | No message is sent twice or acknowledged twice |
| RevocationTheorems.TrafficAtTheEnd | src/apps/kernel/KernelcallHandler.cc:775-820 | When all is quiet every message has been acknowledged exactly once; an answered wave over e remote edges used e REVOKEs and e REVOKEFINISHes |
| RevocationSettled.CompletedIffSettles | src/apps/kernel/KernelcallHandler.cc:797-818 | With nothing on its way, exactly those revocations are completed below which, in the whole distributed subtree, every local child has at most one remote edge |
| RevocationSettled.TrafficByTree | src/apps/kernel/KernelcallHandler.cc:775-820 | When all is quiet there has been one acknowledged REVOKE per remote edge and one acknowledged REVOKEFINISH per remote capability that settles, by the tree alone; every waiting capability that does not settle has left its entry |
| RevocationOrder.OrderedIsRun | src/apps/kernel/pes/KPE.cc:80-122 | Every run over ordered channels, one per sending and receiving kernel, is a run of the wave, so all theorems about runs hold for it |
| RevocationOrder.OrderMembers | src/apps/kernel/cap/CapTable.cc:86-118 | revoke_rec comes to each remote edge below a capability exactly once, in the order that fixes the order of its requests |
| RevocationEvents.OrderedInv | src/apps/kernel/KernelcallHandler.cc:747-820 | In every state of every ordered run the channels are queues, the log of messages agrees with the state, and the requests of one traversal were sent in its order |
| RevocationEvents.AnswersLast | src/apps/kernel/KernelcallHandler.cc:773-819 | The handler of REVOKE sends its requests and then REVOKEFINISH or a reply, that of REVOKEFINISH a report, if one is due, and then its reply |
| RevocationRaces.StepTakes | src/apps/kernel/KernelcallHandler.cc:747-820 | A step takes the one request or report that it delivers, and no other |
| RevocationRaces.NeedsTaken | src/apps/kernel/KernelcallHandler.cc:775-818 | A request is sent only after those above it have been taken; a report only after all requests and reports below it |
| RevocationOvertaking.Critical | src/apps/kernel/KernelcallHandler.cc:775-818 | In every ordered run, following the edges that report last, what a held request holds back is still held back, as far as Rest says, when its report is held back |
| RevocationOvertaking.LeftIsOutlasted | src/apps/kernel/KernelcallHandler.cc:797-818 | Every ordered run that completes a capability and leaves its entry shows that the capability can be outlasted |
| RevocationSchedules.DriveOn | src/apps/kernel/KernelcallHandler.cc:747-820 | Every ordered run can be driven on until no message but the given ones could be delivered next, and those are still undelivered |
| RevocationSchedules.OutlastingRun | src/apps/kernel/KernelcallHandler.cc:775-818 | If a capability can be outlasted, there is an ordered run to a state in which everything at and below its remote children has been taken and a report below a local child has not |
| RevocationLeftovers.TidyLeavesNothing | src/apps/kernel/cap/Revocations.cc:32-54 | An answered revocation leaves no entry, in whatever order messages arrive, if below the origin's own children nothing that waits hangs on a local edge |
| RevocationLeftovers.EveryRunLeaves | src/apps/kernel/cap/Revocations.cc:32-54 | A waiting capability below the origin without a remote child leaves its entry in every run that ends, in whatever order messages arrive |
| RevocationLeftovers.StaysIff | src/apps/kernel/cap/Revocations.cc:32-54 | On ordered channels some run that ends leaves the entry of a waiting capability if and only if the capability does not settle or can be outlasted |
| RevocationLeftovers.NothingStaysIff | src/apps/kernel/KernelcallHandler.cc:797-818 | On ordered channels no run that ends leaves any entry if and only if the tree is responsive and no waiting capability below the origin can be outlasted |
| RevocationTrees.NeverAnswered | src/apps/kernel/cap/CapTable.cc:101-109 | A tree of four capabilities whose caller sleeps for ever after every run that ends, and ordered runs of it do end |
| RevocationTrees.ChainLeaves | src/apps/kernel/cap/Revocations.cc:32-54 | A chain of four capabilities on three kernels that is answered and leaves an entry in every run that ends, and ordered runs of it do end |
| RevocationTrees.OrderOfKidsDecides | src/apps/kernel/cap/CapTable.cc:86-118 | An untidy tree of five capabilities of which every ordered run cleans up, and the same tree with two children swapped of which an ordered run does not |
| RevocationHandlers.Kernels.constructor | src/apps/kernel/cap/Revocations.h:68-125 | No entry and no message, all capabilities in their tables |
| RevocationHandlers.Kernels.AwaitMore | src/apps/kernel/cap/CapTable.cc:105-107 | The entry is created when it is missing and awaits the given number of answers more |
| RevocationHandlers.Kernels.SubscribeTo | src/apps/kernel/cap/Revocations.h:55-57 | The parent is the last subscriber of the child's entry |
| RevocationHandlers.Kernels.WaitFor | src/apps/kernel/cap/CapTable.cc:101-109 | A local child that awaits answers adds them to its parent's entry, which subscribes to it; one that awaits none changes nothing |
| RevocationHandlers.Kernels.RevokeRec | src/apps/kernel/cap/CapTable.cc:61-118 | The loop over the children, in place, does what the recursive specification says, returns the entry's counter, and sends its requests in the order of the traversal |
| RevocationHandlers.Kernels.Revoke | src/apps/kernel/KernelcallHandler.cc:747-779 | The handler performs the step of the wave, sends its requests and then REVOKEFINISH or a reply, and keeps the invariant |
| RevocationHandlers.Kernels.NotifySubscribers | src/apps/kernel/cap/Revocations.cc:25-62 | The loops over subscribers and entries subtract one answer from the local parent and go on upwards, sending at most one report, to a remote parent |
| RevocationHandlers.Kernels.CountOff | src/apps/kernel/KernelcallHandler.cc:794-818 | The counter falls by one; at zero the thread is notified, or subscribers and the remote parent are told and the entry is removed |
| RevocationHandlers.Kernels.RevokeFinish | src/apps/kernel/KernelcallHandler.cc:781-820 | The handler performs the step of the wave, sends a report if one is due and then its reply, and keeps the invariant |
| RevocationHandlers.Kernels.Reply | src/apps/kernel/KernelcallHandler.cc:986-989 | An acknowledgement is taken |
| RevocationHandlers.Kernels.Syscall | src/apps/kernel/cap/CapTable.cc:130-139 | The system call starts the wave with its requests in order, and sleeps exactly when an answer is awaited |
| RevocationHandlers.Kernels.Continue | src/apps/kernel/cap/CapTable.cc:140-144 | The woken thread removes the origin's entry and returns |
| ShutdownSafety.NextInv | src/apps/kernel/KernelcallHandler.cc:822-887 | Every exit, every delivery and every thread of a peer that goes to sleep or wakes keeps the invariant that ties counters, peer records, channels, stopped kernels and history together |
| ShutdownSafety.ExitStarts | src/apps/kernel/SyscallHandler.cc:1041-1045 | When its last VPE exits, kernel 0 asks exactly the peers that it does not know to be ready and counts them; before, an exit does nothing |
| ShutdownSafety.PeersSay | src/apps/kernel/SyscallHandler.cc:1025-1040 | In every run a peer sends a request when it gets idle unannounced, a reply to every question, at once if it is idle and else with a later exit, and the reply to SHUTDOWN when it has been told and has emptied; and nothing else |
| ShutdownSafety.BroadcastOnlyWhenIdle | src/apps/kernel/KernelcallHandler.cc:837-857 | Whenever SHUTDOWN is broadcast, kernel 0 has heard from every peer and every kernel of the system is idle, however requests crossed |
| ShutdownSafety.BroadcastReachesAll | src/apps/kernel/Coordinator.cc:179-182 | An event that broadcasts SHUTDOWN appends it to the channel of every peer that kernel 0 has a record of, and nothing else to any channel |
| ShutdownSafety.ClosingCounts | src/apps/kernel/KernelcallHandler.cc:838-852 | closingRequests is -1 while nobody was asked, and then exactly the number of peers asked and not heard, with nobody left unasked; a peer whose request crosses the question is counted off once |
| ShutdownSafety.PeerTraffic | src/apps/kernel/SyscallHandler.cc:1025-1039 | A peer volunteers, is asked and replies at most once each; its shutdownRequests are questions received minus replies sent and never negative |
| ShutdownSafety.NoRequestAfterReply | src/apps/kernel/SyscallHandler.cc:1025-1039 | A peer that has replied never volunteers again |
| ShutdownSafety.StillMeansDecided | src/apps/kernel/KernelcallHandler.cc:853-856 | When all kernels are idle, no message is on its way and anyone started it, SHUTDOWN was broadcast or kernel 0 terminated at once |
| ShutdownSafety.StopsOnlyWhenIdle | src/apps/kernel/SyscallHandler.cc:1025-1030 | A peer stops and answers SHUTDOWN only after the broadcast, when kernel 0 has heard from every peer and every kernel is idle |
| ShutdownSafety.StoppedIff | src/apps/kernel/KernelcallHandler.cc:874-880 | A peer has been told to stop exactly when SHUTDOWN was broadcast; it has stopped exactly when that reached it and no VPE, daemon or waiting thread is left, and its last message is then the reply |
| ShutdownSafety.EndsWhenStill | src/apps/kernel/KernelcallHandler.cc:881-886 | After a broadcast, when all peers have emptied and all messages to running kernels are taken, every peer has stopped and kernel 0 has terminated |
| ShutdownSafety.ZeroStopsLast | src/apps/kernel/KernelcallHandler.cc:881-886 | A message makes kernel 0 terminate if and only if after it every peer has stopped and no message of a peer is left |
| ShutdownSafety.NeverLate | src/apps/kernel/KernelcallHandler.cc:824-831 | Once kernel 0 has deleted a peer's record nothing comes from that peer any more, so no late request is ever ignored |
| ShutdownSafety.BroadcastAgainIff | src/apps/kernel/KernelcallHandler.cc:848-856 | After the first broadcast a message broadcasts SHUTDOWN once more if and only if it is a request or a reply |
| ShutdownSafety.OrderMatters | src/apps/kernel/KernelcallHandler.cc:838-856 | A run of three events after which, with the reply of a peer ahead of its request, kernel 0 stops a busy peer |
| ShutdownHandlers.Coordinator.constructor | src/apps/kernel/Coordinator.cc:30-53 | The counters and records before anything happened, for any peers |
| ShutdownHandlers.Coordinator.BroadcastShutdownRequest | src/apps/kernel/Coordinator.cc:168-177 | Exactly the unasked peers are asked and marked, and their number is returned |
| ShutdownHandlers.Coordinator.BroadcastShutdown | src/apps/kernel/Coordinator.cc:179-182 | Every peer that kernel 0 still has a record of, and no other, is sent SHUTDOWN once |
| ShutdownHandlers.Coordinator.RequestShutdown | src/apps/kernel/KernelcallHandler.cc:822-887 | Kernel 0's handlers of SHUTDOWNREQUEST and of the reply to SHUTDOWN perform the step and keep the invariant |
| ShutdownHandlers.Coordinator.ExitOnZero | src/apps/kernel/SyscallHandler.cc:1041-1045 | tryTerminate on kernel 0 performs the step and keeps the invariant |
| CapabilityExchange.RoundsAfter | src/apps/kernel/SyscallHandler.cc:728-734 | The rounds of the loop, with source selectors that may wrap around and also within one table, come to one closed effect on every slot |
| CapabilityExchange.ExchangeAllOrNothing | src/apps/kernel/SyscallHandler.cc:706-736 | A refused exchange changes nothing; an accepted one, also of a VPE with itself, copies from the other's range to the caller's for an obtain and the other way round for a delegation, fills exactly the slots of the rounds that pass a capability on, links parent and child, changes nothing else, and fills all slots if and only if every round passes one on |
| CapabilityExchange.RangeUnusedIff | src/apps/kernel/cap/CapTable.h:63-71 | With the 32-bit wrap written out: a range is unused if and only if it ends below the last selector and all its slots are empty |
| CapabilityExchange.AcceptableIff | src/apps/kernel/SyscallHandler.cc:713-725 | Which exchanges are accepted, from the arguments alone |
| CapabilityExchange.ExchangeBetween | src/apps/kernel/SyscallHandler.cc:709-734 | Between two VPEs, from the arguments alone: slot i of the destination range gets the object and the parent of slot i of the source range, whose first child it becomes, unless that is empty or a service |
| CapabilityExchange.PassesBetween | src/apps/kernel/SyscallHandler.cc:728-734 | Between different VPEs a round passes on exactly what its source slot held before the call, if that can be cloned |
| CapabilityExchange.ServiceNotPassed | src/apps/kernel/SyscallHandler.cc:706-736 | An exchange that is accepted and fills no slot |
| MemoryRuns.CallStep | src/apps/kernel/SyscallHandler.cc:632-736 | Each call, and each half of an obtain across kernels, keeps every memory capability nonempty and inside its parent, and keeps permissions falling exactly when its offset is covered |
| MemoryRuns.MayRequestIff | src/apps/kernel/SyscallHandler.cc:644-647 | Which requests are not refused: an empty slot, a positive multiple of eight bytes and one to seven as permissions |
| MemoryRuns.MayDeriveIff | src/apps/kernel/SyscallHandler.cc:673-679 | Which derivations are accepted, over unbounded integers: a nonempty part of a memory capability, up to its very end, into an empty slot, with permission bits |
| MemoryRuns.ObtainAcross | src/apps/kernel/KernelcallHandler.cc:513-590 | An obtain across kernels as a whole: slot i of what is offered before the first hole becomes the parent of slot i of the client's range, which gets its object unless that is a service |
| MemoryRuns.MemoryStaysInside | src/apps/kernel/SyscallHandler.cc:644-692 | From any start, with the memory that VPEs are created with, after every run over all kernels each memory capability has a nonempty range inside what the capability it descends from was created with, with the 64-bit overflow check doing its work; with covered offsets it has no permission that was not given there |
| MemoryRuns.RequestedExactly | src/apps/kernel/SyscallHandler.cc:644-659 | A requested capability has exactly the range that the allocator found and the permissions asked for |
| MemoryRuns.DerivedExactly | src/apps/kernel/SyscallHandler.cc:678-689 | At an aligned offset the derived capability has exactly the range asked for and the permissions asked for that the source has |
| MemoryRuns.PermissionsFall | src/apps/kernel/SyscallHandler.cc:681-689 | After every run each memory capability's permissions are among those of all its ancestors if and only if every derivation's offset was covered |
| MemoryRuns.AlignedIsCovered | src/apps/kernel/cap/Capability.h:229-235 | Aligned offsets are always covered |
| MemoryRuns.UncoveredRun | src/apps/kernel/SyscallHandler.cc:681-689 | In the table of a new VPE, with its own two capabilities, a request and a derivation after which a child has a permission that its parent lacks |
| RemoteObtain.FirstHole | src/apps/kernel/KernelcallHandler.cc:559-581 | The length of the longest prefix of the offered range without an empty slot |
| RemoteObtain.LinkedSlots | src/apps/kernel/KernelcallHandler.cc:559-569 | Exactly the capabilities that are shipped get a child, each the key of its own slot at the client |
| RemoteObtain.ChildAdded | src/apps/kernel/cap/Capability.cc:31-57 | A child is added once and the others keep their order; it goes first, or second if it is on a remote kernel with a higher number than that of the first child |
| RemoteObtain.LocalFirstIff | src/apps/kernel/cap/Capability.cc:31-57 | Local children stay in front of remote ones if and only if the new child is local, or there are no local ones, or just one and the new child's kernel has a higher number |
| RemoteObtain.RemoteInFront | src/apps/kernel/cap/Capability.cc:31-57 | A remote child that is put in front of a local one |
| RemoteObtain.InsertedSlots | src/apps/kernel/SyscallHandler.cc:874-885 | The client's kernel fills exactly the slots of the shipped capabilities that can be cloned, with the object and the parent that were shipped |
| RemoteObtain.ObtainCorresponds | src/apps/kernel/KernelcallHandler.cc:559-590 | Slot i of the prefix, shipped capability i and client slot i belong together, for every range and hole |
| RemoteObtain.ObtainFrame | src/apps/kernel/KernelcallHandler.cc:513-590 | A request is refused exactly when the types differ or more is offered than asked for, and then nothing changes on either side. Otherwise nothing else changes, no slot is filled at the client but those promised, and a range in use changes nothing there |
| RemoteObtain.OneToOne | src/apps/kernel/SyscallHandler.cc:874-885 | The slots filled at the client are the child keys added at the service's kernel if and only if everything shipped can be cloned |
| RemoteObtain.ServiceNotTaken | src/apps/kernel/SyscallHandler.cc:874-885 | A service capability that is linked and shipped, and whose slot at the client stays empty |
| CapabilityHandlers.Tables.constructor | src/apps/kernel/pes/VPE.cc:48-49 | The tables that a run may start with are valid: every memory capability is inside its allocation, and permissions fall |
| CapabilityHandlers.Tables.RangeUnused | src/apps/kernel/cap/CapTable.h:63-71 | True exactly when the range ends below the last selector and all its slots are empty |
| CapabilityHandlers.Tables.Obtain | src/apps/kernel/cap/CapTable.cc:39-54 | Clone, link as child and fill the slot, or nothing for a missing or uncloneable source |
| CapabilityHandlers.Tables.DoExchange | src/apps/kernel/SyscallHandler.cc:706-736 | The method performs the exchange for any two VPEs, equal or not, copying slot by slot in the right direction, returns the error exactly when the arguments are not acceptable, and keeps memory confined and permissions falling |
| CapabilityHandlers.Tables.PassOn | src/apps/kernel/SyscallHandler.cc:728-734 | The loop, also within one table; the assertion in it never fails |
| CapabilityHandlers.Tables.ReqMem | src/apps/kernel/SyscallHandler.cc:632-660 | The arguments that are refused; otherwise the caller gets exactly the memory that the allocator found, with the permissions asked for, in a slot that was empty, and nothing else changes, or the allocator had none. Memory stays confined and permissions fall as before |
| CapabilityHandlers.Tables.DeriveMem | src/apps/kernel/SyscallHandler.cc:662-693 | Accepted exactly if the source holds memory, the destination is empty and offset plus size, as integers, stay within a nonempty part of it. The caller gets a child of the source with that size at that offset, less its low three bits, and the common permissions with those bits. Memory stays confined, and permissions still fall if and only if the offset was covered |
| CapabilityHandlers.Tables.ServeObtain | src/apps/kernel/KernelcallHandler.cc:513-590 | The callback answers and links as specified, and memory stays confined |
| CapabilityHandlers.Tables.LinkChildren | src/apps/kernel/KernelcallHandler.cc:559-581 | The loop that shrinks its own bound stops at the first hole, having linked everything before it |
| CapabilityHandlers.Tables.Serialize | src/apps/kernel/KernelcallHandler.cc:584-587 | One shipped capability per found one, in order |
| CapabilityHandlers.Tables.FinishObtain | src/apps/kernel/SyscallHandler.cc:841-885 | The client's kernel fills the slots or refuses as specified; the assertion in the loop never fails, and memory stays confined across kernels |
| CapabilityHandlers.Tables.InsertAll | src/apps/kernel/SyscallHandler.cc:874-885 | The loop over the shipped capabilities fills the slots as specified; none of them is in use |
| CacheSlots.Find | src/apps/m3fs/Cache.cc:31-37 | The first slot that holds the block |
| CacheReplacement.VictimOldest | src/apps/m3fs/Cache.cc:39-51 | With all slots in use, the search finds a slot with the smallest stamp |
| CacheReplacement.VictimFree | src/apps/m3fs/Cache.cc:42-46 | With occupied slots forming a prefix, it finds the first free slot |
| CacheReplacement.VictimIs | src/apps/m3fs/Cache.cc:39-51 | In any table: the first free slot or, if there is none, the first with the smallest stamp |
| CacheReplacement.AfterHolds | src/apps/m3fs/Cache.cc:29-67 | After every trace within the clock's range occupied slots form a prefix, hold distinct blocks and are exactly the most recent ones |
| CacheReplacement.KeepsMostRecent | src/apps/m3fs/Cache.cc:29-67 | After every such trace the cache holds exactly the n most recently requested distinct blocks, or all of them if fewer |
| CacheReplacement.LargerHoldsMore | src/apps/m3fs/Cache.cc:29-67 | On the same trace a smaller cache's contents are among a larger one's |
| CacheLimits.BufferStays | src/apps/m3fs/Cache.cc:31-66 | A block stays in the slot its request returned until as many other distinct blocks have been requested as there are slots |
| CacheLimits.RightUntilTheClockWraps | src/apps/m3fs/Cache.cc:30-51 | The replacement is right on all traces of a length if and only if the length is at most 2^32 |
| CacheStore.RequestContents | src/apps/m3fs/Cache.cc:29-67 | A request returns the block's content; contents change at most for an evicted block that is not marked, which gets its DRAM copy back; the slot is dirty exactly if it was asked for writing or was dirty with that block |
| CacheStore.RequestFrame | src/apps/m3fs/Cache.cc:29-67 | No other slot's flag or buffer changes; the DRAM changes only where a dirty block has to make room, and gets its buffer |
| CacheRefinement.RequestKeepsContents | src/apps/m3fs/Cache.cc:53-66 | The exact condition under which a request keeps all contents |
| CacheRefinement.UnmarkedIsLost | src/apps/m3fs/Cache.cc:53-66 | A store through the pointer to a block that was requested for reading, lost with the next request |
| CacheRefinement.PutContents | src/apps/m3fs/Cache.cc:35 | A store through a returned pointer replaces exactly that block, and leaves the store in step if and only if the slot is dirty or the value is the DRAM's |
| CacheRefinement.MarkContents | src/apps/m3fs/Cache.cc:69-76 | Marking makes exactly the block's slot dirty, which puts it in step, and changes nothing else |
| CacheRefinement.WriteBackContents | src/apps/m3fs/Cache.cc:78-85 | Writing back changes no contents and brings the DRAM copy up to date; only a dirty slot of the block is written, to its block alone, and is clean then |
| CacheRefinement.FlushReachesDram | src/apps/m3fs/Cache.cc:87-98 | After a flush the DRAM holds the contents if and only if every unmarked buffer was in step |
| CacheRefinement.FlushWrites | src/apps/m3fs/Cache.cc:87-98 | A flush writes exactly the dirty buffers, each to its block |
| CacheRefinement.ApplyRefines | src/apps/m3fs/Cache.cc:29-98 | Each operation does to the contents what it would do to a flat store, and finds what it would find there |
| CacheRefinement.ReadsLastWritten | src/apps/m3fs/Cache.cc:29-98 | In every run each operation finds the value last written to its block, through all hits, evictions and write-backs |
| CacheRefinement.FlushedRun | src/apps/m3fs/Cache.cc:87-92 | After a run and a flush the DRAM holds what was last written |
| CacheRefinement.TableFollowsRequests | src/apps/m3fs/Cache.cc:29-67 | The slot table depends on the requests alone |
| CacheRefinement.HeldPointer | src/apps/m3fs/Cache.cc:31-76 | A pointer held across other operations that request fewer other blocks than there are slots still stores to its block, and with mark_dirty the store is not lost |
| BlockCache.Cache.constructor | src/apps/m3fs/Cache.cc:24-27 | All slots empty and clean |
| BlockCache.Cache.GetBlock | src/apps/m3fs/Cache.cc:29-67 | The two search loops, the eviction and the load perform the request; the returned buffer holds the block's content, and its slot is dirty exactly if it was asked for writing or was dirty with that block |
| BlockCache.Cache.FindLru | src/apps/m3fs/Cache.cc:39-51 | The loop with its early exit finds the victim |
| BlockCache.Cache.FlushBlock | src/apps/m3fs/Cache.cc:94-98 | The buffer is written to its block of the DRAM and the slot is clean |
| BlockCache.Cache.MarkDirty | src/apps/m3fs/Cache.cc:69-76 | The new state; contents unchanged |
| BlockCache.Cache.WriteBack | src/apps/m3fs/Cache.cc:78-85 | The new state; contents unchanged |
| BlockCache.Cache.Flush | src/apps/m3fs/Cache.cc:87-92 | The new state; contents unchanged, and in the DRAM if the store was in step |
| BlockCache.Cache.Serve | src/apps/m3fs/Cache.cc:29-98 | A run of operations answers as the flat store of the contents would |
| SendQueues.ApplyInv | src/apps/kernel/SendQueue.h:51-84 | Each send, reply and use of the heap by others keeps the invariant |
| SendQueues.ClosedForm | src/apps/kernel/SendQueue.h:51-84 | After s sends and r replies exactly the first min(s, capacity + r) of the messages that the sends gave, gate and payload, are out, in order; messages wait only when all credits are in use; exactly the buffers of transmitted messages, their own or those they were copied to while they waited, have been freed, each once, and those of waiting messages are intact |
| SendQueues.HeapFrame | src/apps/kernel/SendQueue.h:51-84 | No operation touches a heap buffer but the ones it frees and the new one that a message is copied to when it has to wait |
| SendQueues.NoCapacity | src/apps/kernel/SendQueue.h:51-65 | Without capacity nothing is ever sent |
| SendQueues.SendQueue.constructor | src/apps/kernel/SendQueue.h:41-42 | Nothing pending and nothing in flight |
| SendQueues.SendQueue.SendCopy | src/apps/kernel/SendQueue.h:51-65 | The state after sending a message that is not on the heap: transmitted, or copied and queued |
| SendQueues.SendQueue.SendBuffer | src/apps/kernel/SendQueue.h:51-65 | The state after sending a heap buffer: transmitted and freed, or queued as it is |
| SendQueues.SendQueue.ReceivedReply | src/apps/kernel/SendQueue.h:67-76 | The credit goes to the message that waits longest, whose buffer is freed |
| SendQueues.SendQueue.DoSend | src/apps/kernel/SendQueue.h:79-84 | Transmit, free once, count |
| Endpoints.EndpointInRange | src/apps/kernel/KernelcallHandler.h:33-34 | The endpoint of every table entry is one of the gates |
| Endpoints.RoomExact | src/apps/kernel/KernelcallHandler.h:33-34 | The table has as many entries as peers whose messages the slots of all endpoints can take, and no more |
| Endpoints.CapacityIff | src/apps/kernel/KernelcallHandler.h:69-83 | For any number of reservations the messages of the peers with one endpoint fit its slots, if and only if slots are a multiple of messages per peer or the table has no more room than one endpoint |
| Endpoints.CapacityExceeded | src/apps/kernel/KernelcallHandler.h:69-83 | A layout in which three peers of two messages each share five slots |
| Endpoints.ReservedIs | src/apps/kernel/KernelcallHandler.h:76-83 | Reservations fill the table from the front and never move an entry |
| Endpoints.FoundForever | src/apps/kernel/KernelcallHandler.h:69-83 | A reservation for a new id fails if and only if the table is full; otherwise ep_for returns its endpoint now and after all later reservations |
| Endpoints.EndpointTable.constructor | src/apps/kernel/KernelcallHandler.cc:49-50 | All entries free |
| Endpoints.EndpointTable.ReserveEp | src/apps/kernel/KernelcallHandler.h:76-83 | The first free entry is taken and its endpoint, within the gates, returned; -1 and no change if there is none |
| Endpoints.EndpointTable.EpForId | src/apps/kernel/SyscallHandler.h:76-81 | The endpoint of the first entry with the id, or -1 |
| HandshakeSafety.AnnounceInv | src/apps/kernel/KernelcallHandler.cc:906-914 | Asking a peer keeps the invariant of all handshakes |
| HandshakeSafety.RequestInv | src/apps/kernel/KernelcallHandler.cc:934-964 | So does answering, with an endpoint or with a refusal |
| HandshakeSafety.ReplyInv | src/apps/kernel/KernelcallHandler.cc:965-983 | So does taking the answer |
| HandshakeSafety.EndpointsMatch | src/apps/kernel/KernelcallHandler.cc:906-984 | After every run the local endpoint on each side of a connection is the remote one on the other and the one ep_for returns; the kernel that asked never lists a peer that does not list it; with no message on its way both list each other or neither does |
| HandshakeSafety.NeverUnexpected | src/apps/kernel/KernelcallHandler.cc:977-978 | The panic on an unexpected answer is never reached |
| HandshakeSafety.HandshakeConnects | src/apps/kernel/KernelcallHandler.cc:906-984 | A handshake by itself: if both kernels have a free entry each lists the other with the endpoints of these entries and the request is forgotten; if the asked one has none neither does and both remember it; no message is left |
| HandshakeSafety.NoSlotToAsk | src/apps/kernel/KernelcallHandler.cc:909-911 | A kernel without a free entry stops when it is to ask, and sends nothing |
| HandshakeHandlers.Node.constructor | src/apps/kernel/KernelcallHandler.cc:43-50 | No entries, requests or peers |
| HandshakeHandlers.Node.AnnounceKrnls | src/apps/kernel/KernelcallHandler.cc:906-914 | The loop asks every announced kernel in turn and stops when no slot is left |
| HandshakeHandlers.LoopAnnounces | src/apps/kernel/KernelcallHandler.cc:906-914 | The loop does to the kernel what the announcements do one by one, and its messages are exactly those that they put on the net |
| HandshakeHandlers.Node.ConnectRequest | src/apps/kernel/KernelcallHandler.cc:934-964 | The new state and the answer, also of a refusal |
| HandshakeHandlers.Node.ConnectReply | src/apps/kernel/KernelcallHandler.cc:965-983 | The loop finds and removes the request; the peer is listed with both endpoints |
| LoadGen.WorkKeeps | src/apps/loadgen/LoadGenWorkLoop.cc:24-74 | A busy item has sent one request more than it finished rounds, and leaves the loop exactly when it is done |
| LoadGen.StepEnds | src/apps/loadgen/LoadGenWorkLoop.cc:38-71 | Over any messages to one item: it adds up their lengths and stays in its step as long as they are below the step's target; the message that brings them there ends the step, and after a payload the round |
| LoadGen.RoundEnds | src/apps/loadgen/LoadGenWorkLoop.cc:38-71 | A header and a payload make up one round, after which the next request is out or the item is done |
| LoadGen.ExitMeansDone | src/apps/loadgen/LoadGenWorkLoop.h:113-150 | An item has left the loop if and only if it has done its rounds, with exactly maxRounds requests; none sends more, and one with no rounds to do never leaves; when the loop ends all items but as many as are permanent have, and all of them if none is |
| LoadGen.LoopServes | src/apps/loadgen/LoadGenWorkLoop.h:123-149 | As long as there are more items than are permanent, the first one with the message's label takes it in and leaves exactly if it is done, and nothing else changes; after that no message is taken in, so as many as are permanent stay |
| LoadGen.RunEnds | src/apps/loadgen/LoadGenWorkLoop.h:113-150 | If every item has a round to do, a bound on the messages of positive length that are taken in before the loop ends |
| LoadGenPolling.PollCloser | src/apps/loadgen/LoadGenWorkLoop.h:130-140 | A pass that serves another endpoint brings the scan closer to a waiting one |
| LoadGenPolling.ServedSoon | src/apps/loadgen/LoadGenWorkLoop.h:123-140 | A waiting endpoint is served after at most n - 1 messages of others and within n + 1 passes, whatever arrives |
| LoadGenPolling.InOrder | src/apps/loadgen/LoadGenWorkLoop.h:130-140 | Over any passes and arrivals no message is lost or taken twice, and those of one endpoint are taken in the order they came |
| LoadGenLoop.RemoveExact | src/apps/loadgen/LoadGenWorkLoop.h:102-112 | The exact condition under which remove leaves just the other live items, in order |
| LoadGenLoop.RemovedTwice | src/apps/loadgen/LoadGenWorkLoop.h:102-112 | An item that has left and is removed once more takes a live one out of the loop |
| LoadGenLoop.WorkItem.constructor | src/apps/loadgen/LoadGenWorkLoop.h:38-43 | A fresh item |
| LoadGenLoop.WorkItem.SendRequest | src/apps/loadgen/LoadGenWorkLoop.cc:27-37 | One request more, and the header is awaited |
| LoadGenLoop.WorkItem.TakeIn | src/apps/loadgen/LoadGenWorkLoop.cc:38-71 | The item's new state, and the loop without it when it is done |
| LoadGenLoop.WorkLoop.constructor | src/apps/loadgen/LoadGenWorkLoop.h:79-80 | No items, and none permanent |
| LoadGenLoop.WorkLoop.Add | src/apps/loadgen/LoadGenWorkLoop.h:95-100 | The item is the last live one, and counted if it is permanent |
| LoadGenLoop.WorkLoop.Remove | src/apps/loadgen/LoadGenWorkLoop.h:102-112 | The array and the count after the search and the shift, for every array |
| LoadGenLoop.WorkLoop.Shift | src/apps/loadgen/LoadGenWorkLoop.h:105-107 | The gap is closed in place; the last place keeps its item |
| LoadGenLoop.WorkLoop.Start | src/apps/loadgen/LoadGenWorkLoop.h:115-118 | Every item has sent its first request |
| LoadGenLoop.WorkLoop.Dispatch | src/apps/loadgen/LoadGenWorkLoop.h:142-148 | The first live item with the label takes the message in |
| LoadGenLoop.WorkLoop.Run | src/apps/loadgen/LoadGenWorkLoop.h:113-150 | The state is that of the messages taken in; when no more items are left than are permanent, all others have sent exactly maxRounds requests |
| LoadGenLoop.Gates.PollPass | src/apps/loadgen/LoadGenWorkLoop.h:132-139 | One pass takes the first message from the selected endpoint on and selects the next endpoint |

## Left out

- Waiting for a message slot in the middle of revoke_rec (`KPE::sendRevocationTo`), where other handlers can run.
- Overlapping revocations, revoking a range, and the removal of the child pointer at the origin's parent after the wave.
- Failing revocations of service capabilities, on which the kernel stops the machine.
- The shutdown handlers of a peer as methods that update its fields: they are functions on the peer's value, and only kernel 0's handlers are methods. What happens after `PEManager::terminate`.
- Exchanges of map-capability ranges, where the code checks one table and fills the other; delegation across kernels, and the cancel message after a failed remote obtain.
- MemoryRuns.MemoryStaysInside: takes the allocator's answers as aligned and inside the address space; the allocator is not modelled.
- Reference counting of memory objects, and freeing them on revocation.
- Byte offsets inside the cache's data buffer and the DRAM; a block is the unit.
- CacheReplacement.KeepsMostRecent: stated for traces within the range of the clock, because `RightUntilTheClockWraps` shows that it is false beyond.
- Failure of the heap allocator in the send queue.
- Connections that are set up when a kernel is started, and membership migration.
- `LoadGenWorkLoop::stop` and the shutdown message to the servers.
- `KVStore`, which is a plain map here, and marshalling, tracing, device access and the remaining services and applications, which would only add easy members.
