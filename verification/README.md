# VeraPort, verified

A Dafny model of VeraPort's execution kernel and proofs about it: the workstation agent (lanes,
fences, the durable request ledger, lane locks, managed processes), the controllers that fail
over between sessions, the wire layer, and bounded search and output.

Code that changes fields in place is modelled as classes and loops proved against specification
functions. Code whose point is concurrency is modelled as a machine of small steps: every place
where a coroutine or thread can be suspended, cancelled or crash ends a step, and the theorems
range over all runs. Times are reals or integers that the environment supplies; the network,
the clock, the disk, randomness and remote replies are parameters, so they may do anything.

| part | modules |
|---|---|
| lanes and fences | `Resources`, `LaneRegistry`, `LaneRuns`, `LaneLocks`, `LaneProcesses` |
| requests | `StateStore`, `LedgerRuns`, `ExactlyOnce` |
| controllers | `Ordering`, `PathSelection`, `Failover`, `GatewayPaths`, `LogicalFences`, `GatewayReadLanes`, `ReadRouter` |
| sessions and wire | `SessionScope`, `SigningBytes`, `Handshake`, `Framing`, `Admission` |
| shared | `Outcomes`, `Collections` |
| search and output | `SearchPages`, `TreeSearch`, `PathSearch`, `ContentSearch`, `PipeBuffer` |

Verify with `dafny verify dfyconfig.toml`.

## Results that need a condition

- **Restart.** Ended (lane, fence) pairs stay dead across restarts only with the durable fence
  counter; `LaneRuns.ForgetfulRestartRevives` is the run that shows it.
- **Cancelled start.** After `lane.close`, nothing of the lane runs unless a handler was cancelled
  between authorizing a start and the end of its spawn: the worker thread goes on without the
  lane lock. `LaneProcesses.CancelledStartOutlivesClose` builds the run from any state with an
  authorized start on a live lane.
- **Lock table.** Cancellation while waiting for a lane lock, or while counting out, leaks a user
  count, because the acquisition is outside the `try` and the guard is awaited. Mutual exclusion
  is not affected; which entries stay is exact.
- **Close during open.** The Python router publishes a lane before its first mirror is open and
  opens without the lane's lock. A close that overtakes the open succeeds and leaves that mirror.
  A close after the open has ended leaves none. Only the open returns the fence, which carries a
  96-bit random epoch, so a caller would have to guess it.
- **Router fences.** The Python router shifts its epoch by 32 bits and never bounds its counter.
  Fewer than 2^32 opens get different fences; from there on fences repeat if the epoch is odd.
- **Permits.** A request task that is cancelled before its first step never reaches its `finally`,
  so its permit is lost. Every other cancellation keeps the count.
- **Path ids.** The pool looks endpoints up by path id. The order of attempts needs unique path
  ids, which the runtime provides by using the endpoint id; that no endpoint is tried twice, the
  retry rule for mutations and the report do not.
- **Lost mutations.** They end in `AmbiguousDelivery` exactly if no candidate may follow; if the
  only candidates left are not eligible, the earlier `StreamClosed` is raised.
- **Capability text.** Signing bytes determine the capability set for comma-free names, except
  that the empty list and the list of one empty name give the same text. The agreement theorem
  therefore asks for names that are not empty and have no comma.
- **Frame length.** The Go writer stores the length in 32 bits. With a configured limit above
  2^32 the round trip holds exactly for payloads shorter than that.
- **Byte budget.** Content search reports the byte limit also when the last file uses the budget
  up exactly, so `truncated` does not always mean that something was left out.

Session ids are base64url (section 5 of RFC 4648) and have no colon.

## Model

| member | source | states |
|---|---|---|
| `Resources.OverlapIffCommonResource` | reference/veraport_agent/veraport_agent/core.py:228-243 | two claims overlap exactly if some resource lies in the reach of both (prefix paths within one namespace, case folded) |
| `Resources.CoverageLiftsOverlap` | reference/veraport_agent/veraport_agent/core.py:228-258 | if two claims cover two overlapping accesses, the claims overlap too, and a write needs a write claim on its side |
| `Resources.AncestorsAreComparable` | reference/veraport_agent/veraport_agent/core.py:233-243 | two paths above a common path lie one within the other; without this, coverage would not lift to overlap |
| `StateStore.AgentStateStore.NextFence` | reference/veraport_agent/veraport_agent/state.py:103-121 | the fence counter goes up by exactly one in a transaction, or nothing changes |
| `StateStore.AgentStateStore.BeginRequest` | reference/veraport_agent/veraport_agent/state.py:150-215 | in one transaction: new exactly if the id is unknown and there is room, full if there is none; a known id replays if completed under the same digest, is a conflict under another one, and of unknown outcome while pending; only a new request changes the ledger |
| `StateStore.AgentStateStore.CompleteRequest` | reference/veraport_agent/veraport_agent/state.py:217-268 | succeeds exactly for a known id under the same digest that is pending or already holds this very response; otherwise nothing changes |
| `StateStore.AgentStateStore.RequestLedgerHealth` | reference/veraport_agent/veraport_agent/state.py:130-148 | "full, fail closed" is reported exactly if every unknown request would be refused; the remaining room is exact |
| `StateStore.TransactionsExtend` | reference/veraport_agent/veraport_agent/state.py:150-268 | every transaction keeps the digests, the completed responses and the capacity bound |
| `LaneRegistry.Registry.OpenLane` | reference/veraport_agent/veraport_agent/core.py:88-138 | succeeds exactly for a well formed request within the ceiling that finds its id free, room, and no conflicting claim among the unexpired lanes, and gets a larger fence; the new lane is what was asked for; the durable counter moves exactly if a fence was taken |
| `LaneRegistry.Registry.RequireLane` | reference/veraport_agent/veraport_agent/core.py:199-208 | found exactly if known, of this fence and unexpired; unknown, stale and expired pairs have their own errors, and an expired lane is removed on the way |
| `LaneRegistry.Registry.Renew` | reference/veraport_agent/veraport_agent/core.py:140-155 | for a live pair and a positive time the expiry becomes now plus that time; nothing else changes |
| `LaneRegistry.Registry.Close` | reference/veraport_agent/veraport_agent/core.py:157-162 | a live pair is removed, and only that one |
| `LaneRegistry.Registry.Authorize` | reference/veraport_agent/veraport_agent/core.py:164-186 | succeeds exactly for a live pair whose lane has the capability and, if a resource is named, a claim in its namespace, at or above its path, and for writing if it is a write |
| `LaneRegistry.Registry.Snapshot` | reference/veraport_agent/veraport_agent/core.py:188-192 | lists exactly the lanes that have not expired, in the order of their ids |
| `LaneRegistry.OpenKeepsConsistent` | reference/veraport_agent/veraport_agent/core.py:88-138 | opening keeps: claims of different lanes compatible, fences distinct and below the mark, capabilities within the ceiling, at most the allowed number of lanes |
| `LaneRegistry.OnlyLivePairsAct` | reference/veraport_agent/veraport_agent/core.py:140-186 | renewal and close succeed exactly for live pairs, authorization for live pairs only |
| `LaneRegistry.AuthorizedIsExact` | reference/veraport_agent/veraport_agent/core.py:164-186 | the same of the registry as a value, for every table and access |
| `LaneRegistry.AuthorizedOverlapsAreReads` | reference/veraport_agent/veraport_agent/core.py:109-137 | in a consistent table, two lanes authorized at one instant on overlapping resources both read |
| `LaneRuns.RunKeepsInv` | reference/veraport_agent/veraport_agent/core.py:60-214 | every run of opens, renewals, closes, authorizations, reaping, clock movement and restarts keeps the table consistent |
| `LaneRuns.Perform` | reference/veraport_agent/veraport_agent/core.py:60-214 | each call of the registry object moves table and fence counter as the event of the machine does |
| `LaneRuns.ReachableExclusion` | reference/veraport_agent/veraport_agent/core.py:164-186 | in every reachable state, two different lanes authorized at one instant on overlapping resources both read |
| `LaneRuns.AuthorizedWasRequested` | reference/veraport_agent/veraport_agent/core.py:88-186 | over every run, whatever is authorized was asked for: some open of the run named this lane and this capability, within the ceiling, and claimed the resource |
| `LaneRuns.DurableOpen` | reference/veraport_agent/veraport_agent/core.py:121-137 | an open that nothing stands against adds the lane under the store's next fence, which a restart does not give back |
| `LaneRuns.EndedPairsNeverActAgain` | reference/veraport_agent/veraport_agent/core.py:121-162 | a (lane, fence) pair that was live and ended never authorizes, renews or closes again in any continuation, including reopening under the same id and restarts with the durable counter |
| `LaneRuns.DeadPairsStayDead` | reference/veraport_agent/veraport_agent/core.py:199-214 | every step of such a continuation keeps a dead pair dead |
| `LaneRuns.ForgetfulRestartRevives` | reference/veraport_agent/veraport_agent/core.py:121-137 | without the durable counter a restart can bring a closed pair back: the condition is needed |
| `LaneLocks.LaneLockTable.Enter` | reference/veraport_agent/veraport_agent/protocol.py:54-64 | the lane gets one lock object while anyone uses it, and the user count goes up |
| `LaneLocks.LaneLockTable.Leave` | reference/veraport_agent/veraport_agent/protocol.py:66-77 | the count goes down, and the entry is dropped with the last user if it is still the same lock |
| `LaneLocks.MutualExclusion` | reference/veraport_agent/veraport_agent/protocol.py:49-77 | over every interleaving, tasks of one lane share one lock object and at most one of them is inside |
| `LaneLocks.DroppedOnlyWhenUnused` | reference/veraport_agent/veraport_agent/protocol.py:66-77 | an entry is dropped only by its last user, and nobody is left |
| `LaneLocks.LeaksCountCancellations` | reference/veraport_agent/veraport_agent/protocol.py:59-66 | the user counts that are never given back are exactly the cancellations outside the lock, while waiting for it or while counting out |
| `LaneLocks.QuiescentTable` | reference/veraport_agent/veraport_agent/protocol.py:49-77 | when all tasks are gone, an entry is left exactly for the lanes where a task was cancelled outside the lock; without cancellation the table is empty |
| `LaneLocks.UnusedLaneIsPassed` | reference/veraport_agent/veraport_agent/protocol.py:49-77 | a task that finds its lane unused goes in and out if nothing interferes, and the table is as before |
| `LaneProcesses.ClosedLaneRunsNothing` | reference/veraport_agent/veraport_agent/protocol.py:186-202 | once lane.close succeeds, no managed process of that (lane, fence) is running, then or at any later time, unless a handler was cancelled in the middle of a start |
| `LaneProcesses.RunKeepsInv` | reference/veraport_agent/veraport_agent/rdc_surface.py:886-905 | every step keeps: only lock holders start or close, a closer still has every running process of its pair on its list, closed pairs stay dead |
| `LaneProcesses.OnlyOwnersTerminate` | reference/veraport_agent/veraport_agent/rdc_surface.py:886-905 | over every run, cancellations included, a running process goes on running unless it ends by itself or a task that holds its own lane's lock closes its own lane and fence |
| `LaneProcesses.UndisturbedClose` | reference/veraport_agent/veraport_agent/protocol.py:186-202 | a close of a live lane that is left alone goes through: the lane is gone, exactly its own processes are stopped, all others are as they were |
| `LaneProcesses.UndisturbedStart` | reference/veraport_agent/veraport_agent/rdc_surface.py:539-603 | a start runs a process of its own lane and fence exactly if the registry authorizes it |
| `LaneProcesses.FinishedTasksLeave` | reference/veraport_agent/veraport_agent/protocol.py:66-77 | a task whose work is finished frees its lane's lock and goes |
| `LaneProcesses.SpawnKeepsAccounted` | reference/veraport_agent/veraport_agent/rdc_surface.py:556-603 | a process that is started never escapes a closer of the same lane |
| `LaneProcesses.CloserIsAlone` | reference/veraport_agent/veraport_agent/protocol.py:418-431 | no start is authorized and unfinished on a lane that is being closed |
| `LaneProcesses.CancelledStartOutlivesClose` | reference/veraport_agent/veraport_agent/rdc_surface.py:556-571 | from every state in which a start is authorized on a live lane, cancelling its handler leads to a run where the lane is closed, its other processes are terminated, and a process of it runs: the condition is needed |
| `LedgerRuns.AtMostOnce` | reference/veraport_agent/veraport_agent/protocol.py:90-135 | over every interleaving of calls, retries, ledger failures, cancellations and crashes, each id reaches dispatch at most once, the ledger stays within capacity, and a success reply is the recorded response of the one execution, apart from the replay mark |
| `LedgerRuns.LedgerIsPermanent` | reference/veraport_agent/veraport_agent/state.py:150-268 | over every continuation a record keeps its digest and, once completed, its response |
| `LedgerRuns.DispatchedWasReceived` | reference/veraport_agent/veraport_agent/protocol.py:79-135 | only a request that was received is ever dispatched |
| `LedgerRuns.RunKeepsInv` | reference/veraport_agent/veraport_agent/protocol.py:79-145 | the invariant behind both: pending records belong to the one call in progress, completed ones to an execution |
| `LedgerRuns.Handler.Handle` | reference/veraport_agent/veraport_agent/protocol.py:79-145 | a mutation is dispatched exactly if the ledger takes it as new; then it is answered with what it returned and recorded, or left pending if that fails; a known id is never dispatched and replays exactly a completed record of the same digest; other operations are dispatched and leave the ledger alone |
| `LedgerRuns.HandleTwice` | reference/veraport_agent/veraport_agent/protocol.py:90-135 | two calls with one new id execute once in all; the second is answered with the first one's response, marked, or refused under another digest |
| `LedgerRuns.CrashedRequestIsRefused` | reference/veraport_agent/veraport_agent/state.py:150-215 | a crash loses every call and nothing durable; a request it interrupted after admission is refused from then on |
| `LedgerRuns.HandledIsARun` | reference/veraport_agent/veraport_agent/protocol.py:79-145 | one undisturbed call of the handler is a run of the interleaved machine |
| `LedgerRuns.RetryIsIdempotent` | reference/veraport_agent/veraport_agent/protocol.py:100-135 | a retry after a dispatch never dispatches again, changes nothing, and replays the reply if it was recorded |
| `PathSelection.SelectPath` | reference/veraport_agent/veraport_agent/synchrony.py:37-80 | picks an observed, recent, authenticated and healthy path, or none exactly if there is none; direct before edge before relay, then the shorter known round trip, then the smaller id; the rejections are listed with their reasons |
| `PathSelection.RejectionIsExact` | reference/veraport_agent/veraport_agent/synchrony.py:52-70 | which paths are rejected for which reason, the first that applies |
| `Failover.HotSessionPool.Register` | reference/veraport_agent/veraport_agent/controller.py:69-71 | the endpoint replaces its namesake in its route and changes no other |
| `Failover.HotSessionPool.CurrentEndpoints` | reference/veraport_agent/veraport_agent/controller.py:172-191 | exactly the unexpired endpoints of the route |
| `Failover.HotSessionPool.Request` | reference/veraport_agent/veraport_agent/controller.py:87-170 | the failover loop ends with attempts the rules allow and the report they call for; if path ids are unique, each attempt is the best one left |
| `Failover.OutcomeIsUnique` | reference/veraport_agent/veraport_agent/controller.py:106-170 | best attempts and the report leave one outcome only |
| `Failover.AttemptsAreBounded` | reference/veraport_agent/veraport_agent/controller.py:126-150 | no endpoint is tried twice, so there are at most as many attempts as candidates |
| `Failover.AttemptsAreOrdered` | reference/veraport_agent/veraport_agent/controller.py:126-142 | attempts come in strictly increasing (mode, round trip, id) order |
| `Failover.MutationRetriesStayInSession` | reference/veraport_agent/veraport_agent/controller.py:152-170 | a mutation is tried a second time only if every attempt is durable and in one session |
| `Failover.MutationsAreRetried` | reference/veraport_agent/veraport_agent/controller.py:152-170 | a mutation fails for lost transports only if the last endpoint was not durable or no untried candidate is durable, of its session and eligible |
| `Failover.EligibleMeansTried` | reference/veraport_agent/veraport_agent/controller.py:126-142 | a request is tried at all if some candidate is eligible |
| `Failover.ReadsTryEverything` | reference/veraport_agent/veraport_agent/controller.py:126-170 | a read fails for lost streams only after every eligible candidate was tried and lost |
| `Failover.LostMutationReport` | reference/veraport_agent/veraport_agent/controller.py:133-169 | a mutation whose attempts were all lost ends in AmbiguousDelivery exactly if no candidate may follow, and in StreamClosed if one may but is not eligible |
| `ExactlyOnce.RetriesCarryOneRequest` | reference/veraport_agent/veraport_agent/controller.py:152-170 | all attempts of a mutation that a ledger receives bring the same request, whatever crashes follow |
| `ExactlyOnce.RetriedOperationsAreDurable` | reference/veraport_agent/veraport_agent/protocol.py:17-30 | the pool may retry exactly the operations the ledger protects |
| `ExactlyOnce.SuccessIsPermanent` | reference/veraport_agent/veraport_agent/protocol.py:100-135 | whoever was answered with success holds the recorded response of the one execution at any later time, crashes included |
| `ExactlyOnce.OneCallOneEffect` | reference/veraport_agent/veraport_agent/protocol.py:90-135 | one pool call has at most one effect over every run of the workstation in which nobody else uses its id; a success the workstation answered with stays that execution's recorded response, apart from the replay mark, over every continuation, crashes included |
| `LogicalFences.ShiftOrIsSum` | gateway/veramesh-go/gateway/controller.go:443-459 | the shifted and or-ed 64-bit token is epoch * 2^21 + counter, below 2^52, and both parts can be read back |
| `LogicalFences.NewEpoch` | gateway/veramesh-go/gateway/controller.go:431-441 | an epoch is in 1..2^31-1 whatever the random source gives |
| `LogicalFences.AllocationsAreConsecutive` | gateway/veramesh-go/gateway/controller.go:443-459 | any number of allocations gives consecutive tokens until the counter is used up, and then none: it fails instead of wrapping |
| `LogicalFences.TokensIncrease` | gateway/veramesh-go/gateway/controller.go:62-66 | tokens strictly increase within an incarnation and stay in 1..2^52-1 |
| `LogicalFences.IncarnationsAreDisjoint` | gateway/veramesh-go/gateway/controller.go:431-459 | incarnations with different epochs share no token |
| `LogicalFences.WideTokensCollide` | reference/veraport_agent/veraport_agent/read_lane.py:92-94 | two allocations of the Python router get the same token exactly if their low 32 bits agree and the epoch covers the difference of the others |
| `LogicalFences.WideTokensAreUnique` | reference/veraport_agent/veraport_agent/read_lane.py:92-94 | so the tokens of counters below 2^32 are all different |
| `LogicalFences.WideTokensRepeat` | reference/veraport_agent/veraport_agent/read_lane.py:92-94 | and for every odd epoch they repeat from 2^32 on |
| `GatewayPaths.PathCache.EnsurePaths` | gateway/veramesh-go/gateway/controller.go:143-214 | every configured endpoint is refreshed in turn; the list returned holds exactly the current paths, unexpired, fresh, probed and open, sorted by (mode, round trip, id), and is an error exactly if there is none |
| `GatewayPaths.PathCache.OrderedCurrentPaths` | gateway/veramesh-go/gateway/controller.go:114-141 | exactly the cached paths that are unexpired and fresh, sorted |
| `GatewayPaths.OrderIsExact` | gateway/veramesh-go/gateway/controller.go:103-141 | direct before edge before anything else, then the round trip, then the endpoint id |
| `GatewayPaths.PathCache.Invalidate` | gateway/veramesh-go/gateway/controller.go:248-257 | the session is no longer cached and is closed; every other path stays |
| `GatewayPaths.PathCache.Close` | gateway/veramesh-go/gateway/controller.go:259-279 | no path is cached and every session ever dialled is closed |
| `GatewayPaths.RefreshAllKeepsBalance` | gateway/veramesh-go/gateway/controller.go:143-205 | each session ever dialled is cached under exactly one endpoint or closed, not both, whatever dialling and probing do |
| `GatewayPaths.RefreshIsExact` | gateway/veramesh-go/gateway/controller.go:155-203 | one endpoint's turn, case by case: kept, probed again with the new time and round trip, or closed; then dialled, and cached or closed by its probe |
| `GatewayPaths.RefreshedAllAreFresh` | gateway/veramesh-go/gateway/controller.go:155-203 | after all turns every configured endpoint is cached with a fresh path or not at all |
| `GatewayPaths.ReachableEndpointsAreCached` | gateway/veramesh-go/gateway/controller.go:143-205 | an endpoint that can be dialled and probed is cached after all turns |
| `GatewayPaths.InvalidateKeepsBalance` | gateway/veramesh-go/gateway/controller.go:248-257 | invalidation keeps that balance |
| `GatewayPaths.Lifetime` | gateway/veramesh-go/gateway/controller.go:143-279 | after any sequence of ensures and invalidations, closing leaves no session open |
| `GatewayReadLanes.ReadLanes.AllocateFence` | gateway/veramesh-go/gateway/controller.go:443-459 | the new fence is larger than every fence in use, or there is none left |
| `GatewayReadLanes.ReadLanes.Open` | gateway/veramesh-go/gateway/controller.go:461-532 | succeeds exactly for a valid request on a free id with a fence left, if the first endpoint that answers at all accepts with a valid fence; the lane then has that one mirror |
| `GatewayReadLanes.ReadLanes.Require` | gateway/veramesh-go/gateway/controller.go:534-547 | unknown, stale and expired lanes are refused with their own error; an expired one is removed |
| `GatewayReadLanes.ReadLanes.EnsureMirror` | gateway/veramesh-go/gateway/controller.go:556-586 | gives a fence exactly if one is recorded for the path's session or the session issues one now; it is the one that session issued |
| `GatewayReadLanes.ReadLanes.Read` | gateway/veramesh-go/gateway/controller.go:588-617 | each read ever sent carried the newest fence its endpoint issued for the lane, issued by the session it was sent on; the answer is the first one given: all reads before it were lost, and a path is passed over without a read only if its endpoint would not open a mirror |
| `GatewayReadLanes.ReadLanes.Renew` | gateway/veramesh-go/gateway/controller.go:619-668 | keeps exactly the mirrors that were reached on their own session and accepted |
| `GatewayReadLanes.ReadLanes.Close` | gateway/veramesh-go/gateway/controller.go:670-720 | the lane is removed exactly if every recorded mirror acknowledged the close on its own session and the paths could be had; otherwise it stays with the mirrors that did not |
| `GatewayReadLanes.AcknowledgedIsExact` | gateway/veramesh-go/gateway/controller.go:640-720 | a mirror counts as acknowledged exactly if the path that counts for its endpoint is on the session that issued it and the answer was yes |
| `ReadRouter.ReadsAreJustified` | reference/veraport_agent/veraport_agent/read_lane.py:96-286 | over every interleaving of opens, reads, renewals, closes, timeouts, cancellations and session changes whose opens get fresh fences, each read carries the fence that the session it was sent on issued for that lane, the newest one of its endpoint; every mirror a successful close began with acknowledged it, and none is left if the open had ended |
| `ReadRouter.FewOpensAreFresh` | reference/veraport_agent/veraport_agent/read_lane.py:92-94 | fewer than 2^32 opens all get fresh fences, whatever the epoch |
| `ReadRouter.StepIsGood` | reference/veraport_agent/veraport_agent/read_lane.py:96-440 | every step of every coroutine keeps the invariant behind this |
| `ReadRouter.SameLaneAgain` | reference/veraport_agent/veraport_agent/read_lane.py:155-157 | the lane looked up again under the lock is the one whose lock is held, because no two lanes have the same fence |
| `ReadRouter.LookupIsExact` | reference/veraport_agent/veraport_agent/read_lane.py:377-388 | the lookup finds exactly an unexpired lane of that id and fence, and forgets an expired one |
| `ReadRouter.ClosedLanesStaySilent` | reference/veraport_agent/veraport_agent/read_lane.py:197-251 | after a successful close no continuation sends another read for that lane |
| `ReadRouter.CloseOvertakesOpen` | reference/veraport_agent/veraport_agent/read_lane.py:115-146 | in every state where a close is about to succeed while the lane's open waits for an answer, the close succeeds and the mirror answered afterwards stays open: the condition is needed |
| `ReadRouter.CloseDuringOpen` | reference/veraport_agent/veraport_agent/read_lane.py:115-146 | such a state is reachable by a caller that names the fence before the open has returned it |
| `ReadRouter.OpenGoesThrough` | reference/veraport_agent/veraport_agent/read_lane.py:96-146 | an open whose first endpoint accepts leaves a lane under the next fence with that mirror, one that is refused leaves none |
| `ReadRouter.ReadGoesOut` | reference/veraport_agent/veraport_agent/read_lane.py:253-286 | a read on an available lane reaches its first path, with the recorded fence if it is that session's and with a newly issued one otherwise |
| `ReadRouter.RenewGoesThrough` | reference/veraport_agent/veraport_agent/read_lane.py:148-195 | a renewal extends the lane and keeps exactly the mirrors on their own session that accept |
| `ReadRouter.CloseGoesThrough` | reference/veraport_agent/veraport_agent/read_lane.py:197-251 | a close goes through if every mirror is on its own session and acknowledges |
| `SessionScope.ScopingRoundTrip` | reference/veraport_agent/veraport_agent/runtime.py:22-24 | externalizing undoes the lane prefix, and prefixing undoes externalizing |
| `SessionScope.ScopingIsInjective` | reference/veraport_agent/veraport_agent/runtime.py:22-24 | different (session, lane) pairs have different internal ids, since session ids have no colon |
| `SessionScope.OwnersAreUnique` | reference/veraport_agent/veraport_agent/runtime.py:22-24 | an internal lane id belongs to at most one session |
| `SessionScope.RequestIdsAreInjective` | reference/veraport_agent/veraport_agent/runtime.py:26-30 | (controller, request id) maps injectively to ledger ids |
| `SessionScope.ForwardingIsExact` | reference/veraport_agent/veraport_agent/runtime.py:38-72 | forwarded are exactly the well formed requests of an unexpired session within its grant; the id gets the controller's prefix, the lane the session's, the rest is unchanged |
| `SessionScope.LedgerIdsAreExact` | reference/veraport_agent/veraport_agent/runtime.py:26-64 | two forwarded requests carry the same ledger id exactly if controller and request id agree, whatever their sessions |
| `SessionScope.LaneIdsAreExact` | reference/veraport_agent/veraport_agent/runtime.py:22-70 | two forwarded requests name the same lane exactly if session and name agree |
| `SessionScope.ForwardedRequestsStayInSession` | reference/veraport_agent/veraport_agent/runtime.py:33-72 | a forwarded request names only lanes of its session, opens with granted capabilities only, and different requests stay different |
| `SessionScope.ListingShowsOwnLanes` | reference/veraport_agent/veraport_agent/runtime.py:85-113 | the list a session sees is exactly its own lanes, under the names it gave them |
| `SessionScope.ExternalizingUndoesScoping` | reference/veraport_agent/veraport_agent/runtime.py:85-113 | externalizing a reply about a session's own lanes gives back the names it used, in order |
| `SessionScope.SessionsAreIsolated` | reference/veraport_agent/veraport_agent/runtime.py:33-72 | whatever other sessions do, a session's lane keeps its claims, fence and expiry until it expires |
| `SessionScope.CloseSession` | reference/veraport_agent/veraport_agent/protocol.py:476-505 | draining touches exactly the session's lanes; closed are those whose processes could be terminated and that had not expired; drained means that none of them is left |
| `SigningBytes.FieldSplits` | reference/veraport_agent/veraport_agent/hot_session.py:79-81 | a length-prefixed field can be read off the front of any byte string in one way only |
| `SigningBytes.NormalizeCapabilities` | gateway/veramesh-go/veraport/crypto.go:133-144 | the sorted list without repetitions |
| `SigningBytes.NormalizedIffSameSet` | gateway/veramesh-go/veraport/crypto.go:133-148 | order and duplicates do not matter, and nothing else is lost |
| `SigningBytes.CapabilityTextIsExact` | reference/veraport_agent/veraport_agent/hot_session.py:84-85 | for comma-free names the joined text determines the set, except that no name and the empty name alone look the same |
| `SigningBytes.CommasCollide` | reference/veraport_agent/veraport_agent/hot_session.py:84-85 | with commas it does not: any two names share their text with the one name that joins them |
| `SigningBytes.ClientBaseIsExact` | reference/veraport_agent/veraport_agent/hot_session.py:161-171 | equal client bases mean equal fields and equal capabilities, and conversely |
| `SigningBytes.ServerBaseIsExact` | reference/veraport_agent/veraport_agent/hot_session.py:187-199 | the same for server bases |
| `SigningBytes.RolesAreSeparated` | gateway/veramesh-go/veraport/crypto.go:150-172 | no client base equals a server base |
| `Handshake.HonestHandshakeAgrees` | reference/veraport_agent/veraport_agent/hot_session.py:229-328 | what the workstation accepted verifies, in both controllers, exactly until it expires; both sides hold the same binding, with grants equal to the request and within the local ceiling |
| `Handshake.AcceptIsExact` | reference/veraport_agent/veraport_agent/hot_session.py:229-289 | when the workstation accepts, condition by condition, the controller's signature included, and what it answers |
| `Handshake.EnrolledControllerIsAccepted` | reference/veraport_agent/veraport_agent/hot_session.py:229-289 | an enrolled controller that asks for no more than its ceiling is accepted |
| `Handshake.VerifiedAcceptWasMade` | gateway/veramesh-go/veraport/crypto.go:254-324 | an accept that verifies under the pinned key was made by the workstation for that challenge and nonce, and the binding is the workstation's own |
| `Handshake.AcceptedControllerAsked` | reference/veraport_agent/veraport_agent/hot_session.py:229-289 | if the workstation accepts, the enrolled controller itself sent a message for this challenge, nonce and workstation, asking for exactly what was granted |
| `Handshake.StrangersAreRefused` | reference/veraport_agent/veraport_agent/hot_session.py:245-257 | a principal that is not enrolled, or a signature that is not the enrolled key's over these bytes, is never accepted |
| `Handshake.VerifyIsExact` | reference/veraport_agent/veraport_agent/hot_session.py:292-328 | when the Python controller verifies an accept, condition by condition |
| `Handshake.VerifyGoIsExact` | gateway/veramesh-go/veraport/crypto.go:254-324 | the same for the Go controller |
| `Handshake.PrincipalsAreSeparated` | reference/veraport_agent/veraport_agent/hot_session.py:61-68 | a controller and a workstation never share a principal |
| `Handshake.CommasBreakAgreement` | reference/veraport_agent/veraport_agent/hot_session.py:229-328 | with a comma in a requested name, lists rewritten on the way pass every signature check on both sides, and the bindings differ: the condition is needed |
| `Framing.HeaderRoundTrip` | gateway/veramesh-go/veraport/frame.go:24-29 | the header gives back the length modulo 2^32 |
| `Framing.HeaderIsBigEndian` | gateway/veramesh-go/veraport/frame.go:26-28 | the highest byte comes first |
| `Framing.FrameRoundTrip` | gateway/veramesh-go/veraport/frame.go:15-65 | reading gives back payload and rest exactly if the payload is shorter than 2^32 bytes |
| `Framing.ReadIsExact` | gateway/veramesh-go/veraport/frame.go:50-65 | when a frame is read, in bytes; a size below 2 or above the limit is refused |
| `Framing.StreamRoundTrip` | reference/veraport_agent/veraport_agent/stream.py:22-77 | any sequence of payloads within bounds is read back, with nothing left over |
| `Framing.WriteFrame` | gateway/veramesh-go/veraport/frame.go:32-48 | under any pattern of short writes and failures, what was sent is the frame, or a prefix of it on failure |
| `Framing.ReadFrameFrom` | gateway/veramesh-go/veraport/frame.go:50-65 | reading from a stream that is cut anywhere is reading it whole |
| `Framing.Transfer` | gateway/veramesh-go/veraport/frame.go:32-65 | end to end: what was written successfully is read back in order, under any short writes and any cutting |
| `Admission.PermitsAreConserved` | reference/veraport_agent/veraport_agent/stream.py:186-272 | in every state, cancellations included, free permits, the reader's permit, live tasks and the tasks cancelled before their first step make up max_inflight; without such a cancellation, and only then, permits, reader and tasks do |
| `Admission.LeaksCountEarlyCancellations` | reference/veraport_agent/veraport_agent/stream.py:192-250 | the permits that are lost are exactly the cancellations before a task's first step |
| `Admission.OneResponsePerFrame` | reference/veraport_agent/veraport_agent/stream.py:192-272 | no frame is answered twice, and when the server is done every admitted frame was answered, its failure closed the connection, or its task was cancelled; all permits are back but those of tasks that never ran |
| `Admission.FrameIsServed` | reference/veraport_agent/veraport_agent/stream.py:192-272 | a frame that arrives while a permit is free is answered if nothing interferes, and everything is as before |
| `Admission.ServerEnds` | reference/veraport_agent/veraport_agent/stream.py:252-272 | when nothing is in progress and the stream ends or the waiting reader is cancelled, the server closes the connection and is done |
| `PipeBuffer.PipeDrain.Drain` | reference/veraport_agent/veraport_agent/rdc_surface.py:622-643 | for every split into chunks: the buffer is the stream's prefix up to the cap, the total is exact, truncated holds exactly if bytes were dropped |
| `PipeBuffer.PipeDrain.Read` | reference/veraport_agent/veraport_agent/rdc_surface.py:743-805 | errors exactly for bad arguments and dropped offsets; otherwise the slice and the offset after it |
| `PipeBuffer.ReadsReassembleOutput` | reference/veraport_agent/veraport_agent/rdc_surface.py:776-805 | over any interleaving of output and reads, following the offsets collects the stream's prefix without gap or repetition, and all that was retained once a read comes back empty |
| `TreeSearch.WalkVisitsReachable` | reference/veraport_agent/veraport_agent/rdc_surface.py:256-302 | the recursive walk visits exactly the entries that readable directories within the depth limit lead to |
| `TreeSearch.EntriesComeFirst` | reference/veraport_agent/veraport_agent/rdc_surface.py:256-302 | a directory's own entries come in order, before everything below it |
| `TreeSearch.LaterEntriesFirst` | reference/veraport_agent/veraport_agent/rdc_surface.py:256-302 | what lies below later entries comes before what lies below earlier ones |
| `TreeSearch.Traverse` | reference/veraport_agent/veraport_agent/rdc_surface.py:256-302 | the stack-based traversal, with early exit, computes the scan of the recursive walk |
| `PathSearch.SearchPaths` | reference/veraport_agent/veraport_agent/rdc_surface.py:188-318 | the page is the slice [offset, offset + max_results) of the matches among the first max_entries entries of the walk; the limit flag, the count and the next offset are exact |
| `PathSearch.SearchAllPages` | reference/veraport_agent/veraport_agent/rdc_surface.py:304-318 | a client that searches again from the offset it was given gets every match within the entry limit, once and in order |
| `PathSearch.ScanOffersHits` | reference/veraport_agent/veraport_agent/rdc_surface.py:268-299 | the loop offers the matches within the entry limit in order, and reports the limit exactly if entries are left over and no match is |
| `PathSearch.HitsAreExact` | reference/veraport_agent/veraport_agent/rdc_surface.py:272-276 | the hits are exactly the visited entries whose path contains the query |
| `PathSearch.HitsInOrder` | reference/veraport_agent/veraport_agent/rdc_surface.py:268-299 | and they come in the order of the walk |
| `ContentSearch.SearchContent` | reference/veraport_agent/veraport_agent/rdc_surface.py:320-515 | the page is the slice of the matching lines in the files within the entry limit, cut at the per-file limit and the byte budget; bytes, files and flags are exact unless one more match ended the search |
| `ContentSearch.SearchAllPages` | reference/veraport_agent/veraport_agent/rdc_surface.py:494-515 | the same for content, within the entry limit and the byte budget |
| `ContentSearch.BudgetIsSharp` | reference/veraport_agent/veraport_agent/rdc_surface.py:443-461 | the bytes read are exactly the smaller of the budget and what there is to read |
| `ContentSearch.LineMatchIsExact` | reference/veraport_agent/veraport_agent/rdc_surface.py:463-487 | a line gives one match if it holds the query, with the file, the line's number, the column and the start of the line, and none if not |
| `ContentSearch.LinesInOrder` | reference/veraport_agent/veraport_agent/rdc_surface.py:463-489 | lines are searched in order, each under its own number |
| `ContentSearch.FilesAreExact` | reference/veraport_agent/veraport_agent/rdc_surface.py:418-461 | searched are exactly the regular files with a matching name that can be opened |
| `ContentSearch.PiecesArePrefixes` | reference/veraport_agent/veraport_agent/rdc_surface.py:447-461 | what is read of a file is a prefix of it within the per-file limit, file by file in order |
| `ContentSearch.ReadAllEndsRight` | reference/veraport_agent/veraport_agent/rdc_surface.py:436-498 | reading file after file with early exits finds the window on all matches in the byte-bounded pieces |
| `SearchPages.OfferAllIsWindow` | reference/veraport_agent/veraport_agent/rdc_surface.py:277-292 | counting, keeping and stopping at one match too many computes the requested slice |
| `SearchPages.PageIsSlice` | reference/veraport_agent/veraport_agent/rdc_surface.py:304-318 | the page, its flag and its next offset in plain terms |
| `SearchPages.FollowingYieldsEachMatchOnce` | reference/veraport_agent/veraport_agent/rdc_surface.py:304-318 | following next_offset ends and yields every match once, in order |

## Left out

- Exclusion for the whole duration of an effect: the registry promises it at authorization only, and opening a lane reaps expired lanes without their locks.
- Failover.HotSessionPool.Request: removal of endpoints from the pool is not modelled.
- ReadRouter.ReadsAreJustified: the step machine is on values, because its point is interleaving; the ordered list of current endpoints that each coroutine works on is a parameter, its order is proved for the pool and the gateway only.
- GatewayReadLanes.ReadLanes.Read: every operation is one step under the lane mutex; the aliasing of path records between the cache and a list taken earlier is not modelled.
- The dispatch of `lane.renew` and `lane.close` to logical lanes in the Go `Call`: nothing is claimed about lanes the gateway does not know.
- SessionScope.CloseSession: runs against the registry alone; how process termination fails is a parameter per lane, and interleaving with other tasks is covered by `LaneProcesses`.
- PathSearch.SearchPaths: a file whose `stat` fails in the middle of a path search, which aborts the search, is not modelled; neither are links to the outside, which are never followed.
- ContentSearch.SearchContent: decoding into lines, case folding and file name patterns are parameters; the loop over lines is a recursive function.
- The order of directory entries: a directory lists its entries in the order the search sorts them.
- Framing.ReadFrameFrom: the UTF-8 and JSON checks on a body that was read are not modelled.
- Framing.Transfer: JSON encoding and decoding of payloads and cancelled writes are not modelled.
- PipeBuffer.PipeDrain.Read: gives bytes; the source decodes each slice as UTF-8 on its own and replaces what does not fit, so a page that cuts a character does not reassemble as text.
- PipeBuffer.ReadsReassembleOutput: is about those bytes, for the same reason.
- Handshake.VerifiedAcceptWasMade: signatures are ideal and key digests injective; SHA-256, ECDSA and base64 are not modelled.
- SigningBytes.ClientBaseIsExact: texts are byte strings; the UTF-8 encoding itself is not modelled.
- The multiplexing client and its table of pending requests.
- TLS, sockets, HTTP and MCP servers, provisioning, configuration, OAuth, tool policy tables and the conformance fixtures: transport wrappers and finite tables.
- Session conservation in the Python controller runtime: a failed probe leaves its channel open there, so the property is stated for the Go cache.
- File reads and writes, process input and the timing of the process watchdog.
- Liveness: timeouts are failures that may happen at any time.
