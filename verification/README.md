# Verified model of the session service

This project models, in Dafny, the parts of the GPU session platform whose correctness is spread over several
operations, and proves what they promise. Each module follows one component of the Go code, and
`dafny verify dfyconfig.toml` checks them all.

**Admission and GPU capacity.** The platform has no queue: a session is admitted only if its seat exists, and its
row in the `sessions` table is the reservation. `SessionTable` holds the table, its conditional updates and the
aggregate queries (all of them sums of a per-row weight). `Availability` and `Gate` hold the capacity computation,
written as the real loops, and the gate. `Counters` says, row by row and number by number, what the counters of the
gate are worth, `GateCases` has the branches that capacity does not decide, and `LeasedNodes` shows that a node under a
physical lease is as good as gone. `AdmissionProtocol` makes of them a state machine of atomic database steps:
the admission that holds the lock reads the quota, then usage, then reservations, then writes; everything else
(reconciler, stops, deletes, failed starts, reconfiguration, reallocation) falls between any two of those, and the
operations that look at a row first and write it later write whatever they find.
`Admission` has the operations as methods and shows each to be the protocol steps it stands for. Three invariants
are proved over every run from the empty table: `WholeCards` (whole cards are never promised twice), `SharedSeats`
(shared sessions never wait in a hidden queue) and `HomeQuota`. `PinnedSeats` is about Pods that require a hostname.

**Billing.** `Settlement` has the delta accounting of GPU time and of the storage of stopped sessions, over any
schedule of ticks, refusals, failed calls, price changes, stops, terminations and restarts, each under the guards the
code has. A restart is a claim and, later, its tail or its rollback. Storage is accounted for exactly on every
history; the bound of run charges comes with the exact condition on each event.

**Collectors and reconcilers.** `ImageGC` (node-local images and NFS stages), `HomeReaper` (orphaned and long-stopped
homes) and `NodeAgent` (leases) are proved safe over whole histories and failure patterns, and to make progress.

**Single use.** `Nonce` is the token cache with its pruning; `SshHandshake` is the check-then-consume protocol of
concurrent SSH connections.

**Placement.** `DatasetPin` relates the node chosen for cached data sets to the required terms the Pod builder emits.
`CpuGuarantee` bounds the CPU and the memory that sessions request.

**Codecs.** `Decimal` (integer printer and parser with 64-bit wrap-around), `ShellQuote` (read back by the quoting
rules of POSIX.1-2017 XCU, sections 2.2.1 and 2.2.2) and `MountField` (the octal escapes of proc_pid_mountinfo(5)).

## Assumptions of the capacity theorems

They are predicates named `Assumed` in `WholeCards`, `SharedSeats` and `HomeQuota`, checked at every step of a run.

- The inventory, share modes, quotas and volume use do not change during a run, and a node with a GPU is listed
  (an empty inventory opens the gate). For `SharedSeats`, split nodes keep their totals.
- The admission lock is held. `admit` goes on without the cross-replica lock when it cannot get it; then two replicas
  may be inside at once, and the theorems say nothing.
- No physical (SSH) lease takes a node: that path skips the gate. `HomeQuota` does not need this.
- Modes are cpu, shared and exclusive, and GPU requests name a type; an empty type passes the gate unchecked. For
  `SharedSeats`, shared requests ask for some VRAM and some core.
- The scheduler binds only where the mode is offered and the table, claims of restarted sessions included, shows the
  room. `WholeCards.BindExactly` shows that this is needed.
- No bind falls between the usage read and the reservation read, which would hide it from both. Un-binds, stops,
  deletes and failed starts may fall anywhere.
- A row's node may be erased by the reconciler. For whole cards this is harmless except while a pinned claim is
  pending, and `WholeCards.UnbindExactly` says exactly when. For shared sessions it is assumed away, and
  `SharedSeats.UnbindExactly` says exactly when it would be harmless.
- The reconciler, Reconfigure and Reallocate read a row and write it later without looking again. For `HomeQuota` such a
  write may find anything. For the other two it either finds the row as it was judged, or finds room in the table for
  what it does, before the admission in flight has read usage. `RowWriteExactly` in both modules shows that for the
  table the room is exactly what is needed.
- Nobody reconfigures or reallocates the very session whose restart is being admitted, and a session is reconfigured to
  whole cards only on a node that gives them.
- The usage read is one step though it is several queries; the figures of one mode come from one of them. The quota read
  is one step as well.
- The gate of a create asks for any node. When the Pod then requires a hostname (the user's choice, a local home or a
  data-set pin), or a home volume ties it to one, its seat is the business of that node alone: the seat theorems have
  the hostname as a parameter and say exactly when there is a seat.
- A capacity figure for exclusive sessions is a sum per type, so a request for several cards gets the bound on the sum
  only. `WholeCards.SingleCardHasSeat` is for requests of one card.

## Where the code does not do what it says

Each of these is a lemma, with a concrete input where there is one, beside one that says exactly when the code does.

- A restart picks its data-set pin without looking at the node its home volume is bound to
  (`backend/internal/session/service.go:1881-1888`); when they differ, no node can take the Pod
  (`DatasetPin.RestartPinCanClash`, `DatasetPin.RestartStartsIff`).
- The choice of a data-set pin promises not to pin to a full node (`backend/internal/session/service.go:878-883`). It
  counts running whole-card sessions only, so to it a split node always looks free (`PinnedSeats.SplitNodesLookFree`) and a
  share can be pinned to a node without room while another has it (`PinnedSeats.PinCanBeFull`), and a whole-card session
  to a node whose cards go to sessions still starting (`PinnedSeats.PinHasCardsIff`). Admitted sessions with a pin have a
  seat exactly when the pinned node fits them (`PinnedSeats.AcceptedCardIsSeatedIff`,
  `PinnedSeats.AcceptedShareIsSeatedIff`).
- `refreshLive` copies a Pod's state into the row without a guard on the phase, so a copy that comes after a stop brings
  the session back, on cards or shares that may be another's by then (`WholeCards.StaleRefreshCanOvercommit`,
  `WholeCards.StaleRefreshExactly`, `SharedSeats.StaleRefreshCanCrowd`, `SharedSeats.StaleRefreshExactly`).
- A copy of a Pod that is still pending erases the node of a restarted share, whose home is there
  (`PinnedSeats.LostNodeLosesSeat`, `SharedSeats.UnbindExactly`).
- `Reconfigure` checks the phase and writes the new resources later without a guard, so they may land on a session that
  was started in between (`WholeCards.LateSpecCanOvercommit`, `WholeCards.LateSpecExactly`,
  `SharedSeats.LateSpecCanCrowd`, `SharedSeats.LateSpecExactly`).
- The gate on a session's own node counts the cards of a split node, which no whole-card Pod may use
  (`Gate.PinnedOnSplitNode`, `WholeCards.PinnedHostIff`).
- Storage is charged by stop marks, and they are not the phase. A Pod that ends by itself stops its row without a mark
  (`backend/internal/session/service.go:1491-1494`, `Settlement.StopsUnmarked`); a second stop moves the mark
  (`Settlement.StopTwiceForgets`); and the time between the claim of a restart and its tail counts although the session
  is not stopped (`backend/internal/session/service.go:1850`, `backend/internal/session/service.go:1893`,
  `Settlement.ClaimIsCounted`). `Settlement.BoundsIff` says when the stopped seconds are neither too many nor too few, and
  `Settlement.LeakIff` which histories have such time.
- Stops and terminations settle run time without looking at the phase, from a start that a restart resets only at its end.
  A terminated session that was stopped (`Settlement.TerminateChargesStopped`), and a claimed one that the scheduling watch
  stops again (`Settlement.ReapChargesStopped`), pay the stopped hours as run time. A reconfiguration that lands on a running
  session may make its run worth less than was charged (`Settlement.RepriceOvercharges`). `Settlement.RunStepExactly` is the
  exact condition for all three.
- A restart settles storage with the row it read before the lock, so what the biller charges in between is charged again
  (`Settlement.StaleStorageChargesTwice`, `Settlement.StaleStorageIff`, and `Settlement.StaleRunIff` for run time).
- The reclaim of long-stopped homes deletes from a list without asking whether a session is still stopped
  (`backend/internal/session/homereaper.go:97-117`): one that was started meanwhile loses the home it runs on
  (`HomeReaper.RestartedIsReaped`, `HomeReaper.ReapsRunningIff`).
- The comment at `backend/internal/session/service.go:998-1004` promises that the CPU requests on a node never exceed
  half of it. Rounding and the minimum of one core break that (`CpuGuarantee.HalfCanFail`); the bound that holds is half
  plus one core per session (`CpuGuarantee.HalfPlusOneEach`).
- The comment at `backend/internal/session/service.go:982-984` promises that the guarantee holds on whichever node of the
  type the session lands. That holds of CPU (`CpuGuarantee.FitsEveryNode`); the reference node is the one with the fewest
  cores, so another may have too little memory (`CpuGuarantee.MemoryCanMiss`, `CpuGuarantee.MemoryFitsIff`).
- The comment on the one-hour grace period in `backend/internal/session/homereaper.go:14-16` says that the volume is made
  before the row. The code inserts the row first, and then the reaper is safe without any grace period
  (`HomeReaper.ReaperSparesSessions`).
- The comment at `backend/internal/session/homereaper.go:20-30` makes the reclaim of long-stopped homes depend on disk
  pressure. The code, and the comment on the pass itself, go by age alone (`HomeReaper.ReapStaleHomes`).
- The least 64-bit integer prints as a bare minus sign, and numerals beyond 64 bits are read as other integers
  (`Decimal.RoundTripIff`, `Decimal.ReadsTrueIff`).
- A mount point with white space that the kernel does not escape (an ideographic space, say), or with such a space in the
  root field before it, is not found
  (`MountField.StrayHidesMount`, `MountField.SeesMountIff`).
- Which of several sessions stopped at the same instant the user is shown as exempt is up to the database, and need not be
  the one that is kept (`HomeReaper.ShownMayGo`, `HomeReaper.ShownIsKept`).
- A token is still accepted at the very second of its expiry, while the cache no longer holds it then; single use is
  promised strictly before expiry (`SshHandshake.TwoDialsAtExpiry`, `Nonce.SingleUse`, `SshHandshake.OneDialPerToken`).

## Model

| member | source | states |
|---|---|---|
| `WholeCards.NoOverCommitment` | backend/internal/resource/availability.go:257-296 | over every run from the empty table, late writes of the reconciler, Reconfigure and Reallocate included where the table has the cards for them, the cards reserved without a node plus the cards in use on whole-card nodes, counted without clamping, never exceed the cards of the type |
| `WholeCards.SingleCardHasSeat` | backend/internal/resource/availability.go:416-426 | in every reachable state, a reservation for one card can be seated if and only if its Pod requires no hostname or the one it requires has a free card of the type |
| `WholeCards.SplitReadIsConservative` | backend/internal/resource/availability.go:405-426 | whatever falls between the usage read, the reservation read and the write, an accepted exclusive request still passes the gate taken at the instant of the write |
| `WholeCards.UnbindExactly` | backend/internal/session/service.go:1476-1495 | the reconciler may erase the node of an exclusive session without breaking the bound if and only if the session sat on a whole-card node of its type or the type has room for one more reservation |
| `WholeCards.BindExactly` | backend/internal/session/service.go:1476-1495 | a node binding keeps the bound if and only if the table shows the cards free on that node |
| `WholeCards.RowWriteExactly` | backend/internal/session/repo.go:190-228 | any single write of a row, by whichever operation and whatever it finds, keeps the bound if and only if the table has the cards for the new row in place of the old |
| `WholeCards.StaleRefreshExactly` | backend/internal/session/service.go:1476-1495 | a Pod state copied after the session was stopped keeps the bound if and only if the node it names, or the type when it names none, has the cards beside all that was promised |
| `WholeCards.StaleRefreshCanOvercommit` | backend/internal/session/service.go:1476-1495 | a bounded one-card node on which such a copy puts two cards in use |
| `WholeCards.LateSpecExactly` | backend/internal/session/service.go:1915-1933 | resources written after the session was started again keep the bound if and only if the cards it needs more are there on its node, or among those promised while it has none |
| `WholeCards.LateSpecCanOvercommit` | backend/internal/session/service.go:1915-1933 | a bounded one-card node on which such a write puts two cards in use |
| `WholeCards.PinnedHostIff` | backend/internal/resource/availability.go:470-484 | an accepted whole-card request on its own listed node can run there if and only if the node is not split |
| `WholeCards.StepKeeps` | backend/internal/session/service.go:206-220 | each write of admission, reconciler, stop, delete, rollback, reconfigure and reallocate, on time or late and harmless, keeps the whole-card invariant |
| `WholeCards.RunKeeps` | backend/internal/session/service.go:206-220 | the whole-card invariant holds after every legal run |
| `WholeCards.ExclusiveGate` | backend/internal/resource/availability.go:416-426 | the cluster-wide gate for whole cards says yes exactly when the reservations and the request together are within the free cards of the type |
| `WholeCards.PinnedGate` | backend/internal/resource/availability.go:470-484 | on a whole-card node of the inventory, the pinned gate says yes exactly when the node has the cards for the reservations and the request |
| `WholeCards.FreeIsOwnedLessUsed` | backend/internal/resource/availability.go:131-185 | without leases and over-use, the free figure of a type is the cards of its whole-card nodes less the cards in use on them |
| `SharedSeats.NoHiddenQueue` | backend/internal/resource/availability.go:428-465 | over every run, harmless late writes included, while shared sessions of a type wait for a node, one split node of the type has VRAM, cores and slots for all of them together, and no split node is used beyond its totals |
| `SharedSeats.AnyPickLeavesRoom` | backend/internal/resource/availability.go:428-465 | in every reachable state a waiting shared session can be seated if and only if its Pod requires no hostname or the one it requires fits it, and whichever fitting node the scheduler picks, those that still wait fit together again |
| `SharedSeats.SplitReadIsConservative` | backend/internal/resource/availability.go:405-424 | an accepted shared request passes the gate taken at the instant of the write, whatever fell between the reads |
| `SharedSeats.UnbindExactly` | backend/internal/session/service.go:1476-1495 | a shared session may lose its node without breaking the promise if and only if its own node carries those already waiting or another node carries them and it |
| `SharedSeats.RowWriteExactly` | backend/internal/session/repo.go:190-228 | any single write of a row, whatever it finds, keeps the promise if and only if the table has the room for the new row in place of the old |
| `SharedSeats.StaleRefreshExactly` | backend/internal/session/service.go:1476-1495 | a Pod state copied after a shared session was stopped keeps the promise if and only if the node it names is not split or has the room with those who wait for its type still having a node together, or, naming none, one node carries the session with everyone waiting |
| `SharedSeats.StaleRefreshCanCrowd` | backend/internal/session/service.go:1476-1495 | a full split node on which such a copy, with or without the node, breaks the promise |
| `SharedSeats.LateSpecExactly` | backend/internal/session/service.go:1915-1933 | resources written after the session was started again keep the promise if and only if its node has the room for the new share in place of the old, or, while it has none, one node has it for the new share and the others who wait |
| `SharedSeats.LateSpecCanCrowd` | backend/internal/session/service.go:1915-1933 | a full split node on which such a write breaks the promise |
| `SharedSeats.SharedGate` | backend/internal/resource/availability.go:428-437 | the cluster-wide gate for shares says yes exactly when one split node of the type carries everyone waiting and the request |
| `SharedSeats.PinnedSharedGate` | backend/internal/resource/availability.go:485-490 | on a node of the inventory the pinned gate for shares is the same question about that node |
| `SharedSeats.StepKeeps` | backend/internal/session/service.go:576-589 | each step keeps the shared-seat invariant |
| `SharedSeats.RunKeeps` | backend/internal/session/service.go:576-589 | the shared-seat invariant holds after every legal run |
| `PinnedSeats.AcceptedCardIsSeatedIff` | backend/internal/session/service.go:576-640 | an accepted create for one card, once its row is written, can be seated if and only if its own pin is empty or names a node that had the card before the create |
| `PinnedSeats.AcceptedShareIsSeatedIff` | backend/internal/session/service.go:576-640 | an accepted create for a share, once its row is written, can be seated if and only if its own pin is empty or names a node that fitted it before the create |
| `PinnedSeats.PinHasCardsIff` | backend/internal/session/service.go:938-959 | the free cards the data-set pin is chosen by are those of the table plus the cards of rows it does not count; the choice asks for the cards the gate asks for, and the session fits the pinned node if and only if those rows leave them |
| `PinnedSeats.ListedCards` | backend/internal/session/service.go:946-957 | the count over the listed sessions is the sum over the running whole-card rows of the table |
| `PinnedSeats.SplitNodesLookFree` | backend/internal/session/service.go:938-959 | to the choice of a data-set pin every split node has all its cards free, so for a share it rules one out exactly when it would with nobody there |
| `PinnedSeats.PinCanBeFull` | backend/internal/session/service.go:878-894 | two split nodes, one full: the gate accepts a share, the pin may name the full node, and the share cannot be seated there while it could on the other |
| `PinnedSeats.LostNodeLosesSeat` | backend/internal/session/service.go:1492-1494 | a restarted share loses its node while its Pod is pending, another takes the node, and the share, whose home is there, has no seat |
| `HomeQuota.QuotaHolds` | backend/internal/session/service.go:415-431 | over every run of concurrent creates and all other operations, a user's session homes and volumes never exceed the quota |
| `HomeQuota.AllowsIffWithin` | backend/internal/session/service.go:415-431 | the check lets a home in if and only if the quota holds with it inserted, so one that fills the quota exactly passes; without a quota, and for physical sessions, everything passes |
| `HomeQuota.HomesDoNotGrow` | backend/internal/session/repo.go:402-412 | no step but an insert changes the sum of anyone's homes, except that a deleted row takes its own home out of it |
| `HomeQuota.StepKeeps` | backend/internal/session/service.go:576-587 | the quota invariant, the pending home of the admission included, is kept by every step |
| `HomeQuota.RunKeeps` | backend/internal/session/service.go:576-587 | the quota invariant holds after every legal run |
| `Availability.ComputeAvailability` | backend/internal/resource/availability.go:106-207 | the two loops compute exactly the per-node views and, per type, the sums over them |
| `Availability.ViewNode` | backend/internal/resource/availability.go:131-167 | one node's figures: usage clamped to capacity, a physical lease takes all, split nodes get VRAM, cores and slots |
| `Availability.AddNode` | backend/internal/resource/availability.go:138-179 | one node's figures join the running totals of its type, and of no other |
| `Availability.FinishTypes` | backend/internal/resource/availability.go:181-204 | the second loop turns the running totals of every type, in any order, into the view of the type |
| `Availability.TypeViewIsFold` | backend/internal/resource/availability.go:124-204 | per type, free cards and split totals are sums over the node views, and the fraction shown as free units lies between zero and the number of split cards |
| `Availability.ViewsInRange` | backend/internal/resource/availability.go:131-167 | whatever the counters say, no figure of a node is negative |
| `Availability.CardsConserved` | backend/internal/resource/availability.go:131-186 | per type, whole and split cards together are the cards of its nodes, the free ones are what use and leases leave of them, and every node is counted |
| `Availability.NodeAddsItsFigures` | backend/internal/resource/availability.go:143-177 | one more node adds each of its figures to the figures of its type: cards to the whole or to the split ones, VRAM, cores and slots only when it is split |
| `Availability.UnitsAreTheScarcer` | backend/internal/resource/availability.go:187-204 | the fraction shown as free units is the free part of VRAM or of cores, whichever is less, in cards; an axis without a total sets no limit |
| `LeasedNodes.NothingFree` | backend/internal/resource/availability.go:131-177 | a node under a physical lease, split or not, shows no card, no VRAM, no core and no slot |
| `LeasedNodes.RefusedWhereLeased` | backend/internal/resource/availability.go:131-177 | with an admitted physical session on a listed node, every whole-card or shared request pinned to it is refused |
| `LeasedNodes.LeasedIsAsAbsent` | backend/internal/resource/availability.go:131-177 | with another GPU node left, the gate answers every request for any node as it would with the leased node taken out of the inventory |
| `Gate.PinnedImpliesCluster` | backend/internal/resource/availability.go:470-495 | a request accepted on its own listed node, not split when it wants whole cards, is accepted cluster-wide |
| `Gate.PinnedOnSplitNode` | backend/internal/resource/availability.go:470-484 | on a split node the pinned gate accepts a whole-card request that the cluster-wide gate refuses |
| `Gate.FirstBoxFound` | backend/internal/resource/availability.go:471-474 | the scan by name stops at a node of that name, or there is none |
| `GateCases.UncheckedPasses` | backend/internal/resource/availability.go:401-404 | cpu sessions, and requests that name no GPU type, always pass |
| `GateCases.OpenWithoutInventory` | backend/internal/resource/availability.go:405-408 | with no GPU node listed every request passes |
| `GateCases.PinnedByType` | backend/internal/resource/availability.go:470-492 | pinned to a listed node, a GPU request of another type is refused and a time slice of its type is not |
| `GateCases.TimesliceIff` | backend/internal/resource/availability.go:439-445 | a time slice passes if and only if some split node of its type has a slot free, whatever is reserved |
| `GateCases.UnnamedAxisIsFree` | backend/internal/resource/availability.go:454-464 | a share that names no VRAM is not judged by reserved VRAM, nor one that names no cores by reserved cores |
| `Counters.PlacedRowTakesCards` | backend/internal/resource/availability.go:267-269 | a starting or running session on a node takes its cards there, at least one, a shared or time-sliced one exactly one and a cpu session none, and nothing on other nodes |
| `Counters.PlacedRowTakesShare` | backend/internal/resource/availability.go:337-351 | a shared one takes its VRAM, its cores and one slot there, and other modes take no share |
| `Counters.WaitingRowIsHeld` | backend/internal/resource/availability.go:257-296 | a session starting without a node is held against its type alone: a share on three axes, other GPU modes as cards, cpu sessions not at all |
| `Counters.HeldOrPlaced` | backend/internal/resource/availability.go:257-296 | a row with a node, or not starting, is held against no type; a row without a node, or neither starting nor running, is on no node |
| `Counters.LeasedIff` | backend/internal/resource/availability.go:299-307 | a node counts as leased if and only if a starting or running physical session names it |
| `Counters.HomeCounts` | backend/internal/session/repo.go:402-412 | in every phase a container session counts its home for its owner, at its own size or the default, and a physical one counts none |
| `SessionTable.TotalRemove` | backend/internal/resource/availability.go:257-296 | a database sum does not depend on the order rows are visited in |
| `SessionTable.TotalPut` | backend/internal/session/repo.go:190-236 | writing one row changes every aggregate by the weight of that row alone |
| `SessionTable.Repo.Sum` | backend/internal/resource/availability.go:272-296 | an aggregate query returns the sum of its weight over all rows |
| `SessionTable.Repo.Create` | backend/internal/session/repo.go:168-168 | an insert fails exactly when the id is taken, and then changes nothing |
| `SessionTable.Repo.UpdateLive` | backend/internal/session/repo.go:190-193 | phase and node of that row change and nothing else |
| `SessionTable.Repo.SetPhase` | backend/internal/session/repo.go:195-197 | the phase of that row changes and nothing else |
| `SessionTable.Repo.ClearNode` | backend/internal/session/repo.go:203-206 | the node of that row is emptied and nothing else changes |
| `SessionTable.Repo.UpdateSpec` | backend/internal/session/repo.go:208-228 | the resources of that row change; phase, node and home stay |
| `SessionTable.Repo.ClaimForStart` | backend/internal/session/repo.go:230-236 | the claim succeeds exactly on a stopped row, which it makes provisioning; otherwise nothing changes |
| `SessionTable.Repo.Delete` | backend/internal/session/repo.go:273-275 | that row goes and no other |
| `Admission.Service.Create` | backend/internal/session/service.go:544-589 | a create is exactly one run of the protocol: it inserts its row if and only if the id is new, the quota allows the home and the gate says yes, and each refusal is told apart |
| `Admission.Service.Start` | backend/internal/session/service.go:1807-1858 | a restart, on the session as read before the lock, is exactly one run of the protocol: it claims the row if and only if the row is stopped now and the gate accepts what was read on its node |
| `Admission.Service.RefreshLive` | backend/internal/session/service.go:1476-1495 | the reconciler decides by the row as listed and writes whatever the row is now: the Pod phase Running, Stopped for an ended Pod, which then holds no seat, Provisioning otherwise, and the node of the Pod; a starting physical session becomes running, and nothing else is written |
| `Admission.Service.Reconfigure` | backend/internal/session/service.go:1931-1935 | the write, at whatever instant, is the respecification step |
| `Admission.Service.JudgeReconfigure` | backend/internal/session/service.go:1907-1931 | the judgement accepts exactly a session read as a stopped container for which the gate of that instant says yes on its node |
| `Admission.Service.Reallocate` | backend/internal/session/service.go:1971-1991 | a session read as a stopped container gives up its node once its home is deleted, whatever its row is now, and nothing else happens |
| `Admission.Service.CheckCapacityOn` | backend/internal/session/service.go:239-250 | the check answers the gate on usage and reservations of one instant |
| `Admission.Service.CheckHomeQuota` | backend/internal/session/service.go:415-431 | the check answers whether homes, volumes and the new home stay within the quota, a zero quota and physical sessions passing |
| `Admission.Service.ReadUsageNow` | backend/internal/resource/availability.go:112-121 | the counters read together are the usage of the table |
| `Admission.Service.ReadReservedNow` | backend/internal/resource/availability.go:272-296 | the reservation query is the sum over rows without a node, per type, whole cards and shares apart |
| `Admission.Service.RunningByNode` | backend/internal/resource/availability.go:267-269 | cards in use per node are the sum over admitted rows on it |
| `Admission.Service.SharedUsageByNode` | backend/internal/resource/availability.go:337-351 | VRAM, cores and count per node are sums over its admitted shared rows |
| `Admission.Service.RunningPhysicalNodes` | backend/internal/resource/availability.go:299-307 | the leased nodes are those with an admitted physical session |
| `Admission.AdmissionRun` | backend/internal/session/service.go:206-220 | with nothing in between, the two reads and the write commit exactly when the gate of that instant says yes |
| `Admission.AdmissionIsLegal` | backend/internal/session/service.go:544-589 | an accepted create or restart, undisturbed, is a run the protocol allows step by step, so the theorems about runs are about it |
| `Admission.EndedPodHoldsNothing` | backend/internal/session/service.go:1476-1495 | once the reconciler has copied a succeeded or failed Pod, the row counts on no node for cards, shares or leases |
| `Settlement.RunBilling` | backend/internal/session/service.go:2277-2308 | over every history of bearable events, restarts, rollbacks, late stops and price changes included, the debits of a run equal the billed column and stay within the floor over its time, and over the life within the sum of the floors of the runs |
| `Settlement.RunStepExactly` | backend/internal/session/service.go:2277-2308 | whatever the phase it finds, an event keeps the run bound if and only if it is bearable: a charge after the end of the run is within what the run was worth, and a new price while it lasts does not make it worth less than was charged |
| `Settlement.RunsExactly` | backend/internal/session/service.go:2191-2225 | the bound holds all along a history if and only if every event of it is bearable |
| `Settlement.AcceptedSettlesAll` | backend/internal/session/service.go:2277-2308 | an accepted settlement of a run that lasts leaves it charged the whole credits, of 3 600 000 000 000 price-nanoseconds each, that its elapsed time is worth, no more and no less, whatever ticks and refusals went before |
| `Settlement.RefusedTickStops` | backend/internal/session/service.go:2291-2325 | a refused tick of a running session that owes a credit or more stops and marks it at that instant and takes nothing |
| `Settlement.StillRunningOwesLittle` | backend/internal/session/service.go:2291-2325 | at the end of any history, a session still running after a refused tick owed less than one credit |
| `Settlement.FinalSettlesAndStops` | backend/internal/session/service.go:1788-1804 | whatever the wallet answers, a stop ends stopped and marked and a termination terminated with its mark kept, and without a yes neither takes anything |
| `Settlement.OwesACredit` | backend/internal/session/service.go:2284-2290 | something is due if and only if the run is worth another whole credit of 3 600 000 000 000 price-nanoseconds |
| `Settlement.CostsACredit` | backend/internal/session/service.go:2258-2266 | stored time costs ten times the price for 2 628 000 seconds, in proportion and rounded down |
| `Settlement.LedgerTrails` | backend/internal/session/service.go:2304-2307 | at a steady price the usage ledger is never ahead of the elapsed time and behind it by less than one credit of time plus one second per accepted charge |
| `Settlement.LedgerKeeps` | backend/internal/session/service.go:2304-2307 | the two bounds of the ledger against the charged credits hold along every bearable history with steady prices |
| `Settlement.TerminateChargesStopped` | backend/internal/session/service.go:2121-2139 | ten hours stopped, then terminated: charged as ten hours of run time |
| `Settlement.ReapChargesStopped` | backend/internal/session/service.go:2495-2510 | ten hours stopped, then claimed by a restart and stopped by the scheduling watch before its tail: the same |
| `Settlement.RepriceOvercharges` | backend/internal/session/repo.go:208-228 | a lower price written onto a running session leaves it charged more than it is worth |
| `Settlement.StaleRunIff` | backend/internal/session/service.go:2277-2303 | a charge reckoned with a row read earlier is counted once if and only if nothing was billed since |
| `Settlement.StaleStorageIff` | backend/internal/session/service.go:2229-2255 | the same for storage |
| `Settlement.StaleStorageChargesTwice` | backend/internal/session/service.go:1808-1893 | a month of storage charged by the biller and again by the tail of a restart that had read the row before |
| `Settlement.StorageBilling` | backend/internal/session/service.go:2229-2266 | over every history, under any prices and answers, the storage column never decreases, equals the accepted debits and stays within the cost at the highest price seen; the time the phase was stopped is the stopped seconds, the time since the last settlement, less than a second cut off per settlement, and the net of the time where mark and phase part |
| `Settlement.BoundsIff` | backend/internal/session/service.go:2229-2255 | that the stopped seconds never exceed the stopped time holds of all histories with a given net if and only if the net is not negative, and that they trail it by under a second per settlement if and only if the net is not positive |
| `Settlement.LeakIff` | backend/internal/session/service.go:1788-1896 | a history has stopped time without a mark, marked time that is not stopped, or a mark put over an older one, if and only if some event of it finds time of that kind |
| `Settlement.OnlyTheseUnmark` | backend/internal/session/service.go:1491-1494 | a row is left stopped without a mark only when the reconciler sees its Pod end, or when a restart ends on a row stopped meanwhile |
| `Settlement.ClaimIsCounted` | backend/internal/session/service.go:1845-1893 | ninety seconds between the claim of a restart and its tail are counted as stopped though the phase was not |
| `Settlement.RollbackRestores` | backend/internal/session/service.go:1845-1862 | a restart that fails leaves the row as its claim found it |
| `Settlement.StopTwiceForgets` | backend/internal/session/service.go:1788-1804 | a second stop after a thousand seconds moves the mark, and those seconds are never counted |
| `Settlement.StopsUnmarked` | backend/internal/session/service.go:1491-1494 | a run with a thousand seconds stopped, one settlement and no stopped second counted |
| `Settlement.AcceptedClearsArrears` | backend/internal/session/service.go:2242-2254 | one accepted charge at the highest price so far brings the column to the whole credits, of 2 628 000 seconds at ten times the price, that all stopped seconds are worth |
| `Settlement.StoreStep` | backend/internal/session/service.go:2229-2255 | every event, whatever it finds, keeps the storage identity, and neither the column nor the seconds decrease |
| `Settlement.StoreKeeps` | backend/internal/session/service.go:2191-2225 | the storage identity holds after every history |
| `Settlement.Account.SettleRun` | backend/internal/session/service.go:2277-2325 | less than a credit owed changes nothing; otherwise an accepted debit leaves the whole credits the elapsed time is worth on the column, a refused one stops and marks the session unless the settlement is final, and a failed one changes nothing |
| `Settlement.Account.SettleStopped` | backend/internal/session/service.go:2229-2255 | the stopped seconds the caller read advance in any case, and the column goes to the whole credits they cost only when the debit is accepted; phase and other columns stay |
| `Settlement.Account.Stop` | backend/internal/session/service.go:1788-1804 | a stop settles first, whatever the phase, then opens the stopped interval |
| `Settlement.Account.Terminate` | backend/internal/session/service.go:2121-2139 | a termination settles first, whatever the phase, and leaves the mark as it is |
| `Settlement.Account.FinishStart` | backend/internal/session/service.go:1893-1896 | the tail of a restart settles storage, closes the interval and begins a new run with the storage column kept |
| `ImageGC.GC.Sweep` | backend/internal/csi/gc.go:60-109 | one sweep deletes exactly the suspects without a volume of this driver on its list, failures excepted, and leaves the other such ids as suspects; a failed volume list clears them, and other failed lists change nothing |
| `ImageGC.GC.SweepKind` | backend/internal/csi/gc.go:87-105 | one kind: suspects among the orphans are deleted, newcomers and failures become suspects |
| `ImageGC.DeletesOnlyTwiceOrphaned` | backend/internal/csi/gc.go:60-109 | over every history, what a sweep deletes is orphaned now and was in the last completed sweep before, with no volume-list failure since |
| `ImageGC.LiveVolumeSurvives` | backend/internal/csi/gc.go:68-91 | a volume of the driver csi.giosk.io on the list of a sweep loses neither image nor stage to it, at any point of any history |
| `ImageGC.ListedIsSpared` | backend/internal/csi/gc.go:68-91 | whatever a sweep suspects, it deletes nothing of a volume of the driver csi.giosk.io on the list it read |
| `ImageGC.LeftoverGoes` | backend/internal/csi/gc.go:60-109 | what is on disk in two completed sweeps, with no such volume on either list and no list failure between, is gone by the second unless its deletion fails |
| `ImageGC.GoneBySecondSweep` | backend/internal/csi/gc.go:87-107 | an orphan of two consecutive completed sweeps is gone by the second unless its deletion fails |
| `ImageGC.FailedDeletionIsRetried` | backend/internal/csi/gc.go:98-102 | a failed deletion is tried again by the next completed sweep that still finds the orphan |
| `ImageGC.SuspectsWereSeen` | backend/internal/csi/gc.go:60-109 | every suspect was orphaned in the last completed sweep, with no volume-list failure since |
| `ImageGC.StaysSuspect` | backend/internal/csi/gc.go:74-84 | an orphan not deleted stays suspect through sweeps that do not complete for want of the local lists |
| `ImageGC.KindsDisjoint` | backend/internal/csi/gc.go:86-108 | images and stages never share a suspect key |
| `HomeReaper.ReapOrphanHomes` | backend/internal/session/homereaper.go:48-76 | both reads given, the home named for a session goes if and only if it is listed, the session is not among the rows read, it is an hour old and its deletion does not fail; when either read fails nothing goes |
| `HomeReaper.ReaperSparesSessions` | backend/internal/session/homereaper.go:48-76 | over every interleaving with creates, starts, rollbacks and deletes, and without any grace, the pass may delete a home only when no row has its id |
| `HomeReaper.DeletedAreDoomed` | backend/internal/session/homereaper.go:48-76 | what the pass deletes from the homes it listed and the rows it then read, the protocol allows it to delete, at any later instant, and no row stands behind it then |
| `HomeReaper.HomeSurvivesPass` | backend/internal/session/homereaper.go:48-76 | a session that keeps its row keeps its home through any pass |
| `HomeReaper.StoppedProfile` | backend/internal/session/homereaper.go:133-148 | the scan exempts, for each user with a dated stopped session, the first with the latest stop time, and stamps exactly the undated ones |
| `HomeReaper.ReapStaleHomes` | backend/internal/session/homereaper.go:90-123 | the pass deletes exactly the sessions stopped for the whole period and not exempt, except failures, and does nothing when disabled |
| `HomeReaper.NewestIsKept` | backend/internal/session/homereaper.go:125-148 | each user with a dated stopped session keeps one with the latest stop time, and whatever goes was stopped for the whole period |
| `HomeReaper.ReclaimedIff` | backend/internal/session/homereaper.go:90-148 | a pass by age takes a session if and only if it was stopped for the whole period and its user has another stopped later, or at the same instant and listed before |
| `HomeReaper.ReapsRunningIff` | backend/internal/session/homereaper.go:97-117 | a listed session is running when the pass deletes it if and only if it was started after the list and not stopped again |
| `HomeReaper.RestartedIsReaped` | backend/internal/session/homereaper.go:97-117 | a session listed, started and then deleted with its home while it runs |
| `HomeReaper.ShownIsKept` | backend/internal/session/repo.go:354-360 | the session shown to the user is the one kept, whichever the database picks, if and only if no other session of the user stopped at the same time |
| `HomeReaper.ShownMayGo` | backend/internal/session/repo.go:354-360 | two sessions stopped at one instant: one is kept, the other may be shown as kept and goes |
| `NodeAgent.Reconciler.ReconcileOnce` | backend/internal/nodeagent/agent.go:65-84 | a failed fetch changes nothing; otherwise exactly the listed leases not applied before are provisioned, the applied ones not listed deprovisioned, and the applied set and names are what those calls achieve |
| `NodeAgent.Reconciler.DeprovisionStale` | backend/internal/nodeagent/agent.go:86-97 | exactly the stale leases are cleaned up and those that succeed forgotten |
| `NodeAgent.AppliedStaysUntouched` | backend/internal/nodeagent/agent.go:65-84 | an applied lease that stays listed is never touched again, whatever fails |
| `NodeAgent.CleanPassConverges` | backend/internal/nodeagent/agent.go:65-97 | a pass without failures leaves exactly the active leases applied, from any state |
| `NodeAgent.ThenQuiet` | backend/internal/nodeagent/agent.go:65-97 | after it, passes on the same leases call the executor for nothing |
| `Nonce.NonceCache.Use` | backend/internal/gateway/nonce.go:22-42 | a use is refused, and changes nothing, exactly while the id is on record with its expiry ahead; otherwise it is recorded, and above 1024 entries all expired ones go; an empty id is granted and leaves no record |
| `Nonce.NonceCache.Used` | backend/internal/gateway/nonce.go:47-55 | the read-only question, which consumes nothing |
| `Nonce.GrantedIff` | backend/internal/gateway/nonce.go:22-42 | a call is granted if and only if no earlier granted call with its id has its expiry ahead, whatever else was used and pruned |
| `Nonce.SingleUse` | backend/internal/gateway/nonce.go:22-42 | of all calls with one id strictly before its expiry at most one is granted |
| `Nonce.ConsumedIsKept` | backend/internal/gateway/nonce.go:32-40 | a granted call stays on record until its expiry through any recordings and prunings |
| `Nonce.EntryWasConsumed` | backend/internal/gateway/nonce.go:32-32 | every entry comes from a granted call |
| `SshHandshake.OneDialPerToken` | backend/internal/gateway/sshproxy.go:65-127 | however concurrent handshakes interleave, of those with one token at most one reaches the back end before its expiry |
| `SshHandshake.TurnedAwayIff` | backend/internal/gateway/sshproxy.go:99-112 | a finished handshake is turned away exactly when its token was dialled before and its expiry lies ahead |
| `SshHandshake.OnlyCheckedDial` | backend/internal/gateway/sshproxy.go:65-127 | over every run, a connection is opened only for an SSH token that was not past its expiry when its callback came |
| `SshHandshake.GoodTokenDials` | backend/internal/gateway/sshproxy.go:65-127 | an SSH token in force and not dialled before opens a connection, whatever ran before |
| `SshHandshake.TwoDialsAtExpiry` | backend/internal/gateway/sshproxy.go:65-112 | two connections opened with one token at the second of its expiry |
| `SshHandshake.RunKeeps` | backend/internal/gateway/sshproxy.go:65-127 | the cache holds the dialled unexpired tokens after every run of callbacks and handshakes |
| `SshHandshake.FinishKeeps` | backend/internal/gateway/sshproxy.go:107-112 | the consume at the end of a handshake keeps that |
| `DatasetPin.PickDatasetNode` | backend/internal/session/service.go:865-908 | a pin is ready, uncordoned, of the type and mode and with the cards the session needs, as far as the reads tell, and no such node has more cache entries |
| `DatasetPin.BestCached` | backend/internal/session/service.go:885-907 | the scoring loop returns an eligible node with the highest score |
| `DatasetPin.PinnableNodes` | backend/internal/session/service.go:915-934 | the candidates are exactly the nodes that meet the placement terms; none is ruled out when the inventory cannot be read |
| `DatasetPin.FreeGpuByNode` | backend/internal/session/service.go:938-959 | per node, cards less those of running exclusive container sessions, whichever node is listed last under a name |
| `DatasetPin.PinIsAccepted` | backend/internal/k8s/mapper.go:297-376 | the node of a pin satisfies every required selector and affinity term of the Pod built with that pin |
| `DatasetPin.AcceptedIsPinnable` | backend/internal/k8s/mapper.go:297-376 | conversely, no node that would accept the Pod pinned to it is ruled out |
| `DatasetPin.AllowsIffMatches` | backend/internal/k8s/mapper.go:310-346 | the early share-mode check and the emitted affinity term agree on every node, labelled or not |
| `DatasetPin.GoesWhere` | backend/internal/k8s/mapper.go:297-376 | a node accepts the Pod if and only if it is ready, uncordoned, of the type, of the share mode by the label giosk.io/share-mode, and has the pin's hostname |
| `DatasetPin.NodeAffinity` | backend/internal/k8s/mapper.go:351-376 | the required terms are the share-mode terms and the hostname of the pin, and there is no affinity when nothing is asked |
| `DatasetPin.ScoreRemove` | backend/internal/session/service.go:888-900 | the score does not depend on the order of the map iteration |
| `DatasetPin.EntryAddsOne` | backend/internal/session/service.go:888-900 | each entry of a cache list adds one to its node's score and nothing to another's |
| `DatasetPin.Visit` | backend/internal/session/service.go:889-899 | one cache entry keeps the lead, whether its node is passed over or counted |
| `DatasetPin.RestartStartsIff` | backend/internal/session/service.go:1866-1888 | a restarted session can start if and only if it could without the pin and the pin is the node of its home |
| `DatasetPin.RestartPinCanClash` | backend/internal/session/service.go:1881-1888 | two free nodes for which the chosen pin keeps a restart from starting |
| `CpuGuarantee.Request.ApplyGuarantee` | backend/internal/session/service.go:985-1015 | the request becomes the guarantee of the reference node, or stays what was asked for when none can be computed |
| `CpuGuarantee.MinNodeOf` | backend/internal/session/service.go:1018-1034 | the loop finds the reference node |
| `CpuGuarantee.RefNodeIsLeast` | backend/internal/session/service.go:1018-1034 | the reference node is a ready node of the type with the fewest cores, absent exactly when there is none |
| `CpuGuarantee.RefNodeIsFirst` | backend/internal/session/service.go:1018-1034 | among nodes with equally few cores it is the first listed |
| `CpuGuarantee.GrantsIff` | backend/internal/session/service.go:985-997 | a guarantee is computed exactly for whole-card, time-sliced and, asking for cores, shared sessions whose type has ready nodes that all report cores |
| `CpuGuarantee.ShareInNumbers` | backend/internal/session/service.go:969-980 | the share, multiplied out, is the cards, core percent or slot the session takes; fewer than one card, slot or node GPU count as one |
| `CpuGuarantee.MemoryFitsIff` | backend/internal/session/service.go:982-984 | a ready node has the memory for every request of its type if and only if it has half of what the reference node has, and a gigabyte |
| `CpuGuarantee.MemoryCanMiss` | backend/internal/session/service.go:982-984 | two nodes of a type for which a request asks twice the memory of the second |
| `CpuGuarantee.Guarantee` | backend/internal/session/service.go:1013-1014 | the guarantee is the whole number nearest to half of the share of the node, and one at the least |
| `CpuGuarantee.FitsEveryNode` | backend/internal/session/service.go:982-984 | a request, whatever it asks for, fits every ready node of its type |
| `CpuGuarantee.ExclusiveShares` | backend/internal/session/service.go:972-973 | the shares of exclusive sessions sum to their cards over the cards of the node |
| `CpuGuarantee.SharedShares` | backend/internal/session/service.go:974-975 | the shares of split sessions sum to their core percent over that of the node |
| `CpuGuarantee.TimesliceShares` | backend/internal/session/service.go:976-977 | the shares of time-sliced sessions sum to their number over the slots of the node |
| `CpuGuarantee.SharesSumToOne` | backend/internal/session/service.go:962-981 | sessions that fit the GPUs of a node, by cards, core percent or slots, hold shares that sum to one at most |
| `CpuGuarantee.HalfPlusOneEach` | backend/internal/session/service.go:998-1014 | sessions that fit the GPUs of a node request less than half of its cores plus one core each |
| `CpuGuarantee.AtMostIdealIff` | backend/internal/session/service.go:1013-1014 | a request is at most half of its share if and only if it is not rounded up |
| `CpuGuarantee.HalfWhenRoundedDown` | backend/internal/session/service.go:998-1004 | when no request is rounded up, together they stay within half of their shares of the node |
| `CpuGuarantee.HalfForEqualSharesIff` | backend/internal/session/service.go:998-1008 | equal sessions that fill a node stay within half of it if and only if one of them is not rounded up |
| `CpuGuarantee.HalfCanFail` | backend/internal/session/service.go:998-1008 | four small sessions on one card request four of two cores |
| `Decimal.Itoa` | backend/internal/systemconfig/systemconfig.go:212-232 | the digit loop writes the printed form, and the write index stays inside the 20 bytes for every 64-bit integer |
| `Decimal.WriteDigits` | backend/internal/systemconfig/systemconfig.go:220-226 | the loop fills the end of the buffer with the digits and leaves room for a sign |
| `Decimal.AtoiOr` | backend/internal/systemconfig/store.go:101-118 | the parser returns the wrapped value of a numeral and the default for anything else |
| `Decimal.RoundTripIff` | backend/internal/systemconfig/systemconfig.go:212-232 | parsing what was printed gives the integer back, for every default, if and only if it is not the least one (or the default is) |
| `Decimal.LeastPrintsBareSign` | backend/internal/systemconfig/systemconfig.go:216-231 | the least integer prints as a sign alone, which reads as the default |
| `Decimal.PrintedIsInjective` | backend/internal/systemconfig/systemconfig.go:212-232 | no two 64-bit integers print alike |
| `Decimal.PrefixNeverOverflows` | backend/internal/systemconfig/store.go:103-113 | reading a printed integer never leaves the 64-bit range on the way |
| `Decimal.ReadsTrueIff` | backend/internal/systemconfig/store.go:101-118 | a numeral reads as its value if and only if that is in the 64-bit range |
| `Decimal.DefaultIff` | backend/internal/systemconfig/store.go:101-118 | the default is read exactly from an empty string, a sign alone, and anything with a character that is neither a digit nor a leading sign |
| `Decimal.ZerosInFront` | backend/internal/systemconfig/store.go:101-118 | zeros in front of a numeral do not change what it reads as |
| `Decimal.DigitsDenote` | backend/internal/systemconfig/systemconfig.go:220-226 | the digits written denote the number |
| `Decimal.DigitsFit` | backend/internal/systemconfig/systemconfig.go:220-226 | a number below ten to the k has at most k digits |
| `ShellQuote.QuoteReadsBack` | backend/internal/nodeagent/executor_shell.go:144-145 | for every string, the quoted form reads as one word, the string |
| `ShellQuote.QuotedAddsItself` | backend/internal/nodeagent/executor_shell.go:102-132 | inside any word of a script, a quoted string adds exactly itself |
| `ShellQuote.ArgumentsReadBack` | backend/internal/nodeagent/executor_shell.go:102-104 | a line of quoted arguments reads as those arguments, as many and each unchanged |
| `ShellQuote.InsideQuotes` | backend/internal/nodeagent/executor_shell.go:145-145 | between the outer quotes the replaced text reads as the text |
| `MountField.UnescapeUndoesEscape` | backend/internal/csi/mount.go:46-52 | for every path, text that looks like an escape included, undoing the octal escapes gives the path back |
| `MountField.NothingToUndo` | backend/internal/csi/mount.go:47-49 | the shortcut for fields without a backslash changes nothing |
| `MountField.OtherTextStays` | backend/internal/csi/mount.go:46-52 | text with none of the four escapes, other backslashes included, stays as it is |
| `MountField.StrayAre` | backend/internal/csi/mount.go:34-34 | the white space that splits fields and that the kernel does not escape, by code point |
| `MountField.IsMountPoint` | backend/internal/csi/mount.go:23-43 | the scan finds the path exactly when some line names it, and fails exactly when the table cannot be read to the end without finding it |
| `MountField.SeesMountIff` | backend/internal/csi/mount.go:33-41 | a mount is seen if and only if, with a root field in one piece, its path has no white space that the kernel leaves unescaped, or, with a root field cut into more, the second piece happens to be its path |
| `MountField.NamesSeen` | backend/internal/csi/mount.go:34-41 | each line names exactly one path, the second piece that unescaped white space cuts root and mount point into |
| `MountField.FieldsOfPath` | backend/internal/csi/mount.go:34-34 | an escaped path gives its pieces, each escaped, as fields of their own |
| `MountField.ScanIsExact` | backend/internal/csi/mount.go:33-43 | on any table the scan answers whether some line is taken for the path, which is whether the path is mounted when every line is taken for its own mount point |
| `MountField.StrayHidesMount` | backend/internal/csi/mount.go:34-41 | a mount whose own name, or whose root field, has an ideographic space is not found, and another path is |

## Left out

- Kubernetes, MySQL, SSH and the shell are parameters: each call's result is an argument, and a conditional SQL update is one atomic step.
- `admit` falling back to the in-process lock alone: the theorems assume that the lock is held.
- Hard limits, affordability, stopped-session limits and team membership: they only refuse more, and the concurrent-session limit is not checked again on a restart, so it is no run invariant.
- Time-slice capacity: its gate reads slot counts and ignores reservations, so nothing clean holds; the functions have the case, the invariants exclude the mode.
- Physical (SSH) sessions: their creation, restart and leases, beyond a step that inserts the row; node lease exclusivity rests on a database key that is not part of this model.
- `WholeCards.NoOverCommitment`: a sum per GPU type, because the gate compares sums; a request for several cards may find them on different nodes.
- The order of the per-type list, the node columns outside the capacity figures, and the parsing of the GPU capacity and CPU quantities: figures arrive as numbers.
- `Settlement.Settle`: exact integers in place of float64, so a product beyond 2^53 is not modelled; time is in nanoseconds as in Go.
- `Settlement.StorageDueOf`: the 64-bit overflow of the product is not modelled.
- Settlement assumes a clock that does not go back. In its histories every settlement reckons with the row as it is; what a row read earlier does is stated beside them.
- The wallet: a debit is all or nothing, and its ledger is the debit counter of the model.
- Time to live of stopped homes as a liveness property: storage settlement moves the stop time on every tick, so only safety is stated.
- `HomeReaper.StoppedProfile`: the map of exempt sessions holds row positions instead of instance ids.
- OS accounts on leased nodes: deprovisioning works by user name, so only the lease map is modelled.
- `CpuGuarantee.GpuShareOf`: reals in place of float64; where rounding is decided by a tie, floating point may differ by one core.
- `DatasetPin.PickDatasetNode`: a cache list naming the empty string as a node is not modelled; the caller takes an empty name for no pin.
- Token encryption and encoding: a token is the claims it decrypts to.
- `MountField.IsMountPoint`: path cleaning, line splitting and the one-megabyte line limit; the method gets the lines and the cleaned path.
- `ShellQuote.Read`: strings without the NUL character in practice, since the shell cannot be given one; expansions, operators and globs end the reading instead of being modelled.
- `Settlement.StorageBilling`: stopped means the phase of the row; how long a finished Pod waited for the reconciler to see it is not modelled. A deletion settles like a tick or a stop and ends the history.
- Policy layering, the image and data-set job pipelines, dashboards, reports, notifications, HTTP handlers, the web front end and the scripts.
