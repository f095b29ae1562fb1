# Floating IP manager: a verified model

Dafny models of the parts of the floating IP manager where several writers meet, and
proofs of what they keep over whole runs:

- `Addresses`, `Ipam`, `Allocator`, `IpamProperties`: the in-memory allocator. `Allocator`
  is the class with its loops; `Ipam` says what every call answers and leaves.
- `Manager`, `ManagerHistory`, `ManagerPasses`, `ManagerDeletion`, `ManagerClaims`,
  `ManagerSafety`, `ManagerLimits`, `ManagerController`: allocation and delete passes from
  cached copies, pool syncs from stale lists and restarts around the allocator.
- `Webhook`, `WebhookReservations`, `WebhookSafety`, `WebhookAddresses`, `WebhookAnswers`,
  `WebhookLimits`: admission with its expiring reservations, its lists and its readings of the
  clock: what it must not allow, and what it must.
- `LbDeletion`, `LbDeletionSafety`, `LbDeletionRuns`, `LbCleaner`: giving a shared address
  back, with passes that can be cut off between any two writes.
- `LbAllocation`, `LbAllocationRuns`, `LbAllocator`: getting a Service its one address.
- `Updates`: guarded updates under optimistic concurrency.
- `Text`, `Registry`, `RegistryUpdates`, `LabelledFip`, `ServiceLabels`, `Claims`,
  `ConcurrentClaims`: the registry of services in a FloatingIP's labels, down to the
  strings, and the requests of several clusters that race for it.
- `Runs`: sequences of steps of any of these machines, put together.
- `QuotaStatus`: the quota status kept incrementally against the one rebuilt.

A protocol is a state machine: `Enabled` and `Next` say which steps there are, `IsRun`
what a run is, and an invariant is kept by every step. Code that changes state is a class
whose methods are proved equal to those steps or to the functions they are made of. Where
a property does not hold of the code, the module says for which steps it does (`Careful`,
`Checked`, `SafeJoin`, `DefersWell`, `NoneExpires`, `Plain`), and shows runs in which it fails without;
an `Iff` or `IsExact` in a name says that the condition is exact.

Addresses are the numbers that their 16 bytes spell. The API server is a map of versioned
objects; a write can go through, go through with its answer lost, or be undelivered.
Clocks, lists, cached copies and the answers of other services are parameters.

What the proofs found in the code:

- `pkg/controller/floatingip/controller.go:572`: when a spec write from a stale copy is
  refused and the read-back fails too, the address of a live status is released, and the
  next allocation can be given it (`ManagerLimits.LostReadBackIsReachable`).
- `pkg/controller/floatingip/controller.go:776`: a delete pass releases the address of the
  status whoever owns it. When the finalizer write that follows is refused, because the object
  was written since the pass took its copy, the next pass releases the address again, and by
  then it can be another FloatingIP's (`ManagerLimits.RepeatedReleaseIsReachable`). The first
  release never takes one, nor would a later one that finds its own claim or none
  (`ManagerSafety.CheckedIsCareful`).
- `pkg/controller/floatingippool/controller.go:228`: a pool sync skips terminating objects;
  after a restart their addresses are free although they are still in a status
  (`ManagerLimits.RestartDuringDeletionIsReachable`), and a sync of a process that was started
  after they were given frees them too (`ManagerLimits.SyncDuringDeletionIsReachable`).
- `pkg/webhook/service/service.go:389`: objects are listed first, the cutoff for recent
  ones is read next and the reservations last (line 428). When a reservation expires in
  between, a create that was persisted after the list is in neither
  (`WebhookLimits.UnlistedGoesOverQuota`), or a listed object, recent for the cutoff, is
  paired off against another create's reservation (`WebhookLimits.PairedOffGoesOverQuota`),
  and the quota is exceeded. The address check reads in the other order and has no such gap.
- `lbcontroller/internal/controller/controller.go:643`: a group member interrupted between
  recording its release and dropping its annotation makes its peer leave the pool behind
  (`LbDeletionRuns.InterruptedMemberLeaksThePool`).
- `lbcontroller/internal/controller/controller.go:943`: a member that joins a group whose
  pool lost only its advertisement does not create the advertisement again
  (`LbDeletionRuns.JoinFindsNoAdvertisement`).
- `lbcontroller/internal/controller/controller.go:554`: only deletions take the lock on the
  address, so a member that joins while the last one withdraws is left without the pool
  (`LbDeletionRuns.JoinDuringWithdrawalLosesThePool`).
- `lbcontroller/internal/controller/controller.go:1404`: when only the answer to the
  annotation write is lost, the address that the Service now records is released
  (`LbAllocationRuns.LostAnswerReleasesTheRecord`); so it is when a retry from an older copy
  fails at that write (`LbAllocationRuns.OlderCopyReleasesTheRecord`).
- `lbcontroller/internal/controller/controller.go:518`: a Service with only a pending marker
  whose static network was edited is deleted without releasing its claim
  (`LbAllocationRuns.EditedServiceLeavesItsClaim`).
- `apiserver/internal/handlers/handlers.go:382`: a retry from a copy without the marker
  whose group or network was edited is not recognized as one, and gets a second address
  (`LbAllocationRuns.EditedServiceGetsTwoClaims`).
- `apiserver/internal/handlers/handlers.go:666`: the unassigned addresses that a request may
  reuse are not limited to the network asked for; a retry does not recognize such a grant
  and gets a second address (`LbAllocationRuns.StrayGrantGetsTwoClaims`).
- `apiserver/internal/handlers/handlers.go:651`: sharing a group has no precondition on the
  live object (`Claims.ReuseAfterHandoverMixesClusters`).

Verify everything with `dafny verify dfyconfig.toml`.

## Model

| member | source | states |
|---|---|---|
| Addresses.OrIsGreatest | pkg/ipam/ipam.go:222-224 | ORing a byte with the inverted mask byte yields the greatest byte of the prefix, for every mask length |
| Addresses.ContainsMeansAgree | pkg/ipam/ipam.go:200-225 | the block from first to last address of an IPv4 prefix is exactly the addresses that agree with it in all bits above the host part |
| Addresses.DirectedBroadcast | pkg/ipam/ipam.go:218-225 | the byte loop computes the last address of the prefix, the directed broadcast of section 3.2.1.3 of RFC 1122 |
| Addresses.WalkStopsIff | pkg/ipam/ipam.go:242-246 | the loop that fills a pool stops if and only if its end is below the all-ones IPv6 address |
| Allocator.IPAllocator.BuildSubnet | pkg/ipam/ipam.go:185-251 | a range is refused for the documented reasons in that order, or materialized as exactly its addresses, all free, without owners |
| Allocator.IPAllocator.NewSubnet | pkg/ipam/ipam.go:110-121 | all or nothing: the table changes only for a range that is accepted, and then in that pool alone |
| Allocator.IPAllocator.RefreshSubnet | pkg/ipam/ipam.go:124-182 | rebuild, exclude, re-mark and carry owned claims over; the new table or, on error, the old one |
| Allocator.IPAllocator.DeleteSubnet | pkg/ipam/ipam.go:275-282 | forgets the pool and nothing else |
| Allocator.IPAllocator.GetIP | pkg/ipam/ipam.go:285-295 | answer and new table of a claim without owner |
| Allocator.IPAllocator.GetIPOwned | pkg/ipam/ipam.go:298-315 | answer and new table of an owned claim; the owner's own address is granted again |
| Allocator.IPAllocator.ReleaseIP | pkg/ipam/ipam.go:379-387 | answer and new table of a release, whoever owns the address |
| Allocator.IPAllocator.ReleaseIPOwned | pkg/ipam/ipam.go:391-407 | a release of somebody else's claim is refused and changes nothing |
| Allocator.IPAllocator.ReleaseAllByOwner | pkg/ipam/ipam.go:450-473 | frees exactly the owner's claims and counts them |
| Allocator.IPAllocator.Used | pkg/ipam/ipam.go:476-493 | counts the used addresses of a pool |
| Allocator.IPAllocator.Available | pkg/ipam/ipam.go:496-513 | counts the free addresses of a pool |
| Allocator.MarkIPUsed | pkg/ipam/ipam.go:254-272 | marks an address of the range used and refuses any other, saying which of the three reasons applies |
| Allocator.CarryOwned | pkg/ipam/ipam.go:165-178 | the owned claims of the old subnet that lie in the new range, and only those, are used and owned afterwards |
| Allocator.TakeNext | pkg/ipam/ipam.go:353-373 | the scan of the sorted addresses grants the least free one and fails when there is none |
| Ipam.FirstFreeIsLeast | pkg/ipam/ipam.go:353-373 | the address an unpinned claim takes is free and below every other free one |
| Ipam.CallsKeepValid | pkg/ipam/ipam.go:79-91 | over every call, each pool has exactly its range's addresses and owners only of used ones |
| IpamProperties.ClaimSurvivesIff | pkg/ipam/ipam.go:124-182 | an owned claim survives a call if and only if the call is not its release, its owner's sweep, the pool's replacement or deletion, or a refresh that puts it out of range |
| IpamProperties.GrantsAreSeparated | pkg/ipam/ipam.go:298-375 | over every sequence of calls: an address granted to one owner and later to anyone else was given up in between |
| IpamProperties.RangeIsAcceptedIff | pkg/ipam/ipam.go:185-236 | a range is accepted if and only if it is not empty, lies in the subnet, ends short of an IPv4 broadcast and has at most 65536 addresses; the first that fails is the reason |
| IpamProperties.NewPoolIsFree | pkg/ipam/ipam.go:110-121 | a new pool has all addresses from start to end, none used and none owned; a refused range changes no pool |
| IpamProperties.RefreshIsRefusedIff | pkg/ipam/ipam.go:124-182 | a refresh is refused if and only if its range is, or an exclude is outside it |
| IpamProperties.PinnedClaimIsGrantedIff | pkg/ipam/ipam.go:298-351 | an owner gets a given address if and only if it is of the range and free or the owner's already, and nothing else changes |
| IpamProperties.UnownedClaimIsGrantedIff | pkg/ipam/ipam.go:285-351 | without an owner, if and only if it is of the range and free |
| IpamProperties.ReleaseIsDoneIff | pkg/ipam/ipam.go:379-434 | a release is done if and only if the address is used, an owner's if and only if it is the owner's, and frees that address alone |
| IpamProperties.RefreshIsExact | pkg/ipam/ipam.go:124-182 | a refresh changes nothing on error; otherwise used is exactly excludes, in-range allocations and in-range owned claims, with exactly those owners |
| IpamProperties.RefreshIsIdempotent | pkg/ipam/ipam.go:124-182 | repeating a refresh with the same arguments changes nothing |
| IpamProperties.MembersAreTheRange | pkg/ipam/ipam.go:218-248 | a pool has exactly the addresses from start to end, at most 65536, none outside the subnet and none the broadcast |
| IpamProperties.UsedPlusAvailable | pkg/ipam/ipam.go:476-513 | used plus available is always the size of the range |
| IpamProperties.UnpinnedClaimIsLeast | pkg/ipam/ipam.go:353-375 | an unpinned claim takes the least free address and fails exactly when none is free |
| IpamProperties.UnpinnedCallIsLeast | pkg/ipam/ipam.go:353-375 | so do the calls of the class, with and without an owner: that address alone changes, and when none is free nothing does |
| IpamProperties.CallsCount | pkg/ipam/ipam.go:317-473 | grants add one, repeated claims none, releases subtract one, sweeps exactly what they report, refusals change nothing |
| IpamProperties.SweepCounts | pkg/ipam/ipam.go:450-473 | a sweep leaves its owner nothing and every other owner's claims alone |
| ManagerSafety.StepKeepsInvIff | pkg/controller/floatingip/controller.go:520-827 | every step of the manager keeps statuses unique and claimed, and allocations that can still complete backed by their claim, if and only if it is careful: a lost read-back must not release a status's address, a pool sync must not skip a holder being deleted whose claim has no owner, and a release must not find its address given away |
| ManagerPasses.CheckSpecIsExact | pkg/controller/floatingip/controller.go:572-576 | the exact effect of the read-back after a failed spec write, kept or released |
| ManagerPasses.ReadBackKeepsThePersisted | pkg/controller/floatingip/controller.go:564-576 | an answered read-back that finds the address in the spec leaves the pool as it is; after any other one the FloatingIP does not own it, and every other claim is as it was |
| ManagerDeletion.ReleaseIsExact | pkg/controller/floatingip/controller.go:715-827 | a delete pass from a cached copy, ended early or not, takes an address from another status or an allocation under way if and only if its copy's address has been given to one |
| ManagerDeletion.ReleaseFreesExactly | pkg/controller/floatingip/controller.go:776-827 | a release frees the address of its copy's status, whoever has it, and with the sweep all that the FloatingIP owns; every other address keeps its state and its owner |
| ManagerDeletion.FirstReleaseIsCareful | pkg/controller/floatingip/controller.go:776-780 | the first release of an object never takes another's address, whatever copy it starts from and whatever happened since |
| ManagerDeletion.OwnedReleaseIsCareful | pkg/controller/floatingip/controller.go:776-780 | nor does any release that finds its own claim on the address |
| ManagerDeletion.UnusedReleaseIsCareful | pkg/controller/floatingip/controller.go:776-780 | nor one that finds the address unused |
| ManagerSafety.CheckedIsCareful | pkg/controller/floatingip/controller.go:520-827 | a read-back that is answered is careful, and so is a release that checks, before its call, that it is the first of its object or that the pool has the address for its FloatingIP or for nobody; syncs and restarts are as in Careful |
| ManagerClaims.StepKeepsTracked | pkg/controller/floatingip/controller.go:520-827 | every step, careless ones included, keeps each claim with the pass or the spec of its owner, each pass with the current object, and each pending finalizer without a claim |
| ManagerClaims.ClaimStaysIff | pkg/controller/floatingip/controller.go:520-827 | under every step, careless ones included, a claim stays if and only if the step is no read-back of its pass that does not find it in the spec, no deletion that names its address or sweeps its owner, and no restart |
| ManagerClaims.ClaimBeginsWithAPass | pkg/controller/floatingip/controller.go:520-553 | a FloatingIP gets a claim only when a pass of its own begins, on a free address and on the one it pins if it pins one |
| ManagerClaims.DeletionLeavesNoClaim | pkg/controller/floatingip/controller.go:715-827 | when the finalizer goes, the FloatingIP has no claim left, whatever went wrong before |
| ManagerHistory.LiveCopyIsCurrent | pkg/controller/floatingip/controller.go:235-253 | a copy not being deleted that a pass is shown is of the current object, and so are all that later passes are shown, although objects are recreated under their names |
| ManagerSafety.RefreshIsExact | pkg/controller/floatingippool/controller.go:209-276 | the exact effect of a pool sync from a stale list |
| ManagerSafety.RestartIsExact | pkg/controller/floatingippool/controller.go:209-276 | a restart rebuilds the pool from statuses; it frees an address that is still held exactly when its holder is being deleted |
| ManagerSafety.NoAddressTwice | pkg/controller/floatingip/controller.go:520-827 | over every run of checked steps, of two FloatingIPs of a pool with the same status address one is being deleted and has released it |
| ManagerSafety.NoTwoShareAnAddress | pkg/controller/floatingip/controller.go:520-827 | over every run in which each delete pass is one step, from the current object to its finalizer, no two FloatingIPs of a pool ever have the same status address, and releases need no check |
| ManagerSafety.CarefulRunsKeepApart | pkg/controller/floatingip/controller.go:520-827 | the same over every run of careful steps, whose condition is exact |
| ManagerSafety.ClaimsBetweenPasses | pkg/controller/floatingip/controller.go:524-579 | over every run without any condition, between passes every claim a FloatingIP owns is its persisted spec address |
| ManagerSafety.NoClaimOutlivesItsObject | pkg/controller/floatingip/controller.go:715-827 | over every run without any condition, a FloatingIP that is gone has no claim |
| ManagerLimits.CarelessStepBreaks | pkg/controller/floatingip/controller.go:572-576 | after any careless step an ordinary allocation run ends with one address in two statuses, neither released |
| ManagerLimits.LostReadBackIsReachable | pkg/controller/floatingip/controller.go:569-579 | a pass from a stale copy whose read-back fails is reachable and careless |
| ManagerLimits.RestartDuringDeletionIsReachable | pkg/controller/floatingippool/controller.go:226-242 | a restart while a FloatingIP with an address is being deleted is reachable and careless |
| ManagerLimits.SyncDuringDeletionIsReachable | pkg/controller/floatingippool/controller.go:226-242 | a pool sync, in a process started after a FloatingIP got its address, while that is being deleted is reachable and careless |
| ManagerLimits.RepeatedReleaseIsReachable | pkg/controller/floatingip/controller.go:776-893 | a deletion whose finalizer write is refused as outdated, an allocation of the released address, and the retry of the deletion, which frees it under its new holder |
| ManagerLimits.DeletionKeepsOthersIff | pkg/controller/floatingip/controller.go:776-780 | the release of a deletion leaves other owners' claims alone if and only if its status does not name one of them |
| ManagerController.Controller.AllocationPass | pkg/controller/floatingip/controller.go:520-625 | the allocation pass, call by call, is its sequence of model steps for every way its writes end; it succeeds if and only if an address is granted and both writes go through, and a granted address that is written to the spec stays its own if the write or a read-back is answered |
| ManagerController.Controller.DeletePass | pkg/controller/floatingip/controller.go:715-827 | the delete pass, call by call, is its release and, unless saving the release fails, its finalizer step; it frees exactly the address of the status and, swept, the FloatingIP's own, and drops the object if and only if nobody wrote it since |
| ManagerController.AllocationLeaves | pkg/controller/floatingip/controller.go:520-625 | for every fate of its calls: what the pass leaves in spec and status, whose the granted address is in the end, and that no other object and no other address changes |
| ManagerController.DeletionLeaves | pkg/controller/floatingip/controller.go:715-893 | for every fate of its calls: which addresses the pass frees and when the object is gone |
| ManagerController.Controller.CollectStatuses | pkg/controller/floatingippool/controller.go:209-243 | collects exactly the status addresses of the objects that are not being deleted |
| ManagerController.Controller.PoolSync | pkg/controller/floatingippool/controller.go:209-276 | the pool sync is its model step |
| Webhook.Handler.ActiveQuotaReservations | pkg/webhook/service/service.go:177-195 | counts the unexpired reservations of a key and drops the others |
| Webhook.Handler.LiveQuotaUsage | pkg/webhook/service/service.go:379-435 | usage is the occupying objects plus the reservations that no recent object can account for |
| Webhook.Handler.CheckIPNotInUse | pkg/webhook/service/service.go:267-351 | denies an address reserved at the first look or claimed by an object listed later, and otherwise reserves it |
| Webhook.Handler.CheckQuota | pkg/webhook/service/service.go:645-723 | denies what would exceed the quota, and otherwise takes a reservation |
| Webhook.Handler.ValidateCreate | pkg/webhook/service/service.go:437-729 | the verdict on a create and both reservation tables after it |
| WebhookReservations.ActiveExpiries | pkg/webhook/service/service.go:177-195 | the unexpired reservations are in number the unexpired admissions |
| WebhookSafety.UsageCovers | pkg/webhook/service/service.go:369-435 | usage from a list of the moment counts every occupying object and every create in flight: pairing reservations off against recent objects hides none, wherever the cutoff is read from then on |
| WebhookSafety.StepKeepsInv | pkg/webhook/service/service.go:369-435 | under the lock of its project and pool, a list with the reservations unexpired at its time goes on counting every slot, whatever other creates and other keys do until the decision |
| WebhookSafety.StepKeepsQuota | pkg/webhook/service/service.go:645-723 | no step lets the slots of a project and pool grow beyond the quota, unless it is a decision between whose list and whose reading a reservation of its key expires |
| WebhookSafety.QuotaIsNeverExceeded | pkg/webhook/service/service.go:174-204 | over every run whose decisions see no reservation of their key expire between list and reading, however much time passes and whatever else happens there, occupying objects and admitted creates that may still persist never exceed the quota |
| WebhookAddresses.OneAdmissionPerAddress | pkg/webhook/service/service.go:223-352 | over every run, two creates for one address of a pool are never both in flight or persisted and not errored |
| WebhookAnswers.AddressIsDeniedIff | pkg/webhook/service/service.go:262-342 | a pinned address is denied if and only if it has an unexpired reservation, or an object of the pool pins it that is being deleted, has an address or has not failed |
| WebhookAnswers.OnlyAllowedAddressesAreReserved | pkg/webhook/service/service.go:262-352 | an allowed create reserves its address for five seconds, a denied one reserves nothing, and no other reservation changes |
| WebhookAnswers.UsageIsAtMost | pkg/webhook/service/service.go:369-435 | usage is at most the slots taken by other objects plus the unexpired admissions that have no object of their own younger than the cutoff; if all have one, it is exactly the slots, whether their addresses are there yet or not |
| WebhookAnswers.WithinQuotaIsAllowed | pkg/webhook/service/service.go:645-723 | over every run, a create is allowed when the listed slots and the unexpired admissions without an object leave one of the quota |
| WebhookAnswers.NoQuotaIffMissing | pkg/webhook/service/service.go:679-688 | a quota is reported missing if and only if none is set for the project and pool |
| WebhookLimits.UnlistedGoesOverQuota | pkg/webhook/service/service.go:379-435 | from an empty cluster, however short the time between list and reading: a create persisted after the list has its reservation expire before the reading, and a quota of one ends with two |
| WebhookLimits.PairedOffGoesOverQuota | pkg/webhook/service/service.go:389-428 | from an empty cluster, with a list that shows every object: one recent for the cutoff, its reservation expired at the reading, hides a create in flight, and a quota of two ends with three |
| WebhookLimits.ReadingsCoverIff | pkg/webhook/service/service.go:379-435 | with no guard but a bound on the time from list to reading, all runs from a fresh process keep the quotas if and only if the bound is zero |
| WebhookLimits.CutoffCoversIff | pkg/webhook/service/service.go:389-428 | the cutoff is read from the clock before the reservations are: usage counts every slot of every reachable state if and only if the cutoff's reading does not lag behind theirs |
| LbDeletion.StepKeepsServiceIff | lbcontroller/internal/controller/controller.go:546-690 | a step keeps members served, and every pending withdrawal the last user's, if and only if it is no join during a withdrawal and no group join to a pool without its advertisement |
| LbDeletion.PoolIsNeverTakenFromAPeer | lbcontroller/internal/controller/controller.go:2036-2125 | over every run with any interruptions, and with passes from cached copies whose record or Service is gone, pool and advertisement are only taken away when no other load balancer Service is annotated with the address, and none that is not being deleted has a claim on it or, under MetalLB, is selected by the pool |
| LbDeletionSafety.StepKeepsTidyIff | lbcontroller/internal/controller/controller.go:578-690 | a step leaves the pool to a pass that will still decide about it if and only if it does not defer to peers that have all decided already |
| LbDeletionSafety.LastMemberRemovesThePool | lbcontroller/internal/controller/controller.go:546-690 | for any number of members in any order of uninterrupted passes: after the last one pool, advertisement and claims are gone |
| LbDeletionRuns.InterruptedMemberLeaksThePool | lbcontroller/internal/controller/controller.go:614-663 | two members deleted together: one interrupted after recording its release, the other going first, leave the pool behind |
| LbDeletionRuns.JoinFindsNoAdvertisement | lbcontroller/internal/controller/controller.go:934-944 | a pass interrupted between withdrawal and pool deletion, then a group join: the new member is served no advertisement |
| LbDeletionRuns.JoinDuringWithdrawalLosesThePool | lbcontroller/internal/controller/controller.go:546-597 | a member that joins during the withdrawal of the last one loses the pool to it |
| LbDeletionRuns.SoleDeletionIsOrdered | lbcontroller/internal/controller/controller.go:574-690 | a sole claimant, however often interrupted and begun again from whatever copy: advertisement, then pool, then release, then finalizer, and always the same end |
| LbDeletionRuns.SoleProgress | lbcontroller/internal/controller/controller.go:574-690 | an uninterrupted step of a sole claimant's deletion decreases its rank if and only if it does not begin a pass from a copy whose record is gone |
| LbDeletionRuns.SoleReachesTheEnd | lbcontroller/internal/controller/controller.go:574-690 | from whatever an interruption left, a rerun reaches the end in which nothing is left |
| LbCleaner.Cleaner.AddressInUse | lbcontroller/internal/controller/controller.go:2081-2125 | finds another Service that records the address and is a load balancer, if and only if there is one |
| LbCleaner.Cleaner.SharedPoolInUse | lbcontroller/internal/controller/controller.go:1928-1943 | finds another live Service that the pool selects or the IPAM lists, if and only if there is one |
| LbCleaner.Cleaner.UpdateService | lbcontroller/internal/controller/controller.go:1464-1481 | the records a deletion writes on the Service, if it is still there |
| LbCleaner.Cleaner.DeletePass | lbcontroller/internal/controller/controller.go:546-690 | a deletion pass resumes at the recorded stage, is finished if and only if all its writes reach the cluster, and cut off after any of them leaves exactly what those before did; it takes the pool and its advertisement if and only if no stage is recorded and no other Service needs them |
| LbCleaner.Cleaner.Resume | lbcontroller/internal/controller/controller.go:574-690 | the writes that are left from the recorded stage, in their order, until one does not reach the cluster |
| LbCleaner.PassLeaves | lbcontroller/internal/controller/controller.go:546-690 | after every number of writes: pool, advertisement and claims, and annotation, stage and finalizer of the Service, every other Service as it was |
| LbDeletion.UnusedIff | lbcontroller/internal/controller/controller.go:2036-2125 | an address is not in use if and only if no other load balancer Service is annotated with it and no live one has a claim or is selected by the pool |
| LbCleaner.FinishedIff | lbcontroller/internal/controller/controller.go:546-690 | how many writes that takes from each stage |
| LbCleaner.PassIsARun | lbcontroller/internal/controller/controller.go:546-690 | what it leaves is what a run of the protocol leaves |
| LbAllocation.PlainStepKeepsInv | lbcontroller/internal/controller/controller.go:787-867 | a step that edits nothing, is granted in the network it asks for and releases only what is known to be unrecorded keeps every claim on record and one that every retry's request is answered with, from whatever copy its pass began |
| LbAllocation.ClaimIsRecordedAndSingle | lbcontroller/internal/controller/controller.go:830-867 | over every run of such steps, at every crash point a claim implies annotation or marker, it is the only one, and a recorded address is claimed |
| LbAllocation.RetryAdoptsTheClaim | lbcontroller/internal/controller/controller.go:787-816 | over every run of such steps, once there is a claim all later retries keep it alone, as long as none gives it back, and each that gets to its record records exactly it |
| LbAllocation.StepKeepsInv | lbcontroller/internal/controller/controller.go:787-867 | one step, after edits and stray grants too: claims stay on record if a pass only begins from a copy that has the address, finds the claim or asks for what the claim was made for, and none releases what it may have recorded |
| LbAllocation.CleanUpLeavesNoClaimIff | lbcontroller/internal/controller/controller.go:518-536 | deleting a Service leaves it no claim if and only if its claim is annotated or in the network it asks for at that time |
| LbAllocationRuns.CarelessStepBreaks | lbcontroller/internal/controller/controller.go:781-867 | any other step breaks it: the Service can end with two claims, or with a record of an address it released |
| LbAllocationRuns.EditedServiceGetsTwoClaims | apiserver/internal/handlers/handlers.go:361-393 | a run that only lacks the first condition: with an edit between two requests whose answers are lost, two claims |
| LbAllocationRuns.StrayGrantGetsTwoClaims | apiserver/internal/handlers/handlers.go:666-673 | a run that only lacks the second: granted an address of another network, a retry from the live object gets a second claim |
| LbAllocationRuns.LostAnswerReleasesTheRecord | lbcontroller/internal/controller/controller.go:1395-1404 | a run that only lacks the third: the answer to the record is lost, and the recorded address is released |
| LbAllocationRuns.OlderCopyReleasesTheRecord | lbcontroller/internal/controller/controller.go:1395-1404 | another: a retry from the copy before the record fails at its write and releases the recorded address |
| LbAllocationRuns.EditedServiceLeavesItsClaim | lbcontroller/internal/controller/controller.go:518-536 | a run with an edit that ends with the Service deleted and its claim left |
| LbAllocationRuns.StaleRetryIsReachable | apiserver/internal/handlers/handlers.go:361-393 | an edit, a request from the older copy with its answer lost, and a retry from a copy without the marker make a careless step |
| LbAllocator.Allocator.LookupFloatingIP | lbcontroller/internal/controller/controller.go:1908-1920 | finds a claim of this Service in the network it asks for, if and only if there is one |
| LbAllocator.Allocator.AllocationPass | lbcontroller/internal/controller/controller.go:762-1400 | the state after an allocation pass is the composition of the steps that its copy, its lookup, its writes and its request make it take; it reports success only with the address recorded, an adopted one if its copy has or its lookup finds one and otherwise the granted one |
| LbAllocator.PassIsARun | lbcontroller/internal/controller/controller.go:762-1400 | that composition is a run of the protocol, however its calls end |
| LbAllocator.PassLeavesUnknown | lbcontroller/internal/controller/controller.go:808-831 | a Service with an ingress address, but neither annotation nor listed claim, is left alone |
| LbAllocator.PassAdopts | lbcontroller/internal/controller/controller.go:794-846 | an annotated or recovered address is recorded as it is, never requested, and never released while the Service is there |
| LbAllocator.PassRequests | lbcontroller/internal/controller/controller.go:847-1418 | otherwise: what is claimed and recorded for every fate of marker, request and record; an existing claim keeps its network, and its group unless the request names one |
| Updates.StepKeepsInv | apiserver/internal/handlers/handlers.go:126-142 | every step of every interleaving keeps copies, versions and log consistent |
| Updates.InterleavedUpdatesAreAtomic | apiserver/internal/handlers/handlers.go:126-142 | every commit of a call applies its change to what was there with its guard true; the log is a chain, so nothing committed is lost; done means one commit, refused or conflicted none |
| Updates.ConflictsAreOthersProgress | apiserver/internal/handlers/handlers.go:85-95 | a call that gives up after eight conflicts saw eight changes by others |
| Updates.CallEndsIff | apiserver/internal/handlers/handlers.go:126-142 | in every interleaving, which step ends a call in which way: refused only by content that fails its guard, done only by a write on the version it read |
| Updates.OutcomeIsAtomic | apiserver/internal/handlers/handlers.go:126-142 | a call is done if and only if some attempt passes undisturbed after disturbed ones, its change applied to what that attempt found, and conflicts if and only if all eight are disturbed; it is refused if and only if an attempt finds content that does not pass its guard, and then, as after conflicts, leaves what it found |
| Updates.ApiServer.UpdateIf | apiserver/internal/handlers/handlers.go:126-142 | the retry loop computes that outcome |
| Text.AtoiUndoesItoa | apiserver/internal/handlers/handlers.go:36-55 | decimal printing and parsing of machine integers undo each other |
| Registry.NextIdIsUnusedIff | apiserver/internal/handlers/handlers.go:36-55 | the label chosen for a new service exists if and only if the greatest machine integer is in use and the label of the least one exists |
| Registry.ExistsIffRegistered | apiserver/internal/handlers/handlers.go:60-74 | the label scan finds a service if and only if it is registered |
| RegistryUpdates.ClaimRegisters | apiserver/internal/handlers/handlers.go:177-197 | a claim registers the service once, under a number above all others, and the cluster label is there exactly when a service is |
| RegistryUpdates.ClaimNamesTheRest | apiserver/internal/handlers/handlers.go:177-197 | besides, a claim names its project and cluster, its group if it has one, and leaves every other label outside the service prefix as it was |
| RegistryUpdates.ClaimOverflowsIff | apiserver/internal/handlers/handlers.go:177-197 | after a claim the labels still encode a registry if and only if no number beyond the greatest machine integer was needed |
| RegistryUpdates.ReleaseUnregisters | apiserver/internal/handlers/handlers.go:925-974 | a release removes exactly the service, and leaves the same labels for every iteration order; while services remain, every label outside the service prefix stays as it was, and with the last one exactly the cluster label and a group's name go |
| RegistryUpdates.ReleaseUndoesClaimIff | apiserver/internal/handlers/handlers.go:925-974 | release after claim restores an unclaimed FloatingIP's labels if and only if it had the project already and no group label that the release drops |
| RegistryUpdates.StrippingUnregistersAll | clustermanager/pkg/controllers/clusterprovisioning_controller.go:646-658 | deleting a cluster leaves no service, no cluster label and no group label, and every other label as it was |
| LabelledFip.FloatingIP.NextServiceID | apiserver/internal/handlers/handlers.go:36-55 | the running maximum yields the number after the greatest in use |
| LabelledFip.FloatingIP.ServiceAlreadyExists | apiserver/internal/handlers/handlers.go:60-74 | the scan decides whether the service's pair of labels exists |
| LabelledFip.FloatingIP.ApplyRequestLabels | apiserver/internal/handlers/handlers.go:177-197 | the labels after a request, written in place |
| LabelledFip.FloatingIP.Release | apiserver/internal/handlers/handlers.go:925-974 | one pair of labels of the service goes, in whatever order they are met, then group and cluster when nothing is left |
| LabelledFip.FloatingIP.ReleaseClaimLabels | clustermanager/pkg/controllers/clusterprovisioning_controller.go:646-658 | deleting while iterating strips exactly the claim labels |
| ServiceLabels.FindsTheNumber | pkg/controller/floatingip/service_labels.go:24-40 | the pattern match on a registry's label yields exactly its number and field |
| ServiceLabels.ParseServices | pkg/controller/floatingip/service_labels.go:17-72 | the labels of a registry decode to exactly its services in increasing order of their numbers |
| ServiceLabels.InOrderIsUnique | pkg/controller/floatingip/service_labels.go:54-69 | that order determines the decoded list |
| Claims.StepKeepsInvIff | apiserver/internal/handlers/handlers.go:155-197 | a step keeps all services of a FloatingIP with the cluster it names if and only if it does not claim a live object of another cluster |
| Claims.GuardedClaimsKeepOneCluster | apiserver/internal/handlers/handlers.go:516-533 | over every run of guarded claims, group sharing that still finds its cluster on the live object, releases and cluster deletions, all services of a FloatingIP belong to its one cluster and none is listed twice |
| Claims.ClaimAdmitsItsGroup | apiserver/internal/handlers/handlers.go:149-175 | whom a claimed FloatingIP is there for: pinned requests of its cluster, and unpinned ones of its cluster that name its group, if it has one |
| Claims.ReleaseReopensIff | apiserver/internal/handlers/handlers.go:925-974 | after a release the FloatingIP is there for whom it was before or, if and only if the last service went, for everybody |
| ConcurrentClaims.EveryContentIsKept | apiserver/internal/handlers/handlers.go:126-197 | however guarded updates interleave, every content the labels ever have encodes a registry without duplicates, with a cluster label exactly when a service is registered |
| ConcurrentClaims.ClusterStaysWhileListed | apiserver/internal/handlers/handlers.go:155-197 | from its claim on and as long as its service stays listed, the FloatingIP names the cluster of the request |
| ConcurrentClaims.ServicesListedTogetherShareACluster | apiserver/internal/handlers/handlers.go:516-533 | however requests from different clusters interleave read by read and write by write, services listed together belong to one cluster |
| Claims.ReuseAfterHandoverMixesClusters | apiserver/internal/handlers/handlers.go:648-657 | sharing a group is unguarded: released and claimed by another cluster in between, a FloatingIP gets services of both |
| QuotaStatus.Quota.RecordAllocation | pkg/controller/floatingip/controller.go:656-693 | an allocation's address is recorded and counted once |
| QuotaStatus.Quota.RecordDeletion | pkg/controller/floatingip/controller.go:746-774 | a recorded address is removed and uncounted |
| QuotaStatus.RecordingAgainReports | pkg/controller/floatingip/controller.go:656-693 | an address recorded again counts once and shows the latest cluster; other addresses and pools stay as they are |
| QuotaStatus.RemovingTakesOne | pkg/controller/floatingip/controller.go:746-774 | a removal takes back one recorded address, and of one that is not recorded nothing |
| QuotaStatus.Quota.Rebuild | pkg/controller/floatingipprojectquota/controller.go:270-307 | the rebuilt status counts the holders of every pool and lists their addresses, each with the display name of one of its holders, in whatever order they are listed |
| QuotaStatus.StepKeepsInv | pkg/controller/floatingip/controller.go:656-693 | every completed pass and every rebuild leaves the status reporting exactly the holders |
| QuotaStatus.KeptEqualsRebuilt | pkg/controller/floatingipprojectquota/controller.go:270-307 | after any run the status kept step by step and the rebuilt one report the same usage and addresses of every pool |
| QuotaStatus.RebuiltCountsAddressesIff | pkg/controller/floatingipprojectquota/controller.go:291-301 | a rebuilt status counts its addresses right if and only if no two FloatingIPs of the project hold the same one |

## Left out

- Addresses.DirectedBroadcast: text parsing of addresses and prefixes, other spellings of an address, and IPv6 prefixes that contain the IPv4 block are not modelled; the invalid address value is one constant.
- Allocator.IPAllocator.BuildSubnet: for a range that ends at the all-ones address the loop does not end (Addresses.WalkStopsIff), so the method is for all others.
- Allocator.IPAllocator.RefreshSubnet: like BuildSubnet, for ranges that end below the all-ones address; pools are values, so the aliasing of inner maps between an old and a new subnet is not modelled.
- ManagerSafety.NoAddressTwice: holds for checked steps; that more than careful ones cannot be allowed is CarelessStepBreaks; the pool's range does not change during a run, nobody but the passes edits spec and status addresses, and an object has its finalizer from its creation on.
- ManagerController.Controller.AllocationPass: conditions, shared keys, pool and quota status writes are not part of the pass.
- ManagerController.Controller.DeletePass: of the pool status write only its failure is part of the pass; the quota status write, before anything is released, is not.
- Webhook.Handler.CheckIPNotInUse: for creates; the denial from the pool's status, the exemption of updates and the denial when the list fails are not modelled.
- Webhook.Handler.ValidateCreate: updates and moves between pools, the extra denials from pool status and range checks, and failed lists, which deny, are not modelled; neither are generated names.
- WebhookSafety.QuotaIsNeverExceeded: one process; for decisions that see no reservation of their key expire between list and reading, as UnlistedGoesOverQuota and PairedOffGoesOverQuota show to be needed; a create is persisted before its earliest reservation expires or never, an errored claim stays errored, quotas are fixed, and the objects found at the start are older than a reservation.
- LbDeletion.PoolIsNeverTakenFromAPeer: the reads of one decision are one step; a join is one step; a converted Service does not turn back; tombstones of vanished Services, and deletions abandoned for a missing project or Secret, are not modelled.
- LbCleaner.Cleaner.SharedPoolInUse: for a pool as the controller writes it; one without allocation rules or with namespace selectors, which counts as used, is not modelled.
- LbCleaner.Cleaner.UpdateService: one write of the records; the retries after conflicts, which Updates is about, are not repeated here.
- LbCleaner.Cleaner.DeletePass: from the IPAM's answers on; resolving project and Secret, and recovering a pending claim (LbAllocation.CleanUpLeavesNoClaimIff), are not part of it.
- LbAllocator.Allocator.AllocationPass: pool and advertisement, and their removal when a later write fails, are not part of the pass.
- LbDeletionSafety.LastMemberRemovesThePool: for uninterrupted passes without annotations removed by hand; StepKeepsTidyIff says exactly which interruptions matter.
- LbDeletionRuns.SoleReachesTheEnd: for a Service that is being deleted; a converted one keeps its object.
- LbAllocation.ClaimIsRecordedAndSingle: for runs without edits, without grants in another network and without releases of what may be recorded, each of which LbAllocationRuns shows to be needed; the pool objects created on the way, and a Service recreated under its name, are not modelled.
- Updates.InterleavedUpdatesAreAtomic: one object; backoff delays are not modelled.
- Updates.ApiServer.UpdateIf: between its attempts others may change the object; its own writes do not fail in other ways than by conflict.
- RegistryUpdates.ReleaseUndoesClaimIff: a missing label map is an empty one.
- Claims.GuardedClaimsKeepOneCluster: group sharing only where the live label still names the request's cluster, as StepKeepsInvIff shows to be needed; requests name a cluster and numbers do not run out; every update is one step here, ConcurrentClaims takes it apart.
- ConcurrentClaims.ClusterStaysWhileListed: other writers of the object leave the claim labels alone, strip them for a deleted cluster, or delete or create the object.
- ServiceLabels.ParseServices: for labels that are no registry the result depends on the iteration order and is left open.
- QuotaStatus.KeptEqualsRebuilt: completed passes with unique addresses; project labels and pools of a FloatingIP do not change, and address families, and the display names of the kept status, are not compared.
- Range admission of pools (validateFloatingIPPool), which checks that a pool's start, end and excludes parse, are in order and lie in its subnet and range; rate limits and session caps of the API server, and requeue intervals, which say when a pass runs and not what it does.
- HTTP, TLS, tokens, leader election, metrics, Helm, cluster provisioning, informers and generated clients: plumbing around the core.
