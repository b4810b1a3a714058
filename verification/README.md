# A model of the cnpg-vcluster controllers

This project models the fail-closed lifecycle machinery of two Kubernetes controllers and proves what it
guarantees over every run. One controller creates and tears down Tenants; the other keeps a catalog of
databases for each Tenant. Every protocol is written as the source has it, with its branches, error cases and
constants, and the guarantees are stated about all inputs, all interleavings or all reachable states.

| file | protocol |
|---|---|
| `Base.dfy`, `Ipv4.dfy` | shared datatypes; IPv4 prefixes as aligned blocks of addresses |
| `Networks.dfy` | network validation of the foundation and of Azure allocation catalogs |
| `Leases.dfy`, `LeaseCalls.dfy` | claiming and releasing slots through Leases: the decisions, then the calls under interference |
| `Teardown.dfy`, `SlotReuse.dfy` | the Tenant finalizer: one pass, whole teardowns, and its composition with allocators |
| `AzureRuns.dfy`, `AzureRivals.dfy` | claims from rotating Azure catalogs, and when two catalogs collide |
| `OwnerChain.dfy` | owner-chain walks and the descendants teardown accepts |
| `Gate.dfy`, `Leadership.dfy` | the admission gate and the trust in a leader Lease |
| `Catalog.dfy`, `CatalogRuns.dfy` | catalog validation against its admission rules; edits, status writes and the drain as runs |
| `Intent.dfy`, `MergePatch.dfy` | Tenant status updates with retry, and what a merge patch stores |
| `LocalPath.dfy` | local volume directories |
| `Activation.dfy` | activation tickets |
| `Addons.dfy`, `AddonContent.dfy` | packing of add-on documents, and reading them back |

`dafny verify dfyconfig.toml` checks the whole project.

## How it is modelled

- Objects that the source updates in place are classes whose methods are proved against functions of the old
  state. Racing code is a state machine: a step for every atomic operation or API call, runs as sequences of
  states. Where a method makes several API calls, `Interfere` stands between them for everything others may do; a
  ghost parameter `alone` says that nobody does anything.
- Parsing of addresses, SHA-256, the printing of networks and the set of white-space characters are parameters;
  nothing is assumed about them except where a lemma says so (`RejectsEmpty`: the empty text is no address;
  `Usual`: a line break is white space and a dash is not).
- Clocks, inventories and responses are parameters or steps.

Assumptions about the environment, each built into the machine that uses it:

- Atomic operations of the gate are sequentially consistent.
- UIDs and resource versions are never reused, and `deletionTimestamp` is never unset.
- A deleting Tenant's residue only shrinks, and residue is created only while the Tenant holds its Lease.
- Two catalogs that are compared give their slots distinct Lease names, that is, the name hash does not collide in them.
- A leader's timers fire on time, its identity is its own, its Lease object is not deleted and recreated,
  renewals do not go back in time, and a process gives its Lease up only when it no longer works.
- Only the drain removes a catalog's finalizer, and only admissions change the stored configuration hash.
- Local directories are not touched by anyone else during a call.

## Where the code does not give a guarantee unconditionally

Each of these is proved as an equivalence, with a run or input that shows the failing side.

- No Lease outlives its Tenant's finalizer if and only if an allocation and a finalizer pass of one Tenant never
  overlap (`FinalizerGoesLastIffSerialized`). A Lease created after the deletion request does no harm then
  (`CreatedAfterDeletion`); one created after the last look of an overlapping pass does (`StraddlingCreate`).
- Claims under way at once, from two Azure catalogs, keep all live networks apart in every run if and only if
  slots of different names in the two share no address (`ApartIffCompatible`). One catalog always does
  (`OneCatalogIsCompatible`); a catalog that renames a slot does not (`RenamedSlotsCollide`).
- At a closed gate no drain misses its wake-up if and only if there is at most one drain
  (`NoLostWakeUpIffOneDrainer`): one stored notification wakes one waiter.
- Two open gates never coexist if and only if clock readings lag by less than half the grace period; with
  draining included, by less than a quarter (`ExclusiveIffClocksAgree`).
- The admission rules and the Rust validator differ exactly on removals whose terminal proof still lists pending
  work (`AdmissionIsValidation`, with such a removal in `PendingRemovalDiffers`); the status rule excludes those.
- The proof a removal rests on was written while this entry was listed if and only if no terminal proof was stored
  under its UID when it was added (`OwnProofIff`). A status outlives its entry until it is pruned, so an entry added
  again can meet its predecessor's proof (`ReaddedEntryMeetsOldProof`).
- The drain deletes an emptied catalog by itself if and only if the Tenant owns the catalog, its finalizer is
  there and nobody else is deleting it (`DrainFinishesIff`): stopping between its two last writes leaves it stuck.
- A catalog that still has its finalizer can be deleted by any later steps at all if and only if the Tenant owns it
  and nobody has asked the API server to delete it (`CanGoIff`): a DELETE call before the drain leaves it terminating.
- An outcome update is an atomic compare-and-set if and only if the two outcomes differ (`SwapsIffOutcomesDiffer`).
- A status patch stores exactly the intended status if and only if it drops no stored field
  (`PublishedExactlyIffGrown`); clearing an allocation therefore needs the explicit nulls (`ClearedExactlyIff`).
- An owner chain is accepted if and only if one without a repeated UID exists; unique UIDs make that every
  chain (`UniqueUidsSuffice`), and a reused UID does not (`ReusedUidRefused`).
- A preparation stopped inside a component can be repeated if and only if it stopped before the directory was
  made, or in one of the two unstamped levels with a creation mask that leaves the mode as asked
  (`RerunSucceedsIff`); otherwise every later walk past that component is refused.
- A removal stopped on the way is completed by running it again if and only if the ordinal directory was still there,
  or none of its parents had become empty (`RemovalResumesIff`).
- Packing is optimal for the names finally given if and only if content that fits under the bare name also fits
  under number zero (`OptimalAsNamedIff`, with a job that fits only under the bare name in `BareNameRefused`).
- Packed add-on sources read back as their documents if and only if no document contains a separator line
  (`PackedReadsBackIff`); stripping an indented separator line makes such a document (`IndentedSeparatorIsLost`).

## Model

| member | source | states |
|---|---|---|
| Ipv4.DisjointIffNoSharedAddress | controller/src/foundation.rs:223-225 | testing only the two network addresses is the same as having no address in common, for all prefixes |
| Ipv4.NestedOrDisjoint | controller/src/foundation.rs:223-225 | of two prefixes the narrower lies inside the wider or they share nothing |
| Ipv4.PairwiseDisjointMeansAddresses | controller/src/azure_allocation.rs:219-219 | in a pairwise disjoint list an address lies in at most one network |
| Ipv4.PairwiseIffNoAddressTwice | controller/src/azure_allocation.rs:84-89 | the pairwise test passes exactly when no address lies in two networks of the list |
| Foundation.PrefixIsABlock | controller/src/foundation.rs:213-225 | a text is accepted exactly when it denotes a network whose address is a multiple of its size, and that network holds exactly the addresses of one aligned block |
| Foundation.Cidrs | controller/src/foundation.rs:227-237 | accepts a list exactly when all texts are canonical and no network repeats |
| Foundation.CheckReserved | controller/src/foundation.rs:254-265 | passes exactly when the reserved networks and the subnet are pairwise disjoint |
| Foundation.AddSlotNetworks | controller/src/foundation.rs:326-335 | the accumulate-and-check step succeeds exactly when the list stays pairwise disjoint |
| Foundation.ValidateSlots | controller/src/foundation.rs:292-335 | the slot loop with its running sets succeeds exactly when every slot joins the earlier ones and all networks are pairwise disjoint |
| Foundation.ValidateCreation | controller/src/foundation.rs:239-335 | the network and slot part succeeds exactly on the foundations described without any order of checking |
| Foundation.AcceptsIffSound | controller/src/foundation.rs:239-335 | what the validator accepts is exactly what is sound by addresses: aligned networks, no address in two of them, labelled slots with distinct identifiers, ordinals and endpoints inside the subnet |
| Foundation.AcceptedFoundation | controller/src/foundation.rs:239-335 | in an accepted foundation no address lies in two networks, endpoints are distinct and outside every slot network |
| AzureCatalog.CollectNetworks | controller/src/azure_allocation.rs:70-91 | collects the networks in order exactly when slots have the right shape and distinct ids |
| AzureCatalog.SuffixScan | controller/src/azure_allocation.rs:70-91 | comparing each network with the later ones and the reserved ones is exactly pairwise disjointness and clearance |
| AzureCatalog.Validate | controller/src/azure_allocation.rs:70-91 | succeeds exactly on the catalogs whose slots are shaped, distinct, pairwise disjoint and clear of reserved ranges |
| AzureCatalog.AcceptsIffSound | controller/src/azure_allocation.rs:70-91 | what validation accepts is exactly what is sound by addresses: sixteen or more per service network, none in two networks, none reserved, distinct Azure names |
| Leases.AnnotationsIdentify | controller/src/allocation.rs:183-199 | Lease annotations determine the slot and the Tenant they were written for |
| Leases.LabelsIdentify | controller/src/allocation.rs:172-181 | Lease labels determine the installation, the slot and the Tenant's name |
| Leases.LeaseNamesIdentify | controller/src/allocation.rs:104-112 | a Lease name has 63 characters, tells Azure slots from others, and is shared exactly by slots whose digests agree in the digits that fit |
| Leases.ValidateClaim | controller/src/allocation.rs:227-268 | a Lease is a claim exactly when every marker binds it to Tenant and slot, and then its identifiers are returned |
| Leases.ClaimIsWhatWasCreated | controller/src/allocation.rs:201-268 | a Lease is a claim exactly when it is, to the last field, what a creation stores under some identity |
| Leases.MatchingClaimMeaning | controller/src/allocation.rs:351-405 | the scan succeeds exactly when at most one Lease carries the UID and no Lease contradicts its name; it finds a claim exactly when there is a carrier, and that one is bound to a pool slot |
| Leases.PoolRefusedIff | controller/src/allocation.rs:136-170 | a pool is refused exactly for a malformed namespace or Tenant name, an empty identifier, a clashing label, no slots, or slots with malformed or colliding names |
| Leases.ClaimDecisionMeaning | controller/src/allocation.rs:407-433 | an existing claim is the UID's only Lease and agrees with the recorded allocation; a creation has no such Lease and a free name |
| Leases.RecoverMeaning | controller/src/allocation.rs:310-330 | recovery returns nothing exactly without carriers, otherwise the one allocation its only carrier is bound to |
| Leases.BoundReleaseMeaning | controller/src/allocation.rs:440-520 | a release with a recorded allocation deletes only the UID's only Lease bound to that allocation |
| Leases.ReleaseDecisionMeaning | controller/src/allocation.rs:440-520 | pending exactly while residue exists, complete exactly without residue and carriers, deletion only of the UID's only, fully bound Lease |
| Leases.SuccessorMeaning | controller/src/allocation.rs:331-348 | a Lease is accepted as a successor's exactly when it is the full and only claim of a valid context of the same installation, or of any one under rotating catalogs |
| Leases.CompleteOverSuccessorIff | controller/src/allocation.rs:463-487 | a release whose recorded slot has another Tenant's Lease is complete exactly when that Lease is such a claim, and refused otherwise |
| Leases.ReleaseDecisionOnOne | controller/src/allocation.rs:588-627 | deciding again on that Lease alone, unchanged, gives the same deletion |
| Leases.RecoverWhatWasCreated | controller/src/allocation.rs:201-330 | a Lease made for a slot is recovered as exactly that slot if and only if the slot is a valid allocation |
| LeaseServer.LeaseApi.Create | controller/src/allocation.rs:540-584 | creation is atomic on the name |
| LeaseServer.LeaseApi.Delete | controller/src/allocation.rs:605-622 | deletion happens exactly when UID and version still match |
| LeaseCalls.Allocate | controller/src/allocation.rs:528-584 | under any interference a return names a pool slot that some list during the call shows as the Tenant's only Lease; undisturbed, a Tenant without a Lease gets the first slot whose name is free and its Lease is stored, and one with a Lease gets that claim; it lists at most once more than there are slots |
| LeaseCalls.AllocationAgreement | controller/src/allocation.rs:528-584 | without releases all returns for one UID name one slot and returns for two UIDs name two |
| LeaseCalls.ReleaseLease | controller/src/allocation.rs:588-627 | under any interference the only write deletes a Lease bound to this Tenant after the residue proof; completion means a list without its UID; undisturbed, with the Lease in order, that proof is all it takes for it to go |
| Teardown.Finalizer.Record | controller/src/finalize.rs:368-393 | of the four status edits the first one wanted is made, nothing exactly when none is wanted, and an error exactly when the Cluster identifier is the first wanted and missing |
| Teardown.Finalizer.RemoveNext | controller/src/finalize.rs:395-434 | writes exactly when some piece of residue has its turn; it removes or marks that piece and nothing else |
| Teardown.Finalizer.DeleteRoot | controller/src/finalize.rs:455-477 | deletes exactly the roots that are not terminating already and changes no other residue |
| Teardown.Finalizer.DeleteLease | controller/src/finalize.rs:435-441 | after a decision to delete, the Tenant's only Lease is gone and every other Lease is as before |
| Teardown.Finalizer.Finish | controller/src/finalize.rs:435-452 | without residue: deletes the only Lease, or clears the allocation, or removes the finalizer, and always writes |
| Teardown.Finalizer.Reconcile | controller/src/finalize.rs:136-453 | a pass makes at most one change, each allowed only in its place and each lowering one measure; a status entry records only what was missing or what the Tenant's only Lease is bound to; a clear pass that can decide and writes nothing waits for residue that is not its to remove; Leases, allocation and finalizer change only when all seven kinds of residue are gone, and with everything on record a live Cluster, then the volume, then a Namespace left alone are removed |
| Teardown.NothingLeft | controller/src/finalize.rs:350-356 | no residue means exactly that each of the seven kinds is absent |
| LeaseCalls.InOrderIsDecidable | controller/src/allocation.rs:440-520 | with at most one Lease, complete and agreeing with the status, and nobody else holding the name or slot, no list is refused |
| Teardown.WritesAreBounded | controller/src/finalize.rs:361-452 | over any teardown the writes so far plus the measure left never exceed the measure at the start |
| Teardown.FifteenWrites | controller/src/finalize.rs:361-452 | that start is at most fifteen for a Tenant with one Lease |
| Teardown.TeardownEnds | controller/src/finalize.rs:361-452 | while nobody else brings the Tenant's Lease out of order, every clear pass with nothing to wait for writes, and after fifteen of them the finalizer is gone and no residue, Lease or allocation remains |
| Teardown.GoneMeansNothingRemains | controller/src/finalize.rs:350-452 | in any teardown, once the finalizer is gone nothing of the Tenant is left or comes back |
| SlotReuse.EveryPartIsRead | controller/src/finalize.rs:350-356 | a pass reads every kind of residue that can exist |
| SlotReuse.RunKeepsInv | controller/src/finalize.rs:350-452 | what each pass has read stays true under every interleaving of allocators, passes, providers and other writers |
| SlotReuse.NoReuseOverResidue | controller/src/finalize.rs:350-452 | in every run, while a piece of residue exists its slot's Lease names its Tenant, and no other Tenant has residue there |
| SlotReuse.FinalizerGoesLast | controller/src/finalize.rs:435-452 | the finalizer is removed only without residue and recorded allocation and, when allocations and passes of a Tenant do not overlap, without a Lease |
| SlotReuse.ReleaseFreesTheSlot | controller/src/allocation.rs:588-627 | from every reachable state, a pass that proved the residue gone and is to delete the Tenant's Lease deletes exactly that one, in three steps |
| SlotReuse.CreatedAfterDeletion | controller/src/reconcile/local.rs:116-129 | a serialized run in which a Tenant's Lease is created after its deletion was requested |
| SlotReuse.StraddlingCreate | controller/src/allocation.rs:528-584 | a run in which an allocation overlaps the last pass: it lists, decides on a slot of its pool and creates the Lease after that pass has looked |
| SlotReuse.FinalizerGoesLastIffSerialized | controller/src/finalize.rs:435-452 | no Lease outlives the finalizer in any run if and only if allocations and finalizer passes of one Tenant never overlap |
| AzureRuns.ActiveClaimsMeaning | controller/src/azure_allocation.rs:114-131 | the check passes exactly when every live Azure Lease has readable networks and, for each slot, is its exact claim or shares no address with it |
| AzureRuns.CheckedClear | controller/src/azure_allocation.rs:114-131 | the check at the start of a claim clears every catalog slot of every other live Lease |
| AzureRuns.RunKeepsInv | controller/src/azure_allocation.rs:95-131 | while claims under way at once come from compatible catalogs, live Leases stay separated over any sequence of catalogs, claims, releases and other writes |
| AzureRuns.CatalogRotationsStayApart | controller/src/azure_allocation.rs:70-131 | with one claim at a time any rotation of catalogs keeps every address in at most one live Azure Lease |
| AzureRuns.CompatibleClaimsStayApart | controller/src/azure_allocation.rs:95-131 | so does any number of claims at once from pairwise compatible catalogs |
| AzureRuns.OneCatalogIsCompatible | controller/src/azure_allocation.rs:70-91 | an accepted catalog is compatible with itself |
| AzureRivals.CatalogSize | controller/src/azure_allocation.rs:70-91 | an accepted catalog has no more slots than there are addresses |
| AzureRivals.ApartIffCompatible | controller/src/azure_allocation.rs:95-131 | for any two accepted catalogs with distinct Lease names, addresses stay apart in all runs that claim from them if and only if slots of different names share no address |
| AzureRivals.RenamedSlotsCollide | controller/src/azure_allocation.rs:95-131 | two accepted catalogs that name the same networks differently, and a run ends with one address in two Leases |
| OwnerChain.ApiVersionMeaning | controller/src/ownership.rs:225-228 | an API version is accepted exactly when it is a version alone or a group, one slash and a version |
| OwnerChain.Lookup | controller/src/ownership.rs:164-184 | finds an object exactly when one place matches, none exactly when no place does, and refuses duplicates |
| OwnerChain.ValidateOwnerChain | controller/src/ownership.rs:196-242 | succeeds exactly when a chain without repeated UIDs leads to the root, within inventory size plus one nodes |
| OwnerChain.UniqueUidsSuffice | controller/src/ownership.rs:196-242 | with unique UIDs that is exactly when any finite chain leads to the root |
| OwnerChain.ReusedUidRefused | controller/src/ownership.rs:213-218 | an object whose UID an ancestor reuses has a chain and is still refused |
| Descendants.ValidateDescendants | controller/src/finalize.rs:269-318 | the inventory check passes exactly when UIDs are unique and every descendant has its identity, parent kind and chain, and machines their ownership markers |
| Descendants.AcceptedDepth | controller/src/finalize.rs:280-310 | every accepted descendant lies exactly its kind's level below the deployment, at most three owners deep |
| Descendants.AcceptsIffForest | controller/src/finalize.rs:269-318 | the inventory check accepts exactly the forests in which every descendant has its identity, markers and one live listed owner; the chains follow |
| Descendants.MachineSetAccepted | controller/src/finalize.rs:280-310 | a MachineSet under its MachineDeployment, spelled out, is accepted for all names and UIDs |
| GateMachine.RunBalanced | controller/src/runtime.rs:157-202 | in every interleaving the counter equals the threads between its two changes, so it never underflows |
| GateMachine.ReturnsExactlyWhenEmpty | controller/src/runtime.rs:186-190 | in every run a drain returns only from its load of the counter, and from there exactly when no thread is inside |
| GateMachine.DrainIsSafe | controller/src/runtime.rs:161-202 | once a drain has returned no permit exists or is granted until the gate is started again |
| GateMachine.RunNoLostWakeUp | controller/src/runtime.rs:186-202 | with one drain, at a closed gate a waiting drain always has active work, a stored notification or a notifier on its way |
| GateMachine.DrainFinishesAlone | controller/src/runtime.rs:186-202 | when all others are done after a stop, the drain is not parked and returns within three steps |
| GateMachine.NoLostWakeUpIffOneDrainer | controller/src/runtime.rs:186-202 | every run keeps that at every closed gate if and only if at most one thread drains |
| LeadershipGate.LeadershipGate.constructor | controller/src/runtime.rs:144-154 | a new gate is closed, empty and without a notification |
| LeadershipGate.LeadershipGate.StartAccepting | controller/src/runtime.rs:157-159 | opens the gate and changes nothing else |
| LeadershipGate.LeadershipGate.StopAccepting | controller/src/runtime.rs:161-167 | run alone it takes exactly its machine steps; with nobody inside every drain is woken |
| LeadershipGate.LeadershipGate.TryEnter | controller/src/runtime.rs:174-184 | run alone it grants a permit exactly when the gate accepts, and counts it |
| LeadershipGate.LeadershipGate.Leave | controller/src/runtime.rs:192-202 | run alone it lowers the counter, and the last one out of a closed gate wakes every drain |
| Leadership.LeaseConfirmation.constructor | controller/src/runtime.rs:271-286 | the first deadline is the duration less half the grace from now |
| Leadership.LeaseConfirmation.Observe | controller/src/runtime.rs:288-332 | a response that differs from the record in UID, transitions, duration or holder, goes back in time, comes late or is out of range is refused and changes nothing; any other is confirmed exactly while the deadline is ahead, and a new renewal moves the deadline by the stated amount |
| Leadership.OneIncarnation | controller/src/runtime.rs:288-368 | all responses one monitor ever confirms are of one Lease object, one holder and duration, one count of transitions once recorded, and never renewed earlier |
| Leadership.ReadAgain | controller/src/runtime.rs:288-332 | the same response again is confirmed exactly while its deadline and expiry are ahead, and moves nothing |
| Leadership.DeadlineBeforeExpiry | controller/src/runtime.rs:315-325 | the exact deadline of a renewal, and that retirement fits before expiry exactly when the clocks agree closely enough |
| Leadership.RereadingExtendsNothing | controller/src/runtime.rs:288-368 | over any run without a renewal the confirmation and its deadline stay as they are |
| Leadership.RenewalExtends | controller/src/runtime.rs:315-325 | a renewal that is read and judged in time moves the deadline by what is left of the Lease less half the grace |
| Leadership.RunKeepsInv | controller/src/runtime.rs:408-563 | every confirmation and every response in flight is backed by the Lease or has run out |
| Leadership.RetiresBeforeExpiry | controller/src/runtime.rs:525-563 | every retirement is due strictly before the Lease it was confirmed under expires, and that Lease is still held |
| Leadership.ExclusiveIffClocksAgree | controller/src/runtime.rs:408-563 | two working leaders never coexist in any run if and only if clock readings lag less than the stated part of the grace |
| Regex.FixedMatches | database-controller/src/api.rs:415-417 | a fixed-length pattern matches exactly the texts that fit it position by position |
| Catalog.NamePatternMeansValidName | database-controller/src/api.rs:206-218 | the rule's name pattern accepts exactly the names the byte loop accepts |
| Catalog.UidPatternMeansValidUid | database-controller/src/api.rs:220-229 | the rule's UUID pattern accepts exactly the texts the byte loop accepts |
| Catalog.ValidateEntrySet | database-controller/src/api.rs:241-253 | the entry loop succeeds exactly when entries are valid and names unique; its error is that of the first faulty entry in key order |
| Catalog.ValidateSpec | database-controller/src/api.rs:231-254 | succeeds exactly on valid specifications; which earlier check fails decides the error |
| Catalog.ValidateEntries | database-controller/src/api.rs:268-290 | succeeds exactly when every old entry is kept as it was or removed with its proof; its error is that of the first refused entry in key order |
| Catalog.ValidateTransition | database-controller/src/api.rs:256-301 | succeeds exactly on the allowed transitions; each kind of error is reported exactly when its clause is the first to fail |
| Catalog.ValidateConditionalUpdate | database-controller/src/api.rs:303-321 | in addition the update was made from exactly this object, and a conflict is reported exactly otherwise |
| Catalog.SchemaMeansValidSpec | database-controller/src/api.rs:359-422 | schema bounds and object rules admit exactly the valid specifications named after their Tenant |
| Catalog.AdmissionIsValidation | database-controller/src/api.rs:403-448 | the validator accepts exactly what the rules admit, except removals whose proof still has pending work |
| Catalog.PendingRemovalDiffers | database-controller/src/api.rs:256-301 | a removal with pending work that the rules admit and the validator refuses |
| Catalog.AdmissionEqualsValidation | database-controller/src/api.rs:375-448 | under the status rule the two agree on every update |
| CatalogRuns.NewStatus | database-controller/src/status.rs:22-40 | a status only for an entry that exists under its own UID, removal only of one that does not, all others untouched |
| CatalogRuns.RunKeepsInv | database-controller/src/status.rs:42-114 | in every run what was read at the stored version is what is stored, and the stored catalog is valid |
| CatalogRuns.EveryRemovalIsProven | database-controller/src/status.rs:75-114 | every removal of a logical UID, by anyone, happens from a state that stores its terminal proof with nothing pending |
| CatalogRuns.OwnProofIff | database-controller/src/status.rs:22-40 | in every continuation each removal of a listed entry rests on a proof written since, if and only if no terminal proof is stored for it now |
| CatalogRuns.ReaddedEntryMeetsOldProof | database-controller/src/status.rs:75-114 | from any new catalog a run in which a removed entry is added again and meets the proof of its predecessor |
| CatalogRuns.DrainedMeansProvenAbsence | database-runtime/src/catalog_runtime.rs:331-407 | whoever deletes the catalog, it is closed and empty and every entry it ever had was removed with its proof |
| CatalogRuns.FinalizerGoesWhenEmpty | database-runtime/src/catalog_runtime.rs:379-407 | in every run the finalizer goes before the catalog does, and only from an owned, closed catalog without entries, statuses or a pending deletion |
| CatalogRuns.ClosedStaysClosed | database-controller/src/api.rs:262-298 | a closed catalog stays closed and its key set only shrinks |
| CatalogRuns.EntriesNeverChange | database-controller/src/api.rs:268-276 | over every run a listed entry keeps its name and instances, and its deletion is never taken back |
| CatalogRuns.TenantNeverChanges | database-controller/src/api.rs:262-267 | over every run the catalog names one Tenant |
| CatalogRuns.AlwaysWithinBounds | database-controller/src/api.rs:231-254 | at any time at most three databases of one to three instances with distinct names |
| CatalogRuns.StatusesAreTheirOwn | database-controller/src/api.rs:375-382 | at any time at most three statuses, each under its own logical UID, and no terminal proof with pending work |
| CatalogRuns.RemovalPassesAdmission | database-controller/src/status.rs:82-104 | admission never refuses a removal that the writer's own check let through |
| CatalogRuns.ClosingPassesAdmission | database-runtime/src/catalog_runtime.rs:354-378 | admission never refuses the drain's closing patch |
| CatalogRuns.CatalogServer.DrainPass | database-runtime/src/catalog_runtime.rs:330-407 | one pass alone: what it leaves, when it refuses, when it is done |
| CatalogRuns.PassIsARun | database-runtime/src/catalog_runtime.rs:330-407 | a pass consists of machine steps, also when it is stopped between its last two writes |
| CatalogRuns.DrainFinishesIff | database-runtime/src/catalog_runtime.rs:331-407 | passes delete an emptied catalog if and only if the Tenant owns it, it has its finalizer and no deletion is pending |
| CatalogRuns.CanGoIff | database-runtime/src/catalog_runtime.rs:331-407 | from any state with any entries and statuses some steps still lead to the catalog's deletion if and only if its finalizer is gone or the Tenant owns it and no deletion is pending |
| TenantStatus.TenantApi.MutateStatus | controller/src/status.rs:102-145 | under any interference success rests on a reading with the caller's UID, generation, specification and deletion, which needed no change or was itself replaced by the patch, within five rounds; undisturbed it succeeds unless the operation refuses, and the wanted status is stored |
| IntentRuns.RunKeepsInv | controller/src/status.rs:102-145 | every reading held by a call is an earlier value of the stored Tenant and bounds what can come after it |
| IntentRuns.SuccessBeganWith | controller/src/status.rs:168-277 | a call that succeeds began with a stored Tenant that allowed it: its deletion, finalizer, names and intent are as each operation asks |
| IntentRuns.RefusedIff | controller/src/status.rs:17-318 | an operation refuses a reading exactly for another identity or for the intent, outcome or capability it names |
| IntentRuns.LastsFourConflicts | controller/src/status.rs:102-145 | through up to four conflicts a call goes on and its next undisturbed patch is stored; a fifth ends it |
| IntentRuns.WriteIsExact | controller/src/status.rs:102-318 | a write replaces exactly the value it was computed from, under the same identity, and changes only intent, condition, observed generation and, for namespaces, the capability, each as its operation says |
| IntentRuns.IntentNeverChanges | controller/src/status.rs:196-237 | a recorded intent is never changed or removed |
| IntentRuns.ClosedForGood | controller/src/status.rs:168-194 | after a successful closing the Tenant never had an intent and never gets one |
| IntentRuns.DecidedOnce | controller/src/status.rs:168-237 | in no run do closing and recording both succeed |
| IntentRuns.ClosingHappens | controller/src/status.rs:168-194 | a run in which a deleted Tenant's creation is closed, for every identity |
| IntentRuns.CreationHappens | controller/src/status.rs:196-318 | a run through intent, preparation, namespaces and observed catalog, for every intent |
| IntentRuns.StaleNoOp | controller/src/status.rs:239-277 | with equal outcomes a call holding an old reading succeeds after the outcome moved on |
| IntentRuns.SwapsIffOutcomesDiffer | controller/src/status.rs:239-277 | success is an atomic compare-and-set in all runs if and only if the outcomes differ |
| MergePatch.ExactIffCovered | controller/src/status.rs:45-69 | applying a patch without nulls stores exactly that value if and only if nothing stored is missing from it at any depth |
| StatusPatch.StatusReadsBack | controller/src/status.rs:53-54 | nothing of a status is lost or mixed up in the document that is sent |
| StatusPatch.PublishedExactlyIffGrown | controller/src/status.rs:45-69 | publishing a Local status stores exactly it if and only if it drops no stored field |
| StatusPatch.NullsDrop | controller/src/status.rs:52-57 | the two explicit nulls act as if their fields had not been stored |
| StatusPatch.ClearedExactlyIff | controller/src/status.rs:45-69 | with the nulls the result is exact if and only if the status has a provider without allocation and drops nothing else |
| StatusPatch.NullsAreNeeded | controller/src/finalize.rs:445-449 | clearing a stored allocation is exact with the nulls and never without them |
| LocalPath.Volume.RootChain | database-controller/src/local_path.rs:174-211 | opens exactly the plainly spelled mountpoints reached through directories within the chain limit; invalid input exactly for an empty or not plain root |
| LocalPath.Volume.Mkdir | database-controller/src/local_path.rs:285-327 | creates a missing component as the controller's own, stopped after any write at exactly the state that write leaves, and accepts an existing one exactly when it already is the controller's |
| LocalPath.Volume.Existing | database-controller/src/local_path.rs:329-355 | missing, accepted or refused, each exactly in its case |
| LocalPath.Volume.CheckTree | database-controller/src/local_path.rs:411-427 | passes exactly when everything below is a file or a directory within the chain limit; changes nothing |
| LocalPath.Volume.DeleteTree | database-controller/src/local_path.rs:447-471 | unless stopped it succeeds exactly on a clean tree and then deletes it completely; in every case nothing outside it goes |
| LocalPath.Volume.Prepare | database-controller/src/local_path.rs:476-493 | with legal names under an open root it succeeds, uninterrupted, exactly when all five fit the chain and every existing component is the controller's, makes exactly the missing ones and repeated changes nothing; no existing path ever changes, all that is new lies on the way to the ordinal, and success leaves the five directories with the stated owners, modes and stamps |
| LocalPath.RerunSucceedsIff | database-controller/src/local_path.rs:285-327 | exactly when a preparation stopped inside a component can be repeated; otherwise every later walk past it is refused |
| LocalPath.Volume.Inspect | database-controller/src/local_path.rs:495-510 | true exactly when the five directories are there with the stated owners, modes and stamps; false exactly when the walk meets a missing one, and then nothing is at or below the ordinal |
| LocalPath.Volume.EntryAbsent | database-controller/src/local_path.rs:512-526 | true exactly when the walk over four components meets a missing one, and then nothing of the entry is left |
| LocalPath.Volume.Remove | database-controller/src/local_path.rs:530-573 | unless stopped it succeeds exactly on verified parents and a clean ordinal, and removes exactly the ordinal subtree and the parents it emptied; a refusal leaves every path as it was; stopped after any write it is at one of three stages; in every case all that goes is at or below the ordinal's own path or is an emptied parent, and never a link or device |
| LocalPath.TargetIdentifies | database-controller/src/local_path.rs:231-247 | two ordinals with the same path are the same ordinal of the same entry and catalog |
| LocalPath.OthersStay | database-controller/src/local_path.rs:530-573 | a removal leaves everything at or below another ordinal, logical UID or catalog as it was |
| LocalPath.RemovalResumesIff | database-controller/src/local_path.rs:530-573 | removing again after a stop leaves the tree an undisturbed removal leaves if and only if it stopped before the ordinal was gone or no emptied parent was left; past that point an emptied logical directory stays and the entry is never reported absent |
| LocalPath.LastOrdinalLeavesNothing | database-controller/src/local_path.rs:512-573 | after the last ordinal is removed the entry is reported absent |
| LocalPath.PrepareThenRemove | database-controller/src/local_path.rs:476-573 | preparing a new catalog's first ordinal and removing it restores the same tree |
| Activation.ConfigMaps.Admit | controller/src/activation.rs:26-124 | stopped after any write it leaves exactly what its writes so far amount to: the ticket marked, the state written unlocked, the ticket gone; the change is done or still admissible; uninterrupted it succeeds exactly with a valid configuration, a clean inventory and a ticket for both hashes and this token at most 600 seconds old, and then the ticket is gone |
| ActivationRuns.OnlyWritesChangeTheHash | controller/src/activation.rs:85-105 | the hash moves only in an admission's state write |
| ActivationRuns.ChangeIsAuthorised | controller/src/activation.rs:26-165 | each such write read, in order, the unlocked state it replaces, a ticket naming both hashes and at most 600 seconds old, and a clean inventory |
| ActivationRuns.ConsumedBeforeWritten | controller/src/activation.rs:67-79 | no state is written under a ticket that had not been stored as consumed before |
| ActivationRuns.LockHolds | controller/src/activation.rs:35-43 | from the rollback lock to its lifting the hash stays as it is, whatever calls were under way |
| ActivationRuns.AdmissionGoesThrough | controller/src/activation.rs:26-124 | from every reachable store an admissible change is carried out by an undisturbed call, also with a ticket consumed before |
| ActivationRuns.CrashIsRecovered | controller/src/activation.rs:68-79 | a call that crashed after consuming its ticket can be made again with it |
| ActivationRuns.NewTicketAdmits | controller/src/activation.rs:57-124 | a ticket issued for the present hash lets the change through |
| ActivationRuns.OnlyTheUsedTicketIsDeleted | controller/src/activation.rs:105-122 | an admission that ends deletes the ticket it used and never a newly issued one |
| ActivationRuns.NoTicketServesTwice | controller/src/activation.rs:26-165 | over any concurrent and crashing admissions the tickets of successive changes were issued strictly one after another |
| Addons.RangesGrow | scripts/lib/addons.py:66-74 | the serialised content only grows when a range of documents is widened |
| Addons.NamesGrow | scripts/lib/addons.py:67-74 | a later number never makes a shorter name |
| Addons.WidthIsEncodedLength | scripts/lib/addons.py:66-74 | the width of a text is the length of its ASCII JSON encoding |
| Addons.StaysAhead | scripts/lib/addons.py:63-89 | no split gets further with the same number of chunks |
| Addons.NamesDiffer | scripts/lib/addons.py:90-95 | different numbers make different names, none of them the bare one |
| Addons.PackageSource | scripts/lib/addons.py:47-103 | succeeds exactly when some contiguous split fits under numbered names, keeps all documents in order, fits the limit, uses the fewest chunks and names them all differently |
| Addons.OptimalAsNamedIff | scripts/lib/addons.py:90-95 | it is optimal for the names finally given if and only if fitting under the bare name implies fitting under number zero |
| Addons.BareNameRefused | scripts/lib/addons.py:63-95 | a job that fits whole under its bare name and has no numbered split |
| AddonContent.DocumentsAreProper | scripts/lib/addons.py:55-59 | every document cut from a content is nonempty and has no white space at its ends |
| AddonContent.SplittingLoses | scripts/lib/addons.py:55-59 | splitting loses separator lines and white space and nothing else |
| AddonContent.PackedReadsBackIff | scripts/lib/addons.py:55-95 | every packed source reads back as its documents if and only if no document contains a separator line |
| AddonContent.IndentedSeparatorIsLost | scripts/lib/addons.py:55-59 | a content whose only document is lost when it is read back |

## Left out

- Kubernetes, Docker, Azure and HTTP clients, watch streams, health endpoints and tracing: present only as API-server steps.
- JSON parsing, hashing and address parsing: parameters, because only their results matter to the protocols.
- The lease-manager library, tokio timers and tokio notifications: only their stated contracts.
- Weak-memory effects of acquire and release orderings: the gate is modelled under sequential consistency.
- The reconcilers that create Tenants and databases: residue appears through one step that requires the Lease.
- Builders of desired objects, RBAC, CRD printing, conditions, error classification, kubeconfig checks: they would add easy members.
- SHA-256 of add-on content.
- The non-network checks of the foundation.
- The comparison of Azure catalog slots with networks recorded in other Tenants' statuses: it only refuses further claims.
- `set_finalizer` and the provider owner validators of the ownership module: single conditional writes and branch lists.
- Permission failures, extended-attribute errors and concurrent renames in local directories.
- CatalogRuns.CatalogServer.DrainPass: namespace and role cleanup after the catalog is gone is not part of it, and the owner references are one flag.
- TenantStatus.TenantApi.MutateStatus: other status fields are one opaque value, and the times of condition transitions are not kept.
- Teardown.Finalizer.Reconcile: residue is read in one instant (`SlotReuse` reads it piece by piece), and validation of ownership markers, kubeconfig and storage labels is one flag; a failed validation makes the pass do nothing.
