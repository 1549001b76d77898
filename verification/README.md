# Verified models of Kata Containers

A Dafny model of the parts of Kata Containers whose correctness is hardest to see by reading:
the guest agent's concurrent protocols and file mirroring, and the resource bookkeeping of the
Dragonball VMM. Each file is one component.

| file | component |
|---|---|
| `IntervalTree.dfy` | the AVL interval tree behind every resource pool, with its rotations and panics |
| `ResourcePool.dfy` | allocation and release on that tree, refined to first fit over a plain set of identifiers |
| `ResourceManager.dfy` | the six pools, device requests with rollback, and runs of calls |
| `AddressSpace.dfy` | the NUMA memory plan, the claims made for it and the base-to-slot map |
| `Preallocation.dfy` | the split of a mapping's pages among pre-allocation threads |
| `Watcher.dfy` | mirroring a source tree by polling: index, walk with limits, removal, update |
| `WatcherRuns.dfy` | rounds of polling with bind-mount fallback, and updates lost by a failed walk |
| `WatchedStorage.dfy` | the watched storage, changed in place |
| `WaitProcess.dfy` | waiting for a process: callers racing with the reaper and each other |
| `Uevents.dfy` | waiting for device events, with timeouts |
| `SandboxStorage.dfy` | reference-counted storages and the removal of a container |
| `CopyFile.dfy` | files copied in chunks through a temporary file |
| `ConfigInfos.dfy` | configuration registries with a conflict check between their items |
| `PciPath.dfy` | PCI slots, addresses and paths as text |

`dafny verify dfyconfig.toml` checks the whole project.

State that the source changes in place is a class whose methods are proved against functions
on values; the properties are lemmas about those functions. The two protocols are transition
systems whose steps are the critical sections under the sandbox lock, and their theorems
quantify over every reachable state. Errors, panics, wrap-around and casts of the source are
part of the functions. What the code cannot decide by itself is a parameter: the order in which
a hash map yields its keys, whether a bind mount or a device clean-up succeeds, what a matcher
accepts, when two configurations conflict.

## Where code and expectation differ

Each point has a lemma for the exact condition and, where the condition can fail, a lemma for
the failing family.

- `allocate_device_resources` is all-or-nothing exactly when no grant made before the failure
  ends with the last port or the last address of guest memory or has more than one slot
  (`RollbackExactly`). Port 0xFFFF cannot be handed back (`TopPortLeaks`): the
  range check of `free_pio_address` refuses it. Neither can the last address of guest memory
  (`TopMemoryLeaks`), for the same reason, nor a grant of two or more KVM slots
  (`WideSlotRollbackPanics`): `free_kvm_mem_slot` names one slot, and the tree panics. A freshly
  built manager reaches all three.
- Allocation is first fit over the free identifiers exactly when no two free entries of a pool
  touch (`FirstFitExactly`). Every run keeps it so, except in the MMIO pool of a layout whose
  low and high windows touch (`FirstFitForEveryRunExactly`, `SeamRequestRefused`).
- The x86 reservation at the top of the low MMIO window is one address low
  (`ReservationIsOneLow`).
- NUMA sizes from 2^44 MiB on lose their high bits in `checked_shl` (`ShiftExact`).
- From a mirrored state, a successful scan mirrors the next source exactly when surviving paths
  keep a replaceable kind and changed content has a later time (`MirrorsExactlyWhen`). Dangling
  links do not break this: `exists()` drops them from the index, and the walk adds them back. A
  failed walk without a bind mount does (`FailedWalkLosesUpdates`); `ScanMirrorsExactly` says
  when a later scan repairs it.
- `exists()` follows a link anywhere in a path, so a path that now lies behind a link stays
  indexed although the walk no longer meets it. Such stale paths count against the limit of
  sixteen (`ScanOkExactly`, `SmallSourceIsOk`): a small source is refused after a directory was
  renamed and a link put in its place (`MovedDirectoryRefused`).
- The memory hot-add test of `process_add` joins the device path with a second slash, so a path
  with a slash in front, as the kernel writes it, is never taken for memory (`HotAddExactly`).
- The timeout branch of `wait_for_uevent` panics exactly when an event was sent between the
  timer and the lock (`TimeoutPanicsExactlyWhenSent`).
- A device registry stays conflict-free exactly when the conflict check is symmetric between
  different ids (`DeviceFreeExactly`). The checks of `virtio_net_dev_mgr.rs:186`,
  `vhost_net_dev_mgr.rs:116` and `fs_dev_mgr.rs:231` are not; for network devices
  `NetOrderMatters` says which pairs get listed in conflict. Without symmetry, and for
  `vhost_user_net_dev_mgr.rs:98`, whose check accepts everything, the registry is still a map by
  id (`DeviceRunRefines`).
- The prefix test of `do_copy_file` is on the path as written; what a request touches is below
  the base directory exactly when the resolved path is (`InsideExactly`).
- A file whose name already ends in `.tmp` is lost by its own last chunk (`TransferPublishes`),
  and two targets that differ only in their extension corrupt each other when their chunks
  interleave (`SharedTemporaryCorrupts`).

## Model

| member | source | states |
|---|---|---|
| `IntervalTrees.EntriesDisjoint` | src/dragonball/dbs_allocator/src/interval_tree.rs:330-362 | two entries of one tree either are the same or do not overlap |
| `IntervalTrees.UpdatedWithin` | src/dragonball/dbs_allocator/src/interval_tree.rs:420-475 | rebalancing by any of the rotations keeps the search order and the bounds of the tree |
| `IntervalTrees.Insert` | src/dragonball/dbs_allocator/src/interval_tree.rs:330-362 | insertion keeps cached heights and maximum keys right and sibling heights within one of each other |
| `IntervalTrees.InsertAdds` | src/dragonball/dbs_allocator/src/interval_tree.rs:330-362 | insertion adds exactly one free entry to the set of entries, whatever rotations follow |
| `IntervalTrees.InsertPanics` | src/dragonball/dbs_allocator/src/interval_tree.rs:330-362 | insertion panics if and only if the range meets some entry, although the code looks only at one search path |
| `IntervalTrees.InsertWithin` | src/dragonball/dbs_allocator/src/interval_tree.rs:330-362 | insertion keeps the tree ordered |
| `IntervalTrees.Delete` | src/dragonball/dbs_allocator/src/interval_tree.rs:395-418 | so does deletion |
| `IntervalTrees.DeleteRemoves` | src/dragonball/dbs_allocator/src/interval_tree.rs:395-418 | deletion removes exactly the entry with this range and nothing else |
| `IntervalTrees.DeleteRootWithin` | src/dragonball/dbs_allocator/src/interval_tree.rs:477-507 | joining the two subtrees of a deleted root keeps the order |
| `IntervalTrees.SupersetFinds` | src/dragonball/dbs_allocator/src/interval_tree.rs:298-311 | the superset search finds the covering entry if and only if there is one |
| `IntervalTrees.UpdateSetsState` | src/dragonball/dbs_allocator/src/interval_tree.rs:364-393 | update of a held entry changes its state only, and panics exactly for the forbidden state changes |
| `ResourcePools.AlignToIsLeast` | src/dragonball/dbs_allocator/src/interval_tree.rs:151-166 | `align_to` yields the least aligned start in the range, and `None` exactly when there is none; the overflow check loses no candidate |
| `ResourcePools.CandidateIsLeast` | src/dragonball/dbs_allocator/src/interval_tree.rs:532-550 | the candidate inside one free entry is the least base that satisfies bounds, size and alignment |
| `ResourcePools.FirstMatchIsLowest` | src/dragonball/dbs_allocator/src/interval_tree.rs:509-530 | the in-order search finds the lowest entry that can serve the request |
| `ResourcePools.SplitSpec` | src/dragonball/dbs_allocator/src/interval_tree.rs:850-899 | a split reaches none of its insertion panics and replaces exactly one entry by its pieces |
| `ResourcePools.AllocateGrants` | src/dragonball/dbs_allocator/src/interval_tree.rs:850-899 | a grant meets size, bounds and alignment, was free, takes exactly its own identifiers out of the free set, and reaches no panic of the split or of the marking |
| `ResourcePools.AllocateIsFirstFit` | src/dragonball/dbs_allocator/src/interval_tree.rs:850-899 | in a tree whose free entries do not touch, a suitable run of free identifiers is never refused and the grant starts no higher |
| `ResourcePools.FirstFitExactly` | src/dragonball/dbs_allocator/src/interval_tree.rs:850-899 | allocation is first fit over the plain set of free identifiers if and only if no two free entries touch |
| `ResourcePools.SeamIsRefused` | src/dragonball/dbs_allocator/src/interval_tree.rs:509-550 | a request across two touching free entries is refused although both identifiers are free |
| `ResourcePools.ReleasePanicsExactly` | src/dragonball/dbs_allocator/src/interval_tree.rs:901-935 | freeing a range whose merged range is proper panics exactly when it overlaps an entry other than its own |
| `ResourcePools.ReleaseReturns` | src/dragonball/dbs_allocator/src/interval_tree.rs:901-935 | freeing returns exactly the named range to the free set and merges it with both free neighbours |
| `ResourcePools.ReleaseGives` | src/dragonball/dbs_allocator/src/interval_tree.rs:901-935 | freeing a held range never panics, removes it from the held ranges and frees exactly it |
| `ResourcePools.GrantsKeepCover` | src/dragonball/dbs_allocator/src/interval_tree.rs:850-899 | a grant does not change what a pool consists of |
| `ResourcePools.GivesKeepCover` | src/dragonball/dbs_allocator/src/interval_tree.rs:901-935 | neither does a release |
| `ResourcePools.SameFreeSameGrant` | src/dragonball/dbs_allocator/src/interval_tree.rs:850-899 | two trees without touching free entries and with equal free sets answer every request alike, whatever their shapes |
| `ResourceManagers.NewIsManaged` | src/dragonball/src/resource_manager.rs:70-172 | each freshly built pool consists of exactly the identifiers the layout gives it |
| `ResourceManagers.NewPanicsExactly` | src/dragonball/src/resource_manager.rs:70-172 | the builder panics exactly when the x86 reservation does not fit or the two MMIO ranges meet |
| `ResourceManagers.MmioSeam` | src/dragonball/src/resource_manager.rs:97-120 | the MMIO pool is built without touching free entries exactly when its low and high windows do not touch |
| `ResourceManagers.FirstFitForEveryRunExactly` | src/dragonball/src/resource_manager.rs:70-420 | a pool is first fit after every run from a fresh manager if and only if the layout gives it no seam; only the MMIO pool can have one |
| `ResourceManagers.RunIsFirstFit` | src/dragonball/src/resource_manager.rs:218-573 | after every run from a fresh manager, device calls included, each pool without a seam is first fit |
| `ResourceManagers.SeamRequestRefused` | src/dragonball/src/resource_manager.rs:341-353 | the failing layouts: where the windows touch, a fresh manager refuses a request for two free addresses |
| `ResourceManagers.SameFreeSameAnswers` | src/dragonball/src/resource_manager.rs:218-420 | managers of one layout with equal free sets answer alike, whatever calls led to them |
| `ResourceManagers.MemoryMeetsMmioExactly` | src/dragonball/src/resource_manager.rs:97-146 | no address is both guest memory and MMIO, except for a low window of one address inside guest memory |
| `ResourceManagers.ReservationIsOneLow` | src/dragonball/src/resource_manager.rs:97-120 | the x86 reservation covers `[end - 64 MiB, end - 1]`, so the last address of the low window stays allocatable |
| `ResourceManagers.WantsIsServes` | src/dragonball/src/resource_manager.rs:426-545 | a request is turned into a constraint that admits exactly the ranges its own fields ask for: pool, size, bounds, alignment, fixed number |
| `ResourceManagers.AllocOneSpec` | src/dragonball/src/resource_manager.rs:218-420 | one request of any kind, by its own fields: a grant is a range of the right pool with the size, bounds, alignment or fixed number asked for, the resource names its kind, base and size, and exactly that range changes hands |
| `ResourceManagers.AllocAllSpec` | src/dragonball/src/resource_manager.rs:440-540 | the request loop grants a prefix of the requests, each answered by its own fields, pairwise apart |
| `ResourceManagers.FailsWhereNothingServes` | src/dragonball/src/resource_manager.rs:424-545 | it stops only where, in the state reached, no free range serves the next request, or that request names the shared interrupt |
| `ResourceManagers.FreeOneRefunds` | src/dragonball/src/resource_manager.rs:245-420 | handing back a refundable grant frees exactly it |
| `ResourceManagers.RefundableExactly` | src/dragonball/src/resource_manager.rs:245-420 | a grant can be handed back exactly when it does not end with the last port or the last address of guest memory and has one slot at most |
| `ResourceManagers.FreeAcceptsExactly` | src/dragonball/src/resource_manager.rs:245-420 | what the range checks of the free calls amount to, pool by pool |
| `ResourceManagers.FreeAllRefunds` | src/dragonball/src/resource_manager.rs:559-573 | handing back a list of refundable grants frees exactly those |
| `ResourceManagers.FreeAllStops` | src/dragonball/src/resource_manager.rs:559-573 | a grant that cannot be handed back stops the loop with its range still in use, or panics |
| `ResourceManagers.WideSlotPanics` | src/dragonball/src/resource_manager.rs:415-420 | freeing the first slot of a grant of two or more slots panics |
| `ResourceManagers.RollbackExactly` | src/dragonball/src/resource_manager.rs:424-573 | a failed call leaves every pool as it was, with the plain error, if and only if no grant made before the failure ends with the last port or the last address of guest memory or has more than one slot |
| `ResourceManagers.DeviceCallKeepsManaged` | src/dragonball/src/resource_manager.rs:424-573 | a device call that does not panic leaves each pool made of the same identifiers |
| `ResourceManagers.SafeRequestsRollBack` | src/dragonball/src/resource_manager.rs:424-573 | a condition on the requests alone that makes the call all-or-nothing |
| `ResourceManagers.GrantedWhenFree` | src/dragonball/src/resource_manager.rs:218-420 | a request that some free range serves, by its own fields, is granted |
| `ResourceManagers.WideSlotRollbackPanics` | src/dragonball/src/resource_manager.rs:424-573 | the failing family for KVM slots: wherever two or more slots in a row are free, taking them and failing later panics |
| `ResourceManagers.TopPortLeaks` | src/dragonball/src/resource_manager.rs:328-338 | the failing family for ports: wherever port 0xFFFF is free, taking it and failing later leaves it in use |
| `ResourceManagers.TopMemoryLeaks` | src/dragonball/src/resource_manager.rs:381-394 | the failing family for memory: wherever the last address of guest memory is free, taking it and failing later leaves it in use |
| `ResourceManagers.FreshWideSlotPanics` | src/dragonball/src/resource_manager.rs:155-160 | a freshly built manager with two slots or more reaches the first family |
| `ResourceManagers.FreshTopPortLeaks` | src/dragonball/src/resource_manager.rs:88-95 | every freshly built manager reaches the second |
| `ResourceManagers.FreshTopMemoryLeaks` | src/dragonball/src/resource_manager.rs:132-146 | a freshly built manager whose memory ends above the hole, or has none, reaches the third |
| `ResourceManagers.RunConserves` | src/dragonball/src/resource_manager.rs:218-420 | over every run of allocations, frees of held ranges and device calls, failed ones included, up to a panic, held plus free is the initial set of each pool, never both, and live ranges are pairwise disjoint |
| `ResourceManagers.HeldDisjoint` | src/dragonball/src/resource_manager.rs:218-420 | live ranges of one pool are pairwise disjoint |
| `ResourceManagers.ResourceManager.constructor` | src/dragonball/src/resource_manager.rs:185-203 | a new manager holds the freshly built pools |
| `ResourceManagers.ResourceManager.AllocateFrom` | src/dragonball/src/resource_manager.rs:265-394 | one allocation changes one pool alone: in a pool without a seam it takes the lowest suitable run of free identifiers, or there is none |
| `ResourceManagers.ResourceManager.AllocateOne` | src/dragonball/src/resource_manager.rs:430-552 | a grant answers its request and takes exactly its range; a refusal changes nothing and means that nothing free suits, or that the shared interrupt was asked for by number |
| `ResourceManagers.ResourceManager.FreeDeviceResources` | src/dragonball/src/resource_manager.rs:559-573 | the free loop does what freeing one after the other does, up to the first refusal |
| `ResourceManagers.ResourceManager.GrantAll` | src/dragonball/src/resource_manager.rs:440-548 | the request loop stops at the first refusal with the specified grants and pools |
| `ResourceManagers.ResourceManager.AllocateDeviceResources` | src/dragonball/src/resource_manager.rs:424-556 | request loop and rollback compute the specified outcome, and unless they panic every pool still consists of its identifiers |
| `AddressSpaces.PlanSucceeds` | src/dragonball/src/address_space_manager.rs:268-314 | planning fails exactly when it starts inside the MMIO hole or runs past the 64-bit space; in particular neither `checked_sub` can fail elsewhere |
| `AddressSpaces.PlanOneSpec` | src/dragonball/src/address_space_manager.rs:268-314 | one NUMA entry gives at most two regions, in order, off the hole, worth exactly its bytes |
| `AddressSpaces.PlanIsWellPlanned` | src/dragonball/src/address_space_manager.rs:268-314 | the planned regions ascend without overlap, avoid the hole, sum to the requested bytes of each node, and the hole is split at most once |
| `AddressSpaces.ShiftExact` | src/dragonball/src/address_space_manager.rs:275-278 | the conversion from MiB is exact exactly below 2^44 MiB |
| `AddressSpaces.MemClaim` | src/dragonball/src/resource_manager.rs:368-394 | the fixed-address claim of a planned region succeeds exactly when the region ends inside guest memory |
| `AddressSpaces.SlotClaim` | src/dragonball/src/resource_manager.rs:399-413 | after `i` claims the next one gets slot `i`, and fails exactly when that slot does not exist |
| `AddressSpaces.ClaimsFrom` | src/dragonball/src/address_space_manager.rs:316-333 | the claims from any region on succeed exactly when all these regions fit, and record slot `i` for region `i` |
| `AddressSpaces.ClaimErrors` | src/dragonball/src/address_space_manager.rs:316-333 | a slot claim fails only when slots run out, a memory claim only for a region that ends outside guest memory |
| `AddressSpaces.FreshClaims` | src/dragonball/src/address_space_manager.rs:262-333 | from a fresh manager: success exactly when every region ends inside guest memory and slots suffice, and then bases and slots are one-to-one |
| `AddressSpaces.AddressSpaceMgr.CreateRegion` | src/dragonball/src/address_space_manager.rs:355-388 | a created region is appended and listed under its guest node |
| `AddressSpaces.AddressSpaceMgr.PlanEntry` | src/dragonball/src/address_space_manager.rs:268-314 | one round of the planning loop |
| `AddressSpaces.AddressSpaceMgr.PlanRegions` | src/dragonball/src/address_space_manager.rs:268-314 | the planning loop computes the plan |
| `AddressSpaces.AddressSpaceMgr.ClaimRegion` | src/dragonball/src/address_space_manager.rs:318-333 | the two claims of one region, in order |
| `AddressSpaces.AddressSpaceMgr.CreateAddressSpace` | src/dragonball/src/address_space_manager.rs:262-353 | planning followed by the claim loop computes regions and base-to-slot map, and on success lists every region under its node, or returns the error |
| `Preallocation.Threads` | src/dragonball/src/address_space_manager.rs:563-566 | at least one and at most sixteen threads |
| `Preallocation.ThreadsBySize` | src/dragonball/src/address_space_manager.rs:563-566 | one thread for every 4 GiB begun, up to sixteen |
| `Preallocation.SlicesPartition` | src/dragonball/src/address_space_manager.rs:560-576 | every 4 KiB page of the mapping is in the slice of exactly one thread |
| `Preallocation.SlicesBalanced` | src/dragonball/src/address_space_manager.rs:568-576 | every thread but the last has the same number of pages, and the last fewer than a page per thread more |
| `Preallocation.TouchesCover` | src/dragonball/src/address_space_manager.rs:576-597 | the slices together touch each page once and nothing else |
| `Preallocation.TouchedInside` | src/dragonball/src/address_space_manager.rs:576-597 | every touched address and the rest of its page lie inside the mapping |
| `Preallocation.Preallocate` | src/dragonball/src/address_space_manager.rs:557-609 | every 4 KiB page of the mapping is touched by exactly one thread, exactly once, at its start, and no other address is |
| `Watchers.TargetPathBijective` | src/agent/src/watcher.rs:309-323 | the path mapping is a bijection between the trees under the two mount points, and fails exactly outside the source |
| `Watchers.ScanTreeIsFold` | src/agent/src/watcher.rs:233-307 | the recursive walk succeeds exactly when the index never exceeds sixteen at a file or link and the bytes are at most one mebibyte; then it returns the exact total and equals a plain fold over the visited paths |
| `Watchers.ScanTreeFails` | src/agent/src/watcher.rs:265-304 | a failed walk gives the right reason: too many paths indexed, or too many bytes in all |
| `Watchers.WalkIsSnapshot` | src/agent/src/watcher.rs:233-307 | a walk visits each path once, a directory before its entries |
| `Watchers.VisitOfTree` | src/agent/src/watcher.rs:233-307 | each visit has the time of what the tree holds at its path, and sees behind a link what is there |
| `Watchers.CopiesTheTree` | src/agent/src/watcher.rs:88-178 | a copy of the visits is the source tree itself: the same paths, contents, link texts and directories |
| `Watchers.RemovalInAnyOrder` | src/agent/src/watcher.rs:195-212 | removing vanished paths in any order leaves exactly the rest of the target |
| `Watchers.RemovalTakesBelow` | src/agent/src/watcher.rs:195-212 | nothing stays below a removed directory, indexed or not |
| `Watchers.GoneIsClosed` | src/agent/src/watcher.rs:185-193 | what vanished is closed below, so removing a directory removes nothing that is to stay |
| `Watchers.AboveExists` | src/agent/src/watcher.rs:188-188 | whatever exists, visited or behind a link, lies in directories or links that exist |
| `Watchers.BehindLink` | src/agent/src/watcher.rs:188-188 | a path that exists without being visited is behind a visited link that resolves |
| `Watchers.UpdatesCopyExactly` | src/agent/src/watcher.rs:121-178 | from any target and any index, the update list makes a full copy if and only if every unchanged file is there as it should be, every changed one is missing or replaceable, every directory is there or has a changed path at or below it, and nothing else is in the target |
| `Watchers.UpdateAllAt` | src/agent/src/watcher.rs:121-178 | what the update list puts at each path |
| `Watchers.UpdateAllKeeps` | src/agent/src/watcher.rs:88-178 | what is at a path changes only by a copy to that very path that can replace it |
| `Watchers.IndexAfter` | src/agent/src/watcher.rs:185-279 | after the walk the index lists exactly the visited paths if and only if no path behind a link was kept |
| `Watchers.ScanMirrorsExactly` | src/agent/src/watcher.rs:180-230 | the same for a whole scan, from any state, after its removals; the index is exact as well if and only if it kept no path that exists only behind a link |
| `Watchers.MirrorsExactlyWhen` | src/agent/src/watcher.rs:180-230 | from a mirrored state, a successful scan leaves target and index mirroring the new source if and only if every surviving path is unchanged or has a later time and a kind that the copy can replace; whatever the removal order |
| `Watchers.RefreshedByKind` | src/agent/src/watcher.rs:88-230 | in terms of kinds alone: paths that are unchanged, or later and a file that was a file or a link that was no directory, make a successful scan copy the source |
| `Watchers.ScanCounts` | src/agent/src/watcher.rs:222-229 | a successful scan returns the number of paths that are new or changed |
| `Watchers.FailedScanCleans` | src/agent/src/watcher.rs:185-220 | a failed scan has removed what vanished from a mirrored target and copied nothing |
| `WatcherRuns.EveryRunShowsTheSource` | src/agent/src/watcher.rs:364-419 | over every run of checks, with refreshable changes while watched and bind mounts succeeding where the limits are exceeded, the target shows the source of the last round, and index and target track it |
| `WatcherRuns.ShowsTheTree` | src/agent/src/watcher.rs:364-419 | to show the source is to hold that very tree, or to be a bind mount of it |
| `WatcherRuns.EveryRunHoldsTheTree` | src/agent/src/watcher.rs:364-419 | after every good run from a fresh storage the target is the source tree of the last round, unless bind-mounted |
| `WatcherRuns.RunShowsExactly` | src/agent/src/watcher.rs:364-419 | after any rounds at all, failed walks and mounts included, a round whose scan succeeds shows its source if and only if all comes out right from the state those rounds left, and tracks it if and only if moreover no path behind a link stays indexed |
| `WatcherRuns.InStepUnique` | src/agent/src/watcher.rs:180-230 | a mirrored source determines index and target, so the removal order leaves no trace |
| `WatcherRuns.LostStaysLost` | src/agent/src/watcher.rs:180-230 | an update the index claims was made, but was not, survives every scan that meets the same file, successful or not |
| `WatcherRuns.FailedWalkLosesUpdates` | src/agent/src/watcher.rs:214-227 | after a failed walk without a bind mount, a file it indexed whose target is missing or stale stays so through all later rounds until it changes again, and no such round shows the source |
| `WatcherRuns.LostUpdateExample` | src/agent/src/watcher.rs:214-227 | a concrete family of such runs: a small file listed before one over the limit |
| `Watchers.OkMeansWithinLimits` | src/agent/src/watcher.rs:233-307 | a successful scan means at most one mebibyte and at most sixteen files and links |
| `Watchers.CountsOkExactly` | src/agent/src/watcher.rs:265-271 | the checks of the index size along the walk come down to one count of paths, at the last file or link |
| `Watchers.ScanOkExactly` | src/agent/src/watcher.rs:185-307 | a scan succeeds if and only if the source is within one mebibyte and, up to its last file or link, visited and retained paths together are at most sixteen |
| `Watchers.SmallSourceIsOk` | src/agent/src/watcher.rs:185-307 | within one mebibyte, a scan succeeds if the entries, directories counted, and the stale indexed paths are together at most sixteen, and fails if the files and links, of which there are some, and the stale paths are together more |
| `WatcherRuns.MovedDirectoryRefused` | src/agent/src/watcher.rs:185-307 | the failing family: a mirrored directory of eight to thirteen files is renamed and a link put in its place; the new source has at most sixteen entries, a fresh storage takes it, and the next scan refuses it |
| `Watchers.RunningSumBounded` | src/agent/src/watcher.rs:283-295 | whatever was walked without failure adds up to at most sixteen mebibytes |
| `WatchedStorages.WatchedStorage.constructor` | src/agent/src/watcher.rs:111-119 | a new storage has an empty index and an empty target directory |
| `WatchedStorages.WatchedStorage.ScanPath` | src/agent/src/watcher.rs:233-307 | the recursion changes the index and the update list as specified |
| `WatchedStorages.WatchedStorage.ScanEntries` | src/agent/src/watcher.rs:283-305 | the loop over a directory does the same with a 64-bit sum that never overflows |
| `WatchedStorages.WatchedStorage.Retain` | src/agent/src/watcher.rs:185-193 | the index keeps exactly what exists and the list names exactly what does not |
| `WatchedStorages.WatchedStorage.RemoveFromTarget` | src/agent/src/watcher.rs:195-212 | the deletion loop |
| `WatchedStorages.WatchedStorage.UpdateTarget` | src/agent/src/watcher.rs:121-178 | one update of the target |
| `WatchedStorages.WatchedStorage.UpdateTargets` | src/agent/src/watcher.rs:222-227 | the update loop |
| `WatchedStorages.WatchedStorage.Scan` | src/agent/src/watcher.rs:180-230 | one scan computes the specified state and result for some removal order of exactly the vanished paths |
| `WatchedStorages.WatchedStorage.Check` | src/agent/src/watcher.rs:364-419 | one check of one storage |
| `WaitProcesses.BroadcastReaches` | src/agent/src/rpc.rs:650-654 | the broadcast adds one code to the channel of each registered caller still there, and to no other |
| `WaitProcesses.StepKeeps` | src/agent/src/rpc.rs:590-658 | every critical section keeps the protocol invariant |
| `WaitProcesses.OkMeansRecorded` | src/agent/src/rpc.rs:605-658 | over every interleaving, a call that returns Ok returns the code the reaper recorded, and the entry was removed exactly once |
| `WaitProcesses.RegisterNames` | src/agent/src/sandbox.rs:315-335 | a call waits for the process of the exec id it names, or for the first process of the container when the id is empty, and is rejected if and only if there is none |
| `WaitProcesses.OkIsOfNamedProcess` | src/agent/src/rpc.rs:590-658 | over every run, a call that returns Ok returns the code with which the reaper collected the process the request named when it came in |
| `WaitProcesses.FirstByRun` | src/agent/src/sandbox.rs:325-331 | the first process of a container is the one last started as such |
| `WaitProcesses.EntryByRun` | src/agent/src/sandbox.rs:333-334 | the entry of an exec id is a process that was started under it |
| `WaitProcesses.FinishReturns` | src/agent/src/rpc.rs:625-658 | a call that gets the lock after the signal returns, with an error if and only if its container is gone, or its process is gone and no code was sent to it |
| `WaitProcesses.NobodyBlocks` | src/agent/src/rpc.rs:630-641 | no caller waits on an empty channel with a live sender while it holds the sandbox lock |
| `WaitProcesses.ChannelsNeverFill` | src/agent/src/rpc.rs:606-654 | a channel holds at most one code, and is empty whenever a broadcast reaches it |
| `WaitProcesses.GoneMeansOneCode` | src/agent/src/rpc.rs:630-641 | while the caller's own container is kept and the process entry is gone, a registered unfinished caller has exactly one code, the recorded one, and finishing returns it |
| `WaitProcesses.GoneExactlyOnce` | src/agent/src/rpc.rs:656-656 | in a container that was kept, a process is either live and never removed, or gone and removed exactly once |
| `WaitProcesses.ReapedMeansFinish` | src/agent/src/signal.rs:60-83 | after the reaper recorded an exit every registered caller can finish, and, if its own container was kept, gets that code |
| `WaitProcesses.Sandbox.constructor` | src/agent/src/sandbox.rs:142-174 | a new sandbox is in the initial state |
| `WaitProcesses.Sandbox.Search` | src/agent/src/sandbox.rs:303-313 | the search finds a process with this pid exactly if there is one |
| `WaitProcesses.Sandbox.HandleExit` | src/agent/src/signal.rs:55-83 | the reaper step: exit code set, signal given, nothing else changed |
| `WaitProcesses.Sandbox.RegisterWaiter` | src/agent/src/rpc.rs:605-617 | the first critical section, with both lookups and the error path |
| `WaitProcesses.Sandbox.SendAll` | src/agent/src/rpc.rs:650-654 | the broadcast loop; no send finds a full channel |
| `WaitProcesses.Sandbox.FinishWaiter` | src/agent/src/rpc.rs:625-658 | the second critical section |
| `Uevents.NotifyAt` | src/agent/src/uevent.rs:87-94 | a matching slot delivers to its own caller, once, and to nobody else |
| `Uevents.StepKeeps` | src/agent/src/uevent.rs:66-160 | every critical section keeps the invariant |
| `Uevents.HotAddExactly` | src/agent/src/uevent.rs:68-69 | an "add" is taken for memory exactly for a path without a slash in front; one as the kernel writes it never is |
| `Uevents.RecordedExactly` | src/agent/src/uevent.rs:81-112 | over every run the map holds, for each path, the latest "add" of anything but memory that no "remove" followed, and nothing else |
| `Uevents.RecordedIsFound` | src/agent/src/uevent.rs:121-127 | while the latest event about a path is a matching "add", a caller returns it at once and never registers |
| `Uevents.NoLostWakeUp` | src/agent/src/uevent.rs:81-137 | over every interleaving, no live watcher matches a recorded event, and a waiting caller that one matches has been sent an event |
| `Uevents.AddWakesEveryMatch` | src/agent/src/uevent.rs:81-95 | an "add" wakes every waiting caller whose matcher it satisfies, unless an earlier event already did |
| `Uevents.ReturnedFits` | src/agent/src/uevent.rs:122-160 | every event returned matches and came from an "add" |
| `Uevents.ReturnedWasProcessed` | src/agent/src/uevent.rs:122-160 | an event is returned only after the run processed it |
| `Uevents.WatchersWait` | src/agent/src/uevent.rs:136-155 | a watcher stays only while its caller waits, or after that caller went away |
| `Uevents.SlotsNeverReused` | src/agent/src/uevent.rs:136-148 | slots never move or refill: each goes from filled to empty at most once |
| `Uevents.TimeoutPanicsExactlyWhenSent` | src/agent/src/uevent.rs:144-155 | at a timeout the slot is the own registration, or empty because a matching event was sent to this caller; `unwrap` panics in exactly the second case |
| `Uevents.TimeoutCanPanic` | src/agent/src/uevent.rs:144-155 | such a run exists for every matcher and every event it accepts |
| `Uevents.Sandbox.constructor` | src/agent/src/sandbox.rs:142-174 | a new sandbox has no events and no watchers |
| `Uevents.Sandbox.NotifyWatchers` | src/agent/src/uevent.rs:87-94 | the notification loop empties exactly the matching slots |
| `Uevents.Sandbox.HandleUevent` | src/agent/src/uevent.rs:66-112 | one event, with the memory hot-add case and ignored actions |
| `Uevents.Sandbox.WaitFor` | src/agent/src/uevent.rs:115-138 | lookup and registration in one critical section |
| `Uevents.Sandbox.Expire` | src/agent/src/uevent.rs:146-155 | the timeout branch and whether it panics |
| `SandboxStorages.TableFollowsCalls` | src/agent/src/sandbox.rs:181-244 | over every legal run, presence, count, flag and device of an entry and the devices cleaned up at its path are what the calls alone determine: each past non-shared life is cleaned up once, with its latest device |
| `SandboxStorages.CountsAreUsers` | src/agent/src/sandbox.rs:181-244 | counts are at least one; adds minus removes for a non-shared entry, that or one more for a shared one |
| `SandboxStorages.CountOneMeansNew` | src/agent/src/sandbox.rs:181-194 | an add returns count one exactly when it created the entry |
| `SandboxStorages.AddThenRemove` | src/agent/src/sandbox.rs:181-244 | for every 32-bit count, adding and removing a present path cancel out, unless the count was zero |
| `SandboxStorages.SharedNeverDeleted` | src/agent/src/sandbox.rs:226-244 | a shared entry stays through every further call and its device is never cleaned up |
| `SandboxStorages.RemoveEachShared` | src/agent/src/rpc.rs:2146-2155 | a shared path loses as many counts as it is listed, down to one, keeps its device and is never cleaned up |
| `SandboxStorages.RemoveContainerBalances` | src/agent/src/rpc.rs:2133-2162 | if counts equal occurrences in all lists, they do so for the remaining lists after a container is removed, duplicates included |
| `SandboxStorages.RemoveContainerDrops` | src/agent/src/rpc.rs:2133-2162 | a path that no other list holds is dropped and its device cleaned up once |
| `SandboxStorages.Sandbox.constructor` | src/agent/src/sandbox.rs:142-174 | a new sandbox has no storages |
| `SandboxStorages.Sandbox.AddSandboxStorage` | src/agent/src/sandbox.rs:181-194 | the handle returned shares its counter with the entry |
| `SandboxStorages.Sandbox.UpdateSandboxStorage` | src/agent/src/sandbox.rs:198-215 | the counter object survives the replacement of the device, which is returned |
| `SandboxStorages.Sandbox.RemoveSandboxStorage` | src/agent/src/sandbox.rs:226-244 | the count drops, or a shared count is reset, or the entry is deleted with or without a failed clean-up |
| `SandboxStorages.Sandbox.HeldStorages` | src/agent/src/rpc.rs:2136-2144 | the first loop collects the storages among the mounts, duplicates included |
| `SandboxStorages.Sandbox.RemoveStorages` | src/agent/src/rpc.rs:2146-2155 | the second loop goes on after a failure |
| `SandboxStorages.Sandbox.RemoveContainerResources` | src/agent/src/rpc.rs:2133-2162 | both loops and the removal of the list |
| `CopyFiles.TmpNameStable` | src/agent/src/rpc.rs:2343-2344 | a temporary name is its own temporary name |
| `CopyFiles.ExtensionsShare` | src/agent/src/rpc.rs:2343-2344 | names that differ only in their extension share a temporary name |
| `CopyFiles.PlainNames` | src/agent/src/rpc.rs:2343-2344 | a name without an extension, or with nothing before its only dot, keeps all of itself |
| `CopyFiles.DifferentTemporaries` | src/agent/src/rpc.rs:2343-2344 | resolved targets with different temporary files, neither its own, touch no common file |
| `CopyFiles.TmpResolves` | src/agent/src/rpc.rs:2343-2344 | the temporary name formed on the path as written is the temporary file of the file the path leads to |
| `CopyFiles.ResolveParent` | src/agent/src/rpc.rs:2259-2267 | a parent component undoes the one before it, and the root is its own parent |
| `CopyFiles.OutsideFails` | src/agent/src/rpc.rs:2261-2267 | a request outside the base directory, or for a parent directory, fails and changes nothing |
| `CopyFiles.InsideExactly` | src/agent/src/rpc.rs:2261-2267 | everything an accepted request touches is below the base directory if and only if its path resolves to there; a path without parent components does, unless it is the base itself |
| `CopyFiles.StaysInside` | src/agent/src/rpc.rs:2258-2379 | a request whose path resolves to below the base directory changes nothing outside it |
| `CopyFiles.WriteAtBytes` | src/agent/src/rpc.rs:2352-2352 | a write puts its data at the offset, zeros into a gap, and keeps every other byte |
| `CopyFiles.TransferIsInvisible` | src/agent/src/rpc.rs:2346-2357 | before the last chunk nothing but the temporary file changed, whatever it held before |
| `CopyFiles.TransferPublishes` | src/agent/src/rpc.rs:2343-2378 | a complete in-order transfer makes the target exactly the chunks, if and only if the target is not its own temporary file; otherwise the last chunk removes the file and fails; nothing stays below a directory it replaces |
| `CopyFiles.WrittenTransferPublishes` | src/agent/src/rpc.rs:2258-2379 | the same from any written path under the base directory, for the file the path leads to |
| `CopyFiles.FailsExactly` | src/agent/src/rpc.rs:2343-2378 | a request fails exactly when a directory is in the way of the temporary file, data comes with a negative offset, or the file is complete and its own temporary file; what the first two leave behind |
| `CopyFiles.EmptyFilePublishes` | src/agent/src/rpc.rs:2343-2378 | one empty request publishes an empty file |
| `CopyFiles.IndependentCommute` | src/agent/src/rpc.rs:2343-2378 | independent requests commute and do not change each other's results |
| `CopyFiles.InterleavingDoesNotMatter` | src/agent/src/rpc.rs:2343-2378 | any interleaving of two independent transfers ends as one after the other |
| `CopyFiles.SharedTemporaryCorrupts` | src/agent/src/rpc.rs:2343-2378 | two targets with one temporary file: a transfer between the chunks of another replaces its first chunk by zeros |
| `CopyFiles.FileSystem.PublishFile` | src/agent/src/rpc.rs:2367-2376 | clearing the target and renaming |
| `CopyFiles.FileSystem.WriteChunk` | src/agent/src/rpc.rs:2343-2379 | opening, writing and publishing, with the error cases |
| `CopyFiles.FileSystem.DoCopyFile` | src/agent/src/rpc.rs:2258-2379 | the path test, then the regular-file branch with its error cases |
| `ConfigRegistry.LookupsAgree` | src/dragonball/src/config_manager.rs:127-139 | first-match and last-match lookup find the same item in a list of distinct ids |
| `ConfigRegistry.LookupsReadTheMap` | src/dragonball/src/config_manager.rs:127-139 | and that item is the entry of the map |
| `ConfigRegistry.FirstConflictIsFirst` | src/dragonball/src/config_manager.rs:67-110 | the error reported is that of the first item in conflict |
| `ConfigRegistry.StepRefines` | src/dragonball/src/config_manager.rs:67-118 | whatever the conflict check, each call does to the list what it does to a map by id, with the same verdict, and a failed call changes nothing; only a plain insertion needs the check to reject equal ids |
| `ConfigRegistry.RunRefines` | src/dragonball/src/config_manager.rs:67-139 | every run keeps the list equal to the map, and pairwise conflict-free if the check is symmetric between different ids |
| `ConfigRegistry.StepKeepsFree` | src/dragonball/src/config_manager.rs:67-118 | each call keeps the list conflict-free if the check is symmetric between different ids |
| `ConfigRegistry.SoundExactly` | src/dragonball/src/config_manager.rs:67-118 | every run from the empty list keeps it conflict-free with distinct ids if and only if the check is symmetric between different ids and rejects equal ones |
| `ConfigRegistry.DeviceUpsertRefines` | src/dragonball/src/config_manager.rs:225-246 | whatever the conflict check, configurations and error are those of the plain registry with the sides of the check swapped; the index of the new one is returned, and every device stays in place |
| `ConfigRegistry.DeviceRunRefines` | src/dragonball/src/config_manager.rs:225-255 | whatever the conflict check, every run of upserts and removals by index keeps the device list equal to a map by id, in which an upsert keeps the device and a removal drops exactly the id at the index; conflict-free if the check is symmetric between different ids |
| `ConfigRegistry.DeviceFreeExactly` | src/dragonball/src/config_manager.rs:225-255 | every run from the empty list keeps it conflict-free if and only if the check is symmetric between different ids |
| `ConfigRegistry.OneWayConflict` | src/dragonball/src/config_manager.rs:225-246 | a pair that conflicts in one direction only is listed in one order, in conflict, and refused in the other |
| `ConfigRegistry.NetOrderMatters` | src/dragonball/src/device_manager/virtio_net_dev_mgr.rs:186-205 | for two network devices the order of insertion matters if and only if they share an address on different host devices and one alone minds; both are then listed although they conflict |
| `ConfigRegistry.ConfigInfos.constructor` | src/dragonball/src/config_manager.rs:61-64 | a new registry is empty |
| `ConfigRegistry.ConfigInfos.GetIndexById` | src/dragonball/src/config_manager.rs:134-138 | the position loop |
| `ConfigRegistry.ConfigInfos.CheckAgainst` | src/dragonball/src/config_manager.rs:68-70 | the conflict loop returns the first error |
| `ConfigRegistry.ConfigInfos.Insert` | src/dragonball/src/config_manager.rs:67-74 | insertion changes the registry as specified, and keeps ids distinct and, with a symmetric check, the list conflict-free if the check rejects equal ids |
| `ConfigRegistry.ConfigInfos.Update` | src/dragonball/src/config_manager.rs:77-90 | update, which keeps both whatever the check does to equal ids |
| `ConfigRegistry.ConfigInfos.InsertOrUpdate` | src/dragonball/src/config_manager.rs:93-115 | insert or update, likewise |
| `ConfigRegistry.ConfigInfos.Remove` | src/dragonball/src/config_manager.rs:118-124 | removal takes the first item with the id, with distinct ids the one both lookups find |
| `ConfigRegistry.DeviceConfigInfos.constructor` | src/dragonball/src/config_manager.rs:218-222 | a new device registry is empty |
| `ConfigRegistry.DeviceConfigInfos.GetIndexById` | src/dragonball/src/config_manager.rs:286-290 | the position loop over device entries |
| `ConfigRegistry.DeviceConfigInfos.CheckAgainst` | src/dragonball/src/config_manager.rs:230-240 | the conflict loop in which the listed item checks the new one |
| `ConfigRegistry.DeviceConfigInfos.InsertOrUpdate` | src/dragonball/src/config_manager.rs:225-246 | insert or update of a device configuration keeps ids distinct, and the list conflict-free if the check is symmetric between different ids |
| `ConfigRegistry.DeviceConfigInfos.Remove` | src/dragonball/src/config_manager.rs:248-255 | removal by index keeps the rest in order |
| `PciPaths.PackedFields` | src/agent/src/pci.rs:54-63 | slot and function come back out of the packed byte |
| `PciPaths.FieldsPacked` | src/agent/src/pci.rs:54-63 | every byte is the packing of its two fields, which are in range |
| `PciPaths.BitsLayout` | src/agent/src/pci.rs:54-63 | the byte is eight times the slot plus the function |
| `PciPaths.FieldsMakeSlotFn` | src/agent/src/pci.rs:27-55 | the two numbers of a location make it again |
| `PciPaths.SlotFnHasFields` | src/agent/src/pci.rs:27-55 | `SlotFn::new` accepts exactly a slot below 32 and a function below 8, and keeps both |
| `PciPaths.HexRoundTrip` | src/agent/src/pci.rs:91-94 | a number printed with enough digits parses back, and holds no separator or sign |
| `PciPaths.DigitValueExactly` | src/agent/src/pci.rs:81-83 | a digit in either case, and nothing else, has its value |
| `PciPaths.SignedText` | src/agent/src/pci.rs:81-83 | one sign may stand in front of the digits; an unsigned number takes no minus |
| `PciPaths.SplitJoin` | src/agent/src/pci.rs:167-176 | splitting undoes joining |
| `PciPaths.JoinSplit` | src/agent/src/pci.rs:178-184 | joining undoes splitting |
| `PciPaths.SlotFnText` | src/agent/src/pci.rs:66-95 | a location parses back from its text |
| `PciPaths.SlotFnShape` | src/agent/src/pci.rs:91-94 | the text is two digits, a dot and one digit |
| `PciPaths.SlotFnExactly` | src/agent/src/pci.rs:66-89 | a string names a slot and function exactly when it is these two numbers with one dot between them, or the slot alone and function zero |
| `PciPaths.BareSlotText` | src/agent/src/pci.rs:82-86 | a part without a dot means function zero |
| `PciPaths.PathRoundTrip` | src/agent/src/pci.rs:144-184 | every non-empty path parses back from its text to itself |
| `PciPaths.CanonicalText` | src/agent/src/pci.rs:144-184 | every accepted string names a non-empty path, and the canonical text of that path names the same one |
| `PciPaths.CanonicalTextDecides` | src/agent/src/pci.rs:144-184 | two accepted strings name the same path exactly when their canonical texts are equal |
| `PciPaths.AcceptedPartByPart` | src/agent/src/pci.rs:178-184 | a string is accepted exactly when each of its parts is, and names their locations in order |
| `PciPaths.AddressRoundTrip` | src/agent/src/pci.rs:97-142 | every address parses back from its text |
| `PciPaths.AddressExactly` | src/agent/src/pci.rs:114-136 | a string is an address exactly when it is a domain, a bus and a slot in their ranges, with a colon between each |
| `PciPaths.AddressShape` | src/agent/src/pci.rs:138-142 | four digits, a colon, two digits, a colon, then the slot |

## Left out

- System calls, mounts, namespaces, cgroups, netlink, KVM ioctls, `mmap`, `madvise` and thread spawning: only the planning and bookkeeping around them is modelled.
- Permissions and ownership in the watcher and in file copies, single-file watcher sources, and the directory and symbolic-link branches of `do_copy_file`: they add cases without harder properties.
- I/O errors of the watcher's walk other than its two limits, and a source that changes while it is being walked: a scan sees one tree.
- Watchers.UpdateAllKeeps: does not model a copy or a `create_dir_all` that goes through a symbolic link in the target and so changes the path behind it, because the target is a plain tree. From a state in which all comes out right no update meets such a link, so the conditions of `UpdatesCopyExactly` and `MirrorsExactlyWhen` are not affected.
- WatchedStorages.WatchedStorage.UpdateTarget: does not follow a symbolic link in the target either, for the same reason.
- WatchedStorages.WatchedStorage.RemoveFromTarget: does not follow a symbolic link in the target; an indexed path lies below a link of the target only when an earlier update was not made.
- Symbolic links in the tree that files are copied into: `Resolve` reads `..` without them, and a link at the temporary path would be followed out of the modelled tree.
- A caller of `wait_process` dropped while it broadcasts inside its second critical section (`src/agent/src/rpc.rs:651-654`): only some watchers would have the code, and the entry would stay for the next caller to broadcast again. The model cancels a caller between critical sections.
- The loop of `check` over several storages: each is checked by itself, and no check touches another storage.
- Parent directories of copied files: they are taken to exist, since the code creates them first.
- The stream clean-up of a finished process and the wait for its output in pass-fd mode: they do not touch the protocol state.
- `WaitStatus` values other than exited and signalled: the reaper ignores them.
- The online write of a memory hot-add: its early return is modelled, its effect is not.
- Parsing of a uevent message, and the concrete matchers.
- `add_storages` with its device handlers: the balance it establishes between counts and mount lists is the premise of `RemoveContainerBalances`.
- Token bucket and rate limiter configuration, `DeviceConfigInfos::push`, `pop` and `IndexMut`: the last three bypass the conflict check.
- The locks of the resource pools: each call of the model is one critical section. After a panic the pools are poisoned, and the model says nothing about them.
- `get_by_id` and the values stored in the interval tree: the pools store none.
- ResourceManagers.ResourceManager.constructor: does not model a highest slot number above 2^32 - 1, because slots are handed out as 32-bit numbers, which would be truncated.
- Hexadecimal numbers wider than the machine word: the code rejects them when parsing, the model by the range check that follows; the result is the same error.
- The Go runtime, the runtime-rs crates, configuration files, metrics, tracing and logging.
