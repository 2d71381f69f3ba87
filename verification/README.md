# Verified models of four vLLM-Ascend components

The project models four parts of the repository in Dafny and proves what they promise.

**Mapped host pools** (`HostRange`, `Registry*`). Worker processes lease host memory to NPU gathers. A lease sits on a
*mapping*, which is either *owned* (this extension registered whole pages with ACL) or *borrowed* (an allocator already
had). The registry is a state machine over register, release, gather and completion events. ACL replies are arbitrary.
`RegistryBook` and `RegistryGeometry` hold the invariants of every run. `RegistryTheorems`, `RegistryAcl`,
`RegistryLifetime`, `RegistryOutcomes`, `RegistryCounts` and `RegistryLimits` state what follows for single calls and
whole runs and exactly where a promise ends, and `RegistryExamples` and `RegistryExhaustion` give concrete inputs and
runs there. `RegistryObject` is the registry as the code has it, an object with in-place loops, proved equal to the
transition functions.

**CPU plans** (`CpuDiscovery`, `CpuSlices`, `CpuRoles`, `CpuTopology`, `CpuPools`, `CpuAllocator`, `CpuConflicts`,
`CpuLists`, `CpuMask`). Each process plans the CPUs of its NPUs alone. The lemmas compare two processes that see
different NPUs of one machine.

**Span copies** (`Spans`, `BlockCopy`, `Fragmentation`, `Percentile`). The coalescing and copying baseline of the gather
benchmark, its mapping generator, and its percentiles, over the reals.

**QoS tool** (`Qos`, `QosRestore`, `QosLimits`, `QosOutcomes`, `QosObject`). Runs are arbitrary interleavings of apply
and unset, in which every driver call and the removal of the state file may fail. Reading the file may fail in both: an
apply then captures anew as if there were no file, an unset then only removes the file. Writing it succeeds, or leaves
the old file (it could not be opened), or loses it (it was truncated and the new text did not arrive).

`Options`, `Collections`, `Arithmetic`, `Sorting` and `Text` hold shared vocabulary.

Where the code does less than one would expect, the model keeps the code and the project states the exact condition:

- A registration that throws is atomic unless an id space runs out under a new mapping (`RegisterFailureIsAtomic`).
  While handles last, ids last too, so nothing is left behind, ACL holds exactly the owned mappings and is never asked
  for a range it holds (`IdsOutlastHandles`, `ExactWhileHandlesLast`). Once the handles are used up, a mapping without a
  lease can stay behind (`HandlesCanRunOut`). Only then can the mapping ids run out too. Then an ACL registration stays
  behind (`IdsCanRunOut`), and ACL can be asked again for a range it holds (`AclPairingIff`, `AclNeverSeesOverlapIff`).
- A pool in the last page of the address space gets a wrapped end. It never resolves, and no new mapping can be made
  until it is gone (`LastPageIff`, `LastPageCanBlock`).
- Part of a lease can resolve to an earlier borrowed mapping that lies in the owned mapping's padding
  (`SubrangesResolveIff`, `PaddingCanCaptureSubrange`).
- Only the release of a mapping's last lease fences, but every release drops its tensor. In-flight reads stay on leased
  memory exactly when the released lease was the last on its mapping or another lease covers its range
  (`ReleaseRetentionIff`, `UnfencedReleaseCanStrand`).
- A gather also resolves on page padding that no lease covers (`UnleasedGatherResolves`). `EveryReadStaysLeased` says
  what callers have to observe.
- A gather resolves its address under the lock and submits outside it (`DelayedSubmissionIff`,
  `DelayedSubmissionCanDangle`).
- The reported current bytes count borrowed mappings, the reported peak does not, so current can exceed peak
  (`GetStats`, `CurrentCanExceedPeak`).
- Slicing keeps processes apart exactly when they slice for the same number of NPUs (`SlicingAgreesIff`). The code's
  fallbacks for that number differ between processes, but discovery resolves every running NPU through the NPU map, so
  they are never taken (`DiscoveredCountsTheMap`, `Discover`).
- Sharing a pool separates the NPUs of a group exactly when no CPU number is repeated across a share boundary
  (`NeighboursNeverConflictIff`, `RepeatedCpuConflicts`).
- Asking the node table for a node it does not list makes it longer, and that changes which node comes next for the
  NPUs planned later (`GroupGets`, `MissingNodeShiftsNext`). With a table that lists every node this does not happen
  (`GroupGetsNextNode`).
- A printed CPU list parses back exactly when it is not empty and has no negative number (`PrintedListParsesIff`).
- Repeated applies keep the first snapshot of a device only if its SDMA bandwidth can be saved. Otherwise each apply
  captures it again (`AlwaysRestoredIff`). The same happens after a first apply that could not write its file
  (`SecondApplyForgets`).
- The file is overwritten in place. An overwrite that is lost takes the first snapshot with it, and unset restores
  nothing (`OverwriteIff`, `LostOverwriteForgets`). An apply that cannot read the file overwrites the first snapshot with
  the tuned settings (`UnreadOverwriteForgets`). `SnapshotSurvivesAppliesIff` has the exact condition for whole runs.

## Model

| member | source | states |
|---|---|---|
| `HostRange.RoundUp` | csrc/kv_cache_block_gather_binding.cpp:168-175 | returns the least multiple of the alignment not below the value, and fails exactly when the 64-bit sum would overflow or the alignment is not positive |
| `HostRange.GetHostRange` | csrc/kv_cache_block_gather_binding.cpp:177-196 | succeeds exactly when all five checks pass; the result is the smallest page-aligned range around the request, and offset plus base is the request's address |
| `HostRange.HostRangeErrors` | csrc/kv_cache_block_gather_binding.cpp:177-196 | the first check that fails decides the error |
| `HostRange.PageCoverStaysDisjoint` | csrc/kv_cache_block_gather_binding.cpp:183-195 | a page-aligned range that avoids a request avoids every page the request touches, so padding never meets another owned mapping |
| `Registry.FirstContaining` | csrc/kv_cache_block_gather_binding.cpp:211-232 | the first mapping in order that contains the request, by the 64-bit end address; none before it does |
| `Registry.FirstClash` | csrc/kv_cache_block_gather_binding.cpp:234-248 | the first mapping that is wrapped or meets the request; none before it is or does |
| `Registry.FindById` | csrc/kv_cache_block_gather_binding.cpp:422-430 | the first mapping with the id; none before it has it |
| `Registry.Resolve` | csrc/kv_cache_block_gather_binding.cpp:309-322 | a gather resolves to the first mapping that contains its source, which is of the current device, at the device base plus the source's offset in the mapping; it is reported unregistered only when no mapping contains it |
| `RegistryBook.RegisterBook` | csrc/kv_cache_block_gather_binding.cpp:324-420 | every registration, failed or not, keeps the books: increasing ids, reference counts equal to the live handles carrying the id, leases that agree with their mapping on device, ownership and address offset, call and byte counters equal to the owned mappings, current <= peak <= total |
| `RegistryBook.ReleaseBook` | csrc/kv_cache_block_gather_binding.cpp:612-676 | every release, failed or not, keeps the same books |
| `RegistryBook.ReleaseChecksNeverFire` | csrc/kv_cache_block_gather_binding.cpp:617-629 | the "no mapping" and "invalid reference count" checks are unreachable, and false is returned exactly for an unknown handle |
| `RegistryBook.ReleaseShape` | csrc/kv_cache_block_gather_binding.cpp:637-673 | a release changes nothing in the mappings, or one reference count, or removes one mapping of the current device behind a completed fence |
| `RegistryGeometry.RegisterGeometry` | csrc/kv_cache_block_gather_binding.cpp:339-419 | every registration keeps the geometry: every mapping is its request's page cover or its request, no mapping meets the request of a later one, only the newest can have a wrapped end, and no mapping before a lease's own contains the leased range |
| `RegistryGeometry.ReleaseGeometry` | csrc/kv_cache_block_gather_binding.cpp:612-676 | every release keeps the geometry |
| `RegistryGeometry.LeaseResolves` | csrc/kv_cache_block_gather_binding.cpp:211-232 | looking up the exact range of a live lease finds its own mapping and its recorded device address, or nothing when the end of that mapping wraps |
| `RegistryGeometry.SubrangesResolveIff` | csrc/kv_cache_block_gather_binding.cpp:211-232 | every non-empty part of a lease resolves to the lease's mapping at the recorded device address plus the part's offset, if and only if no earlier mapping meets the leased range and the mapping's end does not wrap |
| `RegistryGeometry.OverlapsAreOnlyPadding` | csrc/kv_cache_block_gather_binding.cpp:234-267 | owned mappings are page-aligned and pairwise disjoint, borrowed ones pairwise disjoint, and an owned one meets a borrowed one only outside the request that created it |
| `RegistryGeometry.NewPagesAreUnowned` | csrc/kv_cache_block_gather_binding.cpp:362-368 | the pages of a new registration meet no owned mapping |
| `RegistryGeometry.OwnedBytesFit` | csrc/kv_cache_block_gather_binding.cpp:384-389 | while no mapping wraps, the sum of the owned sizes is a 64-bit number, so the byte counter does not wrap either |
| `RegistryRuns.EveryRunIsSafe` | csrc/kv_cache_block_gather_binding.cpp:324-676 | in every state of every run, under any requests and ACL replies: the books hold, every gather in flight reads a mapping that still exists on its device, and the recorded peak is the maximum of the current bytes over the whole history |
| `RegistryRuns.ReaderSurvives` | csrc/kv_cache_block_gather_binding.cpp:432-442 | a gather that the fence did not wait for still reads an existing mapping after the step |
| `RegistryRuns.StepReaders` | csrc/kv_cache_block_gather_binding.cpp:630-651 | no step removes a mapping under a gather in flight, owned or borrowed |
| `RegistryRuns.StepPeak` | csrc/kv_cache_block_gather_binding.cpp:384-389 | every step keeps the peak equal to the maximum of the history |
| `RegistryCounts.EverythingIsAccountedFor` | csrc/kv_cache_block_gather_binding.cpp:352-402 | in every state of every run the handles issued so far are the live plus the released ones, and the mapping ids issued so far are the registered plus the borrowed mappings |
| `RegistryCounts.IdsOutlastHandles` | csrc/kv_cache_block_gather_binding.cpp:139-146 | in every reachable state that has a handle left there is a mapping id left |
| `RegistryCounts.StatisticsAreTrue` | csrc/kv_cache_block_gather_binding.cpp:324-389 | in every state of every run the call counter is the number of registrations that passed the range and device checks, and the byte total is the sum of all mappings that were ever owned |
| `RegistryCounts.FirstHandlesApart` | csrc/kv_cache_block_gather_binding.cpp:82-87 | the first handles of processes with different ids below 2^31 are positive and at least 2^32 apart |
| `RegistryCounts.ProcessesShareNoHandle` | csrc/kv_cache_block_gather_binding.cpp:82-87 | two processes never hold the same handle until the one with the lower id has issued 2^32 of them |
| `RegistryTheorems.EveryLeaseResolves` | csrc/kv_cache_block_gather_binding.cpp:309-322 | in every reachable state every live lease resolves to its own mapping and recorded address, whatever was added or released since, unless that mapping's end wraps; every part resolves to that address plus its offset if and only if, moreover, no earlier mapping meets the lease, and always when no mapping is borrowed |
| `RegistryTheorems.EveryRunKeepsOverlapStructure` | csrc/kv_cache_block_gather_binding.cpp:234-267 | the overlap structure holds in every reachable state, and the current byte counter is a 64-bit number while no mapping wraps |
| `RegistryTheorems.AddressableRunsNeverWrap` | csrc/kv_cache_block_gather_binding.cpp:352-394 | if every range that ACL registers in a run ends at a 64-bit address, no mapping ever wraps |
| `RegistryAcl.AclPairingIff` | csrc/kv_cache_block_gather_binding.cpp:362-391 | in every reachable state the ranges ACL holds for this extension are exactly the owned mappings, if and only if no registration so far found the mapping ids used up after ACL had registered its pages |
| `RegistryAcl.AclNeverSeesOverlapIff` | csrc/kv_cache_block_gather_binding.cpp:341-368 | no next registration makes ACL register a range that meets one it already holds for this extension, if and only if nothing leaked so far |
| `RegistryAcl.NoLeaksWhileHandlesLast` | csrc/kv_cache_block_gather_binding.cpp:362-402 | in every reachable state that has a handle left, no registration so far left pages with ACL |
| `RegistryAcl.ExactWhileHandlesLast` | csrc/kv_cache_block_gather_binding.cpp:324-420 | in every reachable state that has a handle left, ACL holds exactly the owned mappings, no next registration asks it for a range that meets one it holds, and one that throws leaves nothing with ACL and changes nothing but its call counter |
| `RegistryAcl.UnregisterMatchesRegister` | csrc/kv_cache_block_gather_binding.cpp:641-651 | in every reachable state a call of host-unregister, failed or not, is for an owned mapping whose range ACL holds; it takes exactly that range from ACL when it succeeds and nothing when it fails |
| `RegistryAcl.EveryRunIsPaired` | csrc/kv_cache_block_gather_binding.cpp:362-391 | in every reachable state ACL holds every owned mapping, and whatever else it holds for this extension meets no owned mapping |
| `RegistryAcl.UnregisterIsFencedAndOwned` | csrc/kv_cache_block_gather_binding.cpp:637-651 | host-unregister is called, even in vain, only behind a completed fence, for an owned mapping of the current device with its last lease |
| `RegistryTheorems.HandlesAreNeverReissued` | csrc/kv_cache_block_gather_binding.cpp:396-402 | after a successful release the handle is unknown for the rest of the run, and every later release of it returns false and changes nothing |
| `RegistryTheorems.RegisterFailureIsAtomic` | csrc/kv_cache_block_gather_binding.cpp:329-402 | a registration that throws changes only its call counter, if and only if no id space ran out under a new mapping |
| `RegistryTheorems.ReleaseFailureIsAtomic` | csrc/kv_cache_block_gather_binding.cpp:612-676 | a release that throws changes nothing; one that returns true removes exactly its lease |
| `RegistryOutcomes.RegisterSucceedsIff` | csrc/kv_cache_block_gather_binding.cpp:324-402 | a registration succeeds if and only if its range and device pass the checks, a handle is left, and either the first mapping that contains the range is of the device, or none contains it, none wraps or meets it, an id is left, and ACL has an alias or registers the pages |
| `RegistryOutcomes.RegisterErrors` | csrc/kv_cache_block_gather_binding.cpp:324-402 | what each error of a registration means: another device's mapping, the first wrapped or overlapping mapping, a refusal by ACL, no id left, no handle left |
| `RegistryOutcomes.RegisterMakesLease` | csrc/kv_cache_block_gather_binding.cpp:396-419 | the returned handle is new and names an active lease on exactly the registered range and device, and every other lease is unchanged |
| `RegistryOutcomes.RegisterPlaces` | csrc/kv_cache_block_gather_binding.cpp:334-394 | a range inside a mapping takes one more reference on the first such mapping; any other appends one mapping, the alias of the range itself or the pages around it, and ACL registers pages only then |
| `RegistryOutcomes.ReleaseOutcome` | csrc/kv_cache_block_gather_binding.cpp:612-651 | the outcome of every release from what a caller knows: unknown handle, wrong device, failed fence or host-unregister of a last lease, success |
| `RegistryOutcomes.ReleaseSucceedsIff` | csrc/kv_cache_block_gather_binding.cpp:612-675 | a live lease can be released if and only if the current device is its own and, when it is the last on its mapping, the fence succeeds and host-unregister does if the mapping is owned |
| `RegistryOutcomes.LeaseLastsIff` | csrc/kv_cache_block_gather_binding.cpp:337-339 | in every run a lease is live and unchanged in a later state if and only if its own handle was not released in between, whatever else was registered and released |
| `RegistryOutcomes.ResolveIff` | csrc/kv_cache_block_gather_binding.cpp:309-322 | a gather resolves to a mapping and an address if and only if its range passes the checks, the mapping is the first that contains it and of the current device, and the address is the device base plus the offset |
| `RegistryOutcomes.ResolveErrors` | csrc/kv_cache_block_gather_binding.cpp:309-322 | a gather whose range passes the checks fails as unregistered exactly when no mapping contains it, and otherwise for its device |
| `RegistryTheorems.LastPageIff` | csrc/kv_cache_block_gather_binding.cpp:211-248 | a newly registered pool resolves if and only if its page-rounded end is a 64-bit address; otherwise nothing can be newly mapped while it lives |
| `RegistryLifetime.ReleaseRetentionIff` | csrc/kv_cache_block_gather_binding.cpp:637-674 | in every reachable state whose reads are on leased memory, a successful release keeps them there, whichever leased range was gathered just before, if and only if it takes the last lease on its mapping or another live lease covers the released range; "only if" for leases that resolve, since no gather can read a lease on a mapping whose end wraps |
| `RegistryLifetime.FencedIffLast` | csrc/kv_cache_block_gather_binding.cpp:637-640 | a successful release fences if and only if no other live lease is on its mapping |
| `RegistryLifetime.EveryReadStaysLeased` | csrc/kv_cache_block_gather_binding.cpp:309-322 | in every run in which gathers read leased ranges and leases are released only as the last on their mapping or under the cover of another, every gather in flight reads leased memory |
| `RegistryLimits.EveryMappingIsHeld` | csrc/kv_cache_block_gather_binding.cpp:637-673 | while handles last, every mapping has a live lease |
| `RegistryLimits.IdsKeepTheirMapping` | csrc/kv_cache_block_gather_binding.cpp:139-146 | an id that was given out never names another mapping later in the run |
| `RegistryLimits.DelayedSubmissionIff` | csrc/kv_cache_block_gather_binding.cpp:735-738 | while handles last, a gather resolved in one state and submitted in a later one reads an existing mapping if and only if some lease on that mapping is still live |
| `RegistryExamples.DelayedSubmissionCanDangle` | csrc/kv_cache_block_gather_binding.cpp:735-738 | a concrete run in which a release between lookup and submission leaves the gather with the address of a dropped mapping |
| `RegistryExamples.UnfencedReleaseCanStrand` | csrc/kv_cache_block_gather_binding.cpp:637-640 | a concrete run in which releasing one of two leases on a page drops the tensor that a gather still reads |
| `RegistryExamples.PaddingCanCaptureSubrange` | csrc/kv_cache_block_gather_binding.cpp:211-232 | a concrete run in which a part of a lease resolves to an earlier borrowed mapping |
| `RegistryExamples.UnleasedGatherResolves` | csrc/kv_cache_block_gather_binding.cpp:309-322 | a concrete state in which a gather resolves on page padding that no lease covers |
| `RegistryExamples.LastPageCanBlock` | csrc/kv_cache_block_gather_binding.cpp:211-248 | a concrete pool in the last page that registers, does not resolve, and keeps another pool from being mapped |
| `RegistryExhaustion.HandlesCanRunOut` | csrc/kv_cache_block_gather_binding.cpp:396-402 | a process with any id has a run, of registrations and releases, to a state in which every accepted registration throws and leaves a mapping without a lease |
| `RegistryExhaustion.IdsCanRunOut` | csrc/kv_cache_block_gather_binding.cpp:362-383 | it also has a run, on from there, that ends in a registration whose pages stay with ACL |
| `RegistryExamples.CurrentCanExceedPeak` | csrc/kv_cache_block_gather_binding.cpp:522-539 | a concrete state in which the reported current bytes exceed the reported peak |
| `RegistryObject.HostMappingRegistry.constructor` | csrc/kv_cache_block_gather_binding.cpp:82-97 | a new registry is empty, with the first handle derived from the process id |
| `RegistryObject.HostMappingRegistry.FindMapping` | csrc/kv_cache_block_gather_binding.cpp:211-232 | the scan returns the first containing mapping of the device, fails on another device's, and returns null otherwise |
| `RegistryObject.HostMappingRegistry.FindOverlap` | csrc/kv_cache_block_gather_binding.cpp:234-267 | the scan reports the first wrapped or overlapping mapping |
| `RegistryObject.HostMappingRegistry.AllocateMapping` | csrc/kv_cache_block_gather_binding.cpp:139-146 | adds a mapping under the next id and counts it, or fails without change when ids are used up |
| `RegistryObject.HostMappingRegistry.IssueHandle` | csrc/kv_cache_block_gather_binding.cpp:396-419 | issues the next handle and counts the reference, or fails without change when handles are used up |
| `RegistryObject.HostMappingRegistry.PlaceMapping` | csrc/kv_cache_block_gather_binding.cpp:339-394 | reuses, borrows or registers a mapping as planned, with the exact state of every failure |
| `RegistryObject.HostMappingRegistry.RegisterPool` | csrc/kv_cache_block_gather_binding.cpp:324-420 | the in-place registration is the transition and keeps the books; it succeeds exactly when a caller can expect it, and the returned handle names the new lease on the registered range |
| `RegistryObject.HostMappingRegistry.Forget` | csrc/kv_cache_block_gather_binding.cpp:653-674 | takes the lease and its reference away, and the mapping with its last lease |
| `RegistryObject.HostMappingRegistry.UnregisterPool` | csrc/kv_cache_block_gather_binding.cpp:612-676 | the in-place release is the transition and keeps the books; it returns true exactly for a live lease on its own device whose fence and host-unregister, where needed, succeed |
| `RegistryObject.HostMappingRegistry.ResolveSource` | csrc/kv_cache_block_gather_binding.cpp:309-322 | the in-place lookup is the resolution function |
| `RegistryObject.HostMappingRegistry.Inspect` | csrc/kv_cache_block_gather_binding.cpp:581-610 | a live handle is reported with its own record, which is active and agrees with an existing mapping; any other handle is unknown |
| `RegistryObject.HostMappingRegistry.GetStats` | csrc/kv_cache_block_gather_binding.cpp:522-566 | the owned count is registers minus unregisters; the peak is the peak counter; the current bytes are the counter plus the borrowed bytes, at most the peak when no mapping is borrowed; the largest region is the maximum |
| `Spans.Coalesce` | tools/benchmark_kv_gather_vs_span.py:55-73 | the spans expand to the mapping in order, and no two neighbours could merge |
| `Spans.MaximalIsUnique` | tools/benchmark_kv_gather_vs_span.py:55-73 | there is only one such decomposition |
| `Spans.CoalesceIsShortest` | tools/benchmark_kv_gather_vs_span.py:55-73 | no span list that expands to the mapping is shorter |
| `Spans.CoalesceBlockCopySpans` | tools/benchmark_kv_gather_vs_span.py:55-73 | the loop computes that decomposition |
| `BlockCopy.SpanCopyIsPairCopy` | tools/benchmark_kv_gather_vs_span.py:386-398 | copying the coalesced spans equals copying the pairs in order, for every in-bounds mapping, repeated sources and destinations included |
| `BlockCopy.LastPairWins` | tools/smoke_device_kv_gather.py:110-112 | of the pairs that write a block the last one decides it; other blocks keep their content |
| `BlockCopy.SpanCopy` | tools/benchmark_kv_gather_vs_span.py:386-394 | the nested loops copy every span in every part of the output in place |
| `BlockCopy.CoalesceAndCopy` | tools/benchmark_kv_gather_vs_span.py:386-398 | coalescing and copying leaves every part as the pair-by-pair copy does |
| `BlockCopy.CopyReference` | tools/smoke_device_kv_gather.py:110-112 | the reference loop copies the pairs in order |
| `Fragmentation.RunCountIsCeiling` | tools/benchmark_kv_gather_vs_span.py:90-95 | there are ceil(selected/length) runs |
| `Fragmentation.GeneratedCoalescesToPlan` | tools/benchmark_kv_gather_vs_span.py:76-113 | for every pair of shuffles the generated pairs coalesce to exactly the planned runs, of the planned lengths |
| `Fragmentation.GeneratedIsInjective` | tools/benchmark_kv_gather_vs_span.py:105-113 | each host block and each device block is used at most once |
| `Fragmentation.GeneratedIsInBounds` | tools/benchmark_kv_gather_vs_span.py:97-113 | every pair is in bounds |
| `Fragmentation.GeneratedAt` | tools/benchmark_kv_gather_vs_span.py:105-113 | the n-th pair is block n mod length of run n div length, in the slot that each shuffle gives that run |
| `Fragmentation.BuildFragmentedMapping` | tools/benchmark_kv_gather_vs_span.py:76-113 | fails exactly when an argument is not positive or the blocks do not suffice; otherwise the mapping is in bounds, injective and coalesces to the plan |
| `Fragmentation.MakeCase` | tools/benchmark_kv_gather_vs_span.py:116-144 | the summary's span count, mean and maximum are those of the planned runs; all spans are single blocks when the length is 1, otherwise one is exactly when the remainder is 1, and none in other cases |
| `Percentile.InterpolateOnLine` | tools/benchmark_kv_gather_vs_span.py:147-157 | between two neighbouring ranks, both included, the value is the straight line between the two samples |
| `Percentile.PercentileMonotone` | tools/benchmark_kv_gather_vs_span.py:147-157 | the percentile grows with the percentage, stays between the least and the greatest sample, and reaches both |
| `Percentile.PercentileAtRank` | tools/benchmark_kv_gather_vs_span.py:147-157 | where the percentage falls a fraction beyond a rank, the percentile is that fraction of the way from the sample at the rank to the next |
| `Percentile.MedianOfTwo` | tools/benchmark_kv_gather_vs_span.py:147-163 | the 50th percentile of two samples is their mean |
| `Percentile.PercentileIsOrderIndependent` | tools/benchmark_kv_gather_vs_span.py:148 | the percentile does not depend on the order of the sample |
| `Percentile.SummariseMs` | tools/benchmark_kv_gather_vs_span.py:160-166 | fails exactly on an empty sample, as the mean does there; otherwise p50 <= p95 <= p99, and they and the mean lie between two samples |
| `Percentile.MeanBetween` | tools/benchmark_kv_gather_vs_span.py:160-162 | the mean times the sample size is the sum, and the mean lies between any bounds of the sample |
| `Percentile.SumAdds` | tools/benchmark_kv_gather_vs_span.py:160-162 | the sum of a sample is the sum of its parts |
| `CpuSlices.SortedSet` | vllm_ascend/cpu_binding.py:314 | strictly increasing, with the same elements |
| `CpuSlices.SlicesPartition` | vllm_ascend/cpu_binding.py:327-362 | the slices of all logical ids, in order, are the whole list, with sizes that differ by at most one, larger ones first |
| `CpuSlices.SlicesDisjoint` | vllm_ascend/cpu_binding.py:357-362 | slices of different ids share no CPU |
| `CpuSlices.SliceableIff` | vllm_ascend/cpu_binding.py:342-353 | there are enough CPUs to slice if and only if the slice of every logical id has the minimum |
| `CpuSlices.SlicingAgreesIff` | vllm_ascend/cpu_binding.py:319-329 | two processes keep all different NPUs apart if and only if they slice for the same number of NPUs |
| `CpuDiscovery.GetAllLogicNpus` | vllm_ascend/cpu_binding.py:89-102 | the logical ids are exactly the numeric ones that the NPU map gives to some chip, each once and in increasing order |
| `CpuDiscovery.ResolveLogicIdIff` | vllm_ascend/cpu_binding.py:133-146 | a row resolves to an id if and only if its chip, or the only chip of its board when the row names none, has that numeric id; otherwise it fails |
| `CpuDiscovery.MappedIffResolves` | vllm_ascend/cpu_binding.py:89-146 | the ids of the NPU map are exactly those that rows can resolve to |
| `CpuDiscovery.GetRunningNpus` | vllm_ascend/cpu_binding.py:148-180 | fails exactly when a numeric row does not resolve or no running NPU is visible; otherwise the result is the visible resolved ids, each once and in increasing order |
| `CpuDiscovery.Discover` | vllm_ascend/cpu_binding.py:61-69 | what is discovered always has a running NPU, knows every running NPU from the NPU map, lists no NPU twice, and slices for the map's count |
| `CpuSlices.DiscoveredCountsTheMap` | vllm_ascend/cpu_binding.py:319-325 | when some NPU runs and every running NPU is in the NPU map, as discovery ensures, the count sliced for is the map's, never a fallback |
| `CpuSlices.ProcessesNeverConflict` | vllm_ascend/cpu_binding.py:296-368 | with the same CPUs, listed in any order and with repeats, and the same NPU count, different NPUs get different CPUs across processes |
| `CpuSlices.BuildGlobalSlicePools` | vllm_ascend/cpu_binding.py:296-368 | fails exactly when CPUs do not suffice or a visible id is out of range; otherwise exactly the visible NPUs get their slices, and nothing when there is nothing to do |
| `CpuRoles.SplitRoles` | vllm_ascend/cpu_binding.py:434-451 | succeeds exactly on a pool of at least 5 CPUs, or 3 without interrupt CPUs; then the interrupt, main, acl and release CPUs in order are the whole pool, and main is not empty |
| `CpuRoles.RolesDisjoint` | vllm_ascend/cpu_binding.py:434-451 | two roles of one NPU share no CPU when the pool has no repeats |
| `CpuRoles.RolesDisjointIff` | vllm_ascend/cpu_binding.py:434-451 | the roles of any pool share no CPU if and only if no CPU number is repeated across two roles |
| `CpuConflicts.SlicedRolesNeverConflict` | vllm_ascend/cpu_binding.py:296-451 | over all NPUs and roles, across processes, different (NPU, role) pairs use different CPUs, and every NPU gets all its roles |
| `CpuConflicts.GroupRolesNeverConflictIff` | vllm_ascend/cpu_binding.py:402-451 | over all NPUs of an affinity group and all roles, in any two processes of the machine whatever they see, different (NPU, role) pairs use different CPUs, if and only if no CPU number is repeated across a share boundary of the group's pool nor across two roles of one NPU |
| `CpuConflicts.DistinctAffinitySeparates` | vllm_ascend/cpu_binding.py:402-451 | a topology that lists no CPU twice for an NPU satisfies that condition |
| `CpuTopology.PoolsIgnoreVisibility` | vllm_ascend/cpu_binding.py:402-432 | processes with the same CPU set, topology and NPU map compute the same pool for an NPU whatever NPUs they see, whenever both get one |
| `CpuTopology.PoolsStayAllowed` | vllm_ascend/cpu_binding.py:257-280 | every CPU of every pool is allowed |
| `CpuTopology.SharesCover` | vllm_ascend/cpu_binding.py:257-266 | the shares of a group, in order, are the group's whole list |
| `CpuTopology.ShareSizes` | vllm_ascend/cpu_binding.py:260-265 | all shares have the same size, and the last also gets the remainder |
| `CpuTopology.GroupCovers` | vllm_ascend/cpu_binding.py:420-430 | every CPU of a group's pool goes to some NPU of the group |
| `CpuTopology.SharesDisjointIff` | vllm_ascend/cpu_binding.py:257-266 | the shares are disjoint if and only if no CPU number is repeated across a share boundary |
| `CpuTopology.MiddleRepeatConflicts` | vllm_ascend/cpu_binding.py:402-432 | two NPUs with one sorted affinity list on several nodes both get the CPU that is repeated in its middle |
| `CpuTopology.RepeatedCpuConflicts` | vllm_ascend/cpu_binding.py:402-432 | a concrete machine whose plan gives CPU 1 to both of its NPUs |
| `CpuTopology.NeighboursNeverConflictIff` | vllm_ascend/cpu_binding.py:402-432 | different NPUs of one affinity group get different CPUs, in any two processes of the machine, if and only if the group has one NPU or no CPU number is repeated across a share boundary of the group's sorted pool |
| `CpuTopology.ExtensionHolds` | vllm_ascend/cpu_binding.py:268-280 | a list on one node is extended by exactly the allowed CPUs of the next node, without repeats and in order; a list on several nodes is left as it is |
| `CpuPools.PoolHolds` | vllm_ascend/cpu_binding.py:412-419 | before sharing, the pool of every planned NPU holds exactly its allowed affinity CPUs and, when those lie on one node, the allowed CPUs of the next node in the table as it stands; a list on several nodes stays as it is |
| `CpuPools.GroupGets` | vllm_ascend/cpu_binding.py:402-432 | the final pools of an affinity group are together exactly that set, for every node table |
| `CpuPools.GroupGetsNextNode` | vllm_ascend/cpu_binding.py:275-280 | with a table that lists every node, that is the next node in the table as read, whatever was planned before |
| `CpuPools.MissingNodeShiftsNext` | vllm_ascend/cpu_binding.py:275-277 | a concrete machine with the nodes 0 and 2 on which opening node 1 for the first NPU gives its CPU also to the second |
| `CpuPools.LoneNpuKeepsPool` | vllm_ascend/cpu_binding.py:426-428 | an NPU that shares its pool with no other keeps it, order included |
| `CpuPools.LowerNpusGetLowerCpus` | vllm_ascend/cpu_binding.py:257-266 | within a group every CPU of a lower NPU is at most every CPU of a higher one |
| `CpuPools.PlanSucceedsIff` | vllm_ascend/cpu_binding.py:412-419 | planning succeeds if and only if every candidate has allowed CPUs near it, all on known nodes |
| `CpuPools.PlanFailsAtFirst` | vllm_ascend/cpu_binding.py:412-419 | otherwise it fails with the first candidate that does not, for that reason |
| `CpuPools.AllowedInOrder` | vllm_ascend/cpu_binding.py:413-415 | the allowed part of a list keeps its order and its repeats |
| `CpuTopology.Opened` | vllm_ascend/cpu_binding.py:275-277 | asking the defaulting node table for a node adds it when it is missing and changes nothing else |
| `CpuAllocator.CpuAlloc.Extend` | vllm_ascend/cpu_binding.py:268-280 | the in-place extension, with its effect on the node table and its failure on an unknown CPU, is the extension function |
| `CpuAllocator.CpuAlloc.BuildRawPools` | vllm_ascend/cpu_binding.py:412-419 | the loop fills the pools, or stops with the first failure |
| `CpuAllocator.GroupByPool` | vllm_ascend/cpu_binding.py:421-423 | every pool has the group of exactly its NPUs, in order |
| `CpuAllocator.ShareOut` | vllm_ascend/cpu_binding.py:257-266 | a group of one keeps its pool, a larger one gets its shares, and no other NPU changes |
| `CpuAllocator.Distribute` | vllm_ascend/cpu_binding.py:425-430 | every candidate ends with its own pool or its share, in whatever order the groups are taken |
| `CpuAllocator.CpuAlloc.BuildTopologyPools` | vllm_ascend/cpu_binding.py:402-432 | exactly the visible NPUs keep their pools; fails exactly when planning fails or a visible NPU is no candidate |
| `CpuAllocator.CpuAlloc.BuildCpuPools` | vllm_ascend/cpu_binding.py:385-432 | slices in global mode and without a topology, shares otherwise, with the exact failure conditions of each |
| `CpuAllocator.CpuAlloc.Allocate` | vllm_ascend/cpu_binding.py:434-451 | fails exactly when some pool is too small; otherwise every pool is split into its roles |
| `CpuLists.ExpandCpuList` | vllm_ascend/cpu_binding.py:79-87 | the loop parses the list: decimal digits with single underscores between them, a plus sign and white space as int() takes them; it fails when some piece is malformed |
| `CpuLists.WrittenListParses` | vllm_ascend/cpu_binding.py:79-87 | every written list of numbers and intervals, with spaces before them, parses to the ids in order; `a-b` is every id from a to b |
| `CpuLists.ParsesIff` | vllm_ascend/cpu_binding.py:79-87 | a list parses if and only if each of its pieces does |
| `CpuLists.TwoDashesFail` | vllm_ascend/cpu_binding.py:83 | a piece with two dashes is malformed |
| `Text.ParseSigned` | vllm_ascend/cpu_binding.py:86 | a number with a plus sign and spaces on both sides reads as the number |
| `Text.UnderscoreIsIgnored` | vllm_ascend/cpu_binding.py:86 | a single underscore between digits changes nothing |
| `CpuLists.PrintedListParsesIff` | vllm_ascend/cpu_binding.py:249 | the comma-joined list used for binding parses back to itself if and only if it is not empty and has no negative number; otherwise parsing fails |
| `CpuMask.CpuToMask` | vllm_ascend/cpu_binding.py:217-225 | the mask is made of comma-separated groups of eight hex digits and denotes exactly two to the power of the CPU number |
| `Qos.Missing` | tools/ai_qos.py:231-235 | exactly the listed devices that lack one of the three entries |
| `QosRestore.CaptureHolds` | tools/ai_qos.py:178-221 | when its captures succeed, a listed device's three entries are its settings; a device that is not listed gets none |
| `QosRestore.CompleteEntriesAreKept` | tools/ai_qos.py:224-246 | a device with all three entries keeps them through an apply, whatever fails |
| `QosRestore.CaptureFindsSameIff` | tools/ai_qos.py:178-221 | a new capture without failures finds the entries that the file holds of a device if and only if the device is listed and still has the settings they record |
| `QosRestore.SnapshotSurvivesAppliesIff` | tools/ai_qos.py:224-257 | through any number of applies of a run, whatever driver calls fail, the file keeps the device's entries if and only if no apply in between truncates the file and stops there, or overwrites it without having read it, unless the new capture finds the same entries |
| `QosRestore.TunedKeepsShape` | tools/ai_qos.py:404-420 | an apply changes only levels, the bandwidth of the SDMA master's MPAM id and the fuse settings, whatever fails |
| `QosRestore.RestoreUndoes` | tools/ai_qos.py:284-309 | unset undoes any such change exactly |
| `QosRestore.EveryUnsetRestores` | tools/ai_qos.py:270-319 | after every unset of every run a device has its initial settings, provided its own captures and restores succeed, the file that first holds it is written, and, while it has other settings than the file holds, that file is not lost, not overwritten unread, and can be read by unset; calls about other devices, calls that tune this one, and the removal of the file may fail |
| `QosRestore.ApplyKeepsSafeIff` | tools/ai_qos.py:249-257 | for an apply whose captures of a device succeed and that leaves it with other settings than the first, the condition on reading and writing the file is exact: the device stays restorable if and only if it holds |
| `QosRestore.UnsetReadIff` | tools/ai_qos.py:270-282 | an unset whose restore calls succeed gives a device its first settings if and only if it can read the file, or the file does not hold the device, or the device already has the settings that the file holds |
| `QosRestore.CleanRunsRestoreEverything` | tools/ai_qos.py:270-319 | with every call succeeding, each unset returns the whole machine to its initial settings, for any interleaving of applies with any levels and device lists |
| `QosLimits.ApplyReachesTarget` | tools/ai_qos.py:404-420 | an apply without failures gives each listed device its target settings, however often it is listed, and leaves the others alone |
| `QosLimits.ApplySetsLevels` | tools/ai_qos.py:404-420 | after an apply without failures masters 11 and 12 have the AIV level, 13 the SDMA level and 7 the PCIe DMA level with everything else kept, the SDMA bandwidth is 0-1 without a hard limit, and the fuse settings are 1, 1, 1 |
| `QosLimits.LastTargetWins` | tools/ai_qos.py:404-420 | of several applies to a device only the last matters |
| `QosOutcomes.ApplyOutcome` | tools/ai_qos.py:404-420 | whatever calls fail, an apply sets exactly the levels, the SDMA bandwidth and the fuse settings whose own calls succeed in some pass over the device, and nothing else |
| `QosOutcomes.CaptureOutcome` | tools/ai_qos.py:178-221 | whatever calls fail, a capture records present settings: the masters that the last pass over the device reads, and the SDMA bandwidth and the fuse settings if some pass reads them |
| `QosOutcomes.MergeOutcome` | tools/ai_qos.py:224-246 | complete and unlisted devices keep their entries; the others get what is captured of them now and keep the rest |
| `QosOutcomes.OneApplyRestores` | tools/ai_qos.py:270-436 | one written apply from a machine without a file and one unset give every device, with or without an SDMA bandwidth, all its settings back if its own captures and restores succeed |
| `QosOutcomes.UnsetRemovesIff` | tools/ai_qos.py:270-319 | the file is absent after an unset if and only if it was before or could be removed |
| `QosOutcomes.UnsetEndsEpisode` | tools/ai_qos.py:270-319 | in every run, after an unset that leaves no file another unset changes nothing, and the next written apply records the settings that the listed devices have then |
| `QosOutcomes.LevelsFollowPriorities` | tools/ai_qos.py:326-368 | the AIV level is 1, 3, 5 and the SDMA level 2, 4, 6 by the lower of the two priorities, the PCIe DMA level 0 or 7 |
| `QosLimits.UnsetRestoresIff` | tools/ai_qos.py:284-309 | unset restores a captured device if and only if the restore calls that fail are about settings already back |
| `QosLimits.SecondApplyForgets` | tools/ai_qos.py:224-257 | without an SDMA bandwidth to save, after a first file that was not written, or without reading that file, two applies and an unset leave the applied settings, for every device and all levels |
| `QosLimits.LostOverwriteForgets` | tools/ai_qos.py:424-436 | apply, apply whose overwrite is lost, unset: the file is removed and the device keeps the applied settings, for every device and all levels |
| `QosLimits.UnreadOverwriteForgets` | tools/ai_qos.py:249-257 | apply, apply that cannot read the file and overwrites it, unset: the device keeps exactly the applied settings, for every device and all levels |
| `QosLimits.OverwriteIff` | tools/ai_qos.py:424-436 | apply, apply, unset restores a device with an SDMA bandwidth and other settings than the applied ones if and only if the second apply cannot open the file for writing, or has read it and writes it |
| `QosLimits.OfferedIff` | tools/ai_qos.py:326-368 | the levels that priorities can lead to are exactly 1, 3, 5 for AIV, 2, 4, 6 for SDMA and 0, 7 for PCIe DMA |
| `QosLimits.AlwaysRestoredIff` | tools/ai_qos.py:224-246 | runs without failures, at the levels the tool offers, always restore a device if and only if it has an SDMA bandwidth to save or nothing to change |
| `QosObject.AiQos.TakeBaseline` | tools/ai_qos.py:340-357 | an apply without a file, or with one that cannot be read or does not parse, captures all listed devices; another one completes the file's entries for the missing ones |
| `QosObject.AiQos.TuneAll` | tools/ai_qos.py:404-420 | the nested loops tune the listed devices in order, in place |
| `QosObject.AiQos.Apply` | tools/ai_qos.py:340-436 | an apply is one step of the model, devices and file, with a read that may fail and the three ways its write can end |
| `QosObject.AiQos.Unset` | tools/ai_qos.py:270-319 | an unset is one step of the model; it reports a missing file without changing anything, only removes a file that cannot be read or does not parse, and leaves no file exactly when there was none or it could be removed |

## Left out

- ACL, CANN, torch and the device driver: their replies are parameters or call failures; what they do inside is not modelled.
- The rest of `kv_cache_block_gather`: type and shape checks, workspace and executor submission, and loading of the operator library.
- Fork rejection and `owner_pid` in the registry: a single guard with no consequence within one process.
- The lock of the registry: each register, release and lookup is one step, as the lock makes it; only the submission of a gather is taken apart from its lookup.
- Call counters and `register_bytes_total` are unbounded integers; the current byte counter is proved to fit 64 bits while no mapping wraps. Device addresses are unbounded integers.
- Disjointness of CPUs across different affinity groups: extension to the next node can make unequal pools overlap, and the code does not prevent it.
- Reading the machine: the text of `npu-smi`, `lscpu` and `/proc`. Discovery starts from the NPU map, the fields of the process table and the list of visible devices. Thread and memory binding, interrupt file writes and logging.
- CpuLists.ExpandCpuList: digits and white space are the ASCII ones, and there is no limit on the number of digits; other Unicode digits and spaces, which int() also takes, are not modelled.
- CpuDiscovery.GetAllLogicNpus: logical ids are ASCII digits; other Unicode digits, which isdigit() also takes, are not modelled.
- CpuAllocator.CpuAlloc.Allocate: the order in which pools are split is left open, since it decides only which error is reported first.
- Percentile.PercentileMonotone: real arithmetic, without floating-point rounding, and percentages from 0 to 100 only.
- Fragmentation.BuildFragmentedMapping: the two shuffles are arbitrary permutations instead of seeded random ones.
- QosRestore.EveryUnsetRestores: asks for success of the device's own captures and restores, and for reads and writes that do not cost it its place in the file; `QosRestore.ApplyKeepsSafeIff`, `QosRestore.UnsetReadIff`, `QosLimits.SecondApplyForgets`, `QosLimits.OverwriteIff` and `QosLimits.UnsetRestoresIff` say what happens otherwise.
- Switch-side commands of the QoS tool and the JSON text of the state file: a file is a snapshot or does not parse, and only a lost write makes one that does not parse. Except in `QosLimits.AlwaysRestoredIff` levels are arbitrary integers.
- Command lines, environment variables, timing and report writing of the tools.
