# An anti-DDoS gateway, modelled and verified

The gateway filters IPv4 traffic in an XDP program. A control plane builds signed policy snapshots and keeps
them in a version log; an agent on each host fetches the newest one, checks it, fills in forwarding data,
writes it into the inactive half of a doubled set of kernel maps and flips one configuration word. This
project models that path end to end and proves what it is relied on for.

`dafny verify dfyconfig.toml` checks everything.

## Structure

| part | modules |
|---|---|
| words, addresses, sorting | `Words`, `Ipv4`, `Sorting` |
| feed prefix aggregation | `Feed` (the loops), `FeedMeaning` (what they preserve) |
| token buckets | `RateLimit` (the in-place program), `RateBound` (one refill), `RateRuns` (whole runs), `RateTraffic` (runs inside the pipeline) |
| packet parser | `Packet` |
| kernel maps | `Contract`, `Lpm`, `Maps` |
| XDP pipeline | `DataPlane` (what it computes), `Counters`, `XdpProgram` (the in-place program) |
| policy snapshots | `Policy` (lists, validation, map entries), `Canonical` (normal form, signing), `Compile` |
| maps against lists | `Refinement`, `Shielding` (when the blacklist is a union) |
| applying a policy | `Devmap`, `Apply` (step machine), `ApplySafety`, `ApplyTheorems`, `Prepare`, `ApplyProgram` (the agent's statements) |
| building and publishing | `Selection`, `Builder`, `Control` |
| control plane and agents together | `Fleet` |

## How to read it

The step machine of `Apply` has one step per map operation. Every forward operation may fail, rollback
operations succeed, packets look at the maps between any two steps, and the agent may die and restart
anywhere. `ApplyProgram.Agent` is the agent's own sequence of statements, proved to be a run of that machine,
so every theorem about runs holds of it. A packet is one atomic step.

`Refinement.Judge` is the declarative reading of a policy: what its lists say about a frame, with no map in
sight. `DataPlane.XdpEntry` is the pipeline over maps; `XdpProgram.Cpu.Entry` is the program that updates
metadata, rate state, counters and frame bytes in place.

Go's `sort.Slice` is unstable, so the normal form of a snapshot is a relation; the theorems of `Canonical`
hold for every way ties may be broken.

## Where a promise needs a condition

- Rate limits over wall-clock time hold when the clock readings of one key are in lock order. The program
  reads the clock before it takes the bucket's lock; an older reading makes the subtraction wrap and earns a
  whole second (`RateRuns.BackwardClockCreditsASecond`, `RateRuns.OutOfOrderBreaksWallClock`). Without forward
  gaps over a second, lock order is exactly what keeps the credited time within the elapsed time
  (`RateRuns.CreditWithinSpanExactly`). The bound over credited time holds without that hypothesis.
- An agent that has never applied a policy reports version 1, so it is not offered version 1 of the log; it
  gets its first policy from version 2 on (`Fleet.FreshAgentSkipsVersionOne`). `docs/Control-Api.md:471`
  promises the snapshot when it is newer than the active one; the default record counts as version 1.
- A restart on a record that does not verify serves slot A whatever it holds. What that is, and exactly when
  it is whole, is `ApplyTheorems.DefaultRestartServesSlotA` with `ApplyTheorems.InFlightKnown`.
- A service-scoped blacklist entry whose action is not a drop shields its sources from a global drop
  (`Shielding.ObserveShieldsFromDrop`). For which lists the cascade is the union of the drops is
  `Shielding.UnionReadingExact`; the builder writes only drops (`Builder.BlacklistAccepted`), for which it
  always is (`Refinement.BuiltBlacklistIsUnion`).
- Aggregation keeps every address's attributes for disjoint entries (`FeedMeaning.AggregationSays`); with
  overlapping entries one merge keeps them exactly under the condition of `FeedMeaning.MergeSaysExact`.
- A snapshot has one canonical form exactly when its sort keys tell its entries apart
  (`Canonical.OneFormExactly`); validation guarantees that (`Canonical.ValidIsUnambiguous`).
- Builder selection does not depend on row order exactly when rows that tie for one key make the same entry
  (`Selection.ListOrderExactly` and its three instances in `Builder`); the tables' unique ids guarantee that.

Hypotheses named in the theorems: `Canonical.Sorts` (the sorting routine sorts), `Control.HasDigests` (a
checksum is never the empty text), `Control.CollisionFree` (different policies have different checksums, used
only where a skipped rebuild is characterised), `Builder.ReadsBack` (a printed prefix parses back),
`XdpProgram.LongestMatch` (the kernel's tries return a longest match).

## Model

| member | source | states |
|---|---|---|
| `Ipv4.ParentSplits` | internal/control/feed.go:827-844 | an address is in the parent prefix iff it is in the prefix or in its sibling |
| `Ipv4.SiblingSharesParent` | internal/control/feed.go:827-844 | both halves have the same parent, and taking the sibling twice gives the prefix back |
| `Ipv4.Nested` | internal/control/feed.go:810-812 | masked prefixes that share an address are nested: the shorter includes the longer |
| `Feed.OverlapIsIntersection` | internal/control/feed.go:810-812 | testing the two base addresses decides whether the address ranges intersect, for all masked prefixes |
| `Feed.MatchingWhitelists` | internal/control/feed.go:800-808 | returns exactly the whitelist entries whose range intersects the prefix, in list order |
| `Feed.Dedupe` | internal/control/feed.go:359-373 | the sorted result holds exactly the first entry of every (prefix, action, score, TTL) key |
| `Feed.ScanLength` | internal/control/feed.go:386-403 | finds the first mergeable entry of one length in sorted order, or that there is none |
| `Feed.FindMerge` | internal/control/feed.go:384-417 | a round finds a mergeable pair exactly when one exists |
| `Feed.MergeRound` | internal/control/feed.go:379-417 | one round is one merge step, or nothing can be merged any more |
| `Feed.Aggregate` | internal/control/feed.go:375-422 | the fixpoint loop ends, in a state reached by merge steps from the deduplicated input in which no merge is left |
| `FeedMeaning.RunShrinks` | internal/control/feed.go:404-413 | every merge shortens the list, so there are fewer merges than entries |
| `FeedMeaning.AggregationCovers` | internal/control/feed.go:375-422 | exactly the same addresses are covered after aggregation, for every input and every whitelist |
| `FeedMeaning.AggregationSays` | internal/control/feed.go:375-422 | for disjoint entries each address keeps its action, score, time to live and reason |
| `FeedMeaning.MergeSaysExact` | internal/control/feed.go:404-413 | for overlapping entries a merge keeps what is said about an address iff every replaced entry over it agrees with the merged pair or is repeated by one that stays |
| `FeedMeaning.TwinLosesAttributes` | internal/control/feed.go:404-413 | two disagreeing entries for one half: merging the other half with one of them loses what the other said |
| `FeedMeaning.AggregationSiblings` | internal/control/feed.go:398-403 | with uniform attributes a sibling pair left over has a parent that holds a whitelisted base address |
| `FeedMeaning.OneEntryCovers` | internal/control/feed.go:375-422 | in a list without siblings a covered prefix is covered by a single entry |
| `FeedMeaning.AggregationCanonical` | internal/control/feed.go:375-422 | uniform, disjoint entries without a whitelist aggregate to exactly the maximal prefixes of the covered set |
| `FeedMeaning.AggregationConfluent` | internal/control/feed.go:375-422 | hence the result depends only on the covered set, not on input order, cutting or merge order |
| `FeedMeaning.AggregationSparesWhitelist` | internal/control/feed.go:398-403 | no prefix created by merging includes a whitelisted prefix |
| `RateLimit.BucketCell.RefillBucket` | bpf/xdp_data_plane.bpf.c:586-629 | the in-place refill computes the specified 64-bit refill, branch by branch |
| `RateLimit.RateEntry.Refresh` | bpf/xdp_data_plane.bpf.c:693-725 | the three coupled buckets are refilled with the wrapped, capped elapsed time |
| `RateLimit.RateEntry.ApplyTokenBucket` | bpf/xdp_data_plane.bpf.c:693-751 | the locked section refills, counts, decides and charges all three buckets or none |
| `RateBound.RefillUnwrapped` | bpf/xdp_data_plane.bpf.c:597-628 | in every reachable state no product or sum reaches 2^64 and the two-second cap is idle: the 64-bit refill equals the unbounded one |
| `RateBound.RefillSound` | bpf/xdp_data_plane.bpf.c:586-629 | the remainder stays below one second in every reachable state |
| `RateBound.RefillPotential` | bpf/xdp_data_plane.bpf.c:597-628 | while not full, a refill changes tokens*10^9 + remainder*rate by exactly elapsed*rate plus a rounding term below one rate unit |
| `RateBound.RefillTwoSided` | bpf/xdp_data_plane.bpf.c:597-628 | that change is at least elapsed*rate and less than elapsed*rate + rate |
| `RateBound.RefillNoMore` | bpf/xdp_data_plane.bpf.c:586-629 | full or not, a refill never adds more than that |
| `RateRuns.LongRunRate` | bpf/xdp_data_plane.bpf.c:586-751 | over any arrivals at one key, admitted*10^9 <= burst*10^9 + rate*(credited time + partial refills) for packets, bytes and SYNs; the partial term vanishes when the rate divides 10^9 |
| `RateRuns.CreditedWithinClock` | bpf/xdp_data_plane.bpf.c:696-700 | the credited time is within the clock difference iff the clock did not run backwards between two lock holders |
| `RateRuns.BackwardClockCreditsASecond` | bpf/xdp_data_plane.bpf.c:663-700 | an older clock reading wraps and is credited a whole second |
| `RateRuns.WallClockRate` | bpf/xdp_data_plane.bpf.c:657-751 | with timestamps in lock order the bounds hold over wall-clock time since the key was created |
| `RateRuns.OutOfOrderBreaksWallClock` | bpf/xdp_data_plane.bpf.c:663-700 | without that order the wall-clock bound fails, for every inverted pair less than a second apart |
| `RateRuns.CreditWithinSpanExactly` | bpf/xdp_data_plane.bpf.c:663-700 | for arrivals without forward gaps over a second: at every moment the credited time is within the wall-clock time since creation iff the timestamps are in lock order |
| `RateRuns.ConformingNeverLimited` | bpf/xdp_data_plane.bpf.c:657-751 | packets that fit, each after a gap that earns it under every limit of the rule, are never over the limit |
| `RateRuns.ConformingAllAdmitted` | bpf/xdp_data_plane.bpf.c:657-751 | hence all of them are admitted |
| `RateTraffic.RateChangesByCall` | bpf/xdp_data_plane.bpf.c:657-751 | a packet changes the rate map through its one bucket call and in no other way |
| `RateTraffic.StateIsSimulated` | bpf/xdp_data_plane.bpf.c:657-751 | over any packets under any kernel states, other keys interleaved, the state stored under a key and what it let through are those of a run of the arrivals at that key |
| `RateTraffic.PipelineKeepsRate` | bpf/xdp_data_plane.bpf.c:586-751 | so the packets, bytes and SYNs the pipeline lets through at a key keep the long-run bounds, over wall-clock time when its timestamps are in lock order |
| `RateTraffic.OverIsDropped` | bpf/xdp_data_plane.bpf.c:785-803 | under an enforced rule a packet is dropped for its rate iff its bucket call does not let it through |
| `Packet.ParseL4InPlace` | bpf/xdp_data_plane.bpf.c:306-363 | the transport parser in place computes the specified result and reads only inside the frame |
| `Packet.ParsePacket` | bpf/xdp_data_plane.bpf.c:365-453 | the packet parser in place computes the specified result and reads only inside the frame |
| `Packet.TransportInFrame` | bpf/xdp_data_plane.bpf.c:306-363 | the frame-end checks of the transport headers are implied by the length checks |
| `Packet.ParseComplete` | bpf/xdp_data_plane.bpf.c:365-453 | every well-formed frame of the grammar is accepted with exactly its metadata |
| `Packet.ParseSound` | bpf/xdp_data_plane.bpf.c:365-453 | every accepted frame splits into a well-formed one with exactly the metadata returned |
| `Packet.AcceptedExactly` | bpf/xdp_data_plane.bpf.c:365-453 | accepted iff well-formed |
| `Packet.PassedExactly` | bpf/xdp_data_plane.bpf.c:365-453 | passed on iff a complete Ethernet header, past at most two VLAN tags, announces something other than IPv4 |
| `Lpm.RawBits` | internal/agent/policy_snapshot.go:562-588 | in the little-endian host's memory an address key lies in network bit order |
| `Lpm.GlobalKeyFaithful` | internal/agent/policy_snapshot.go:562-572 | the key of a prefix matches a source at length 32 iff the prefix contains it |
| `Lpm.ServiceKeyFaithful` | internal/agent/policy_snapshot.go:574-588 | a key of length 32+bits matches (service, source) at length 64 iff the service is the same and the prefix contains the source |
| `Lpm.FindExact` | bpf/xdp_data_plane.bpf.c:455-511 | a trie lookup succeeds iff some key matches, and returns the value of a longest one |
| `Maps.PutAllHas` | internal/agent/policy_apply.go:408-540 | after writing entries with distinct keys the slot holds exactly those and what they did not overwrite |
| `Maps.ClearEmpties` | internal/agent/policy_apply.go:249-275 | deleting every listed key and zeroing every rule leaves the slot empty, in whatever order the keys were found |
| `Policy.ValidateCidrs` | internal/agent/policy_snapshot.go:377-431 | one pass with key sets and counters accepts a list iff every entry is acceptable, no two share a map key and the counts fit |
| `Policy.ServiceEntryOf` | internal/agent/policy_snapshot.go:624-693 | an entry exists iff the service has a valid key, needs no resolution and both addresses parse; it carries that key and the service's identity and forwarding data |
| `Compile.EntriesDistinct` | internal/agent/policy_snapshot.go:329-560 | a strictly valid snapshot never writes one map key twice and only indexes the arrays have |
| `Compile.CompiledHas` | internal/agent/policy_apply.go:408-540 | the populated slot holds exactly what the five lists say, and zero rules elsewhere |
| `DataPlane.RewriteEthAddrs` | bpf/xdp_data_plane.bpf.c:819-844 | succeeds iff the frame has 14 bytes, and then only bytes 0..11 change, to the two given addresses |
| `DataPlane.RedirectRewrites` | bpf/xdp_data_plane.bpf.c:957-999 | a frame is rewritten only after it parsed, always before a redirect, never before a pass |
| `DataPlane.BucketSharing` | bpf/xdp_data_plane.bpf.c:631-655 | two packets share a bucket of a rule iff they agree on protocol and on what the rule's dimension names, /24 for subnets |
| `XdpProgram.Cpu.CountPacket` | bpf/xdp_data_plane.bpf.c:220-246 | adds one packet and its length on this CPU under the packet's key, or starts the key if there is room |
| `XdpProgram.Cpu.CountAndSample` | bpf/xdp_data_plane.bpf.c:220-299 | counts the packet, and an event that was due and found no room as one more |
| `XdpProgram.Cpu.ApplyTokenBucket` | bpf/xdp_data_plane.bpf.c:657-751 | looks up or creates the key's state and applies the buckets; a key that cannot be inserted is over the limit |
| `XdpProgram.Cpu.ApplyRule` | bpf/xdp_data_plane.bpf.c:753-817 | drop decision, metadata, rate state and counters are those of the specified rule application |
| `XdpProgram.Cpu.Filter` | bpf/xdp_data_plane.bpf.c:896-957 | service, whitelist, blacklist, UDP port and neighbour checks in the program's order decide as specified |
| `XdpProgram.Cpu.Entry` | bpf/xdp_data_plane.bpf.c:846-1000 | the program in place yields the specified verdict, rate state, counters and frame bytes, for every frame and kernel state |
| `Refinement.GlobalLookup` | bpf/xdp_data_plane.bpf.c:455-496 | the global trie answers with the longest covering list entry, and only when there is one |
| `Refinement.ScopedLookup` | bpf/xdp_data_plane.bpf.c:469-511 | the service trie answers with the service's longest covering list entry, and only when there is one |
| `Refinement.WhitelistRefines` | bpf/xdp_data_plane.bpf.c:905-918 | whitelisting by the maps is: some whitelist entry for everyone or for this service covers the source |
| `Refinement.BlacklistRefines` | bpf/xdp_data_plane.bpf.c:920-933 | the cascade finds the service's own longest match, else the global one |
| `Refinement.ServicesRefine` | bpf/xdp_data_plane.bpf.c:896-903 | the allowlist lookup finds exactly the listed service the packet addresses |
| `Refinement.PortsRefine` | bpf/xdp_data_plane.bpf.c:935-949 | a UDP source port is blocked iff the list blocks it for everyone or for this service |
| `Refinement.RulesRefine` | bpf/xdp_data_plane.bpf.c:553-563 | applying the array's rule is applying the listed rule; a cleared index acts as no rule |
| `Refinement.FilterRefines` | bpf/xdp_data_plane.bpf.c:896-957 | all lookups before the rules, on the compiled slot, in terms of the lists |
| `Refinement.EndToEnd` | bpf/xdp_data_plane.bpf.c:884-1000 | for every frame, the program on maps populated from a strictly valid snapshot returns the verdict, reason and interface the lists prescribe |
| `Refinement.ForwardingDropsUnreachable` | bpf/xdp_data_plane.bpf.c:951-994 | under an applied policy the neighbour-unresolved and redirect-error drops cannot happen |
| `Refinement.BuiltBlacklistIsUnion` | bpf/xdp_data_plane.bpf.c:920-933 | when every entry drops, a source is blacklisted iff some in-scope entry covers it |
| `Shielding.GovernsExactly` | bpf/xdp_data_plane.bpf.c:920-933 | an entry decides for a source iff it covers it in scope and no such entry outranks it: a service's own first, then the longer prefix |
| `Shielding.UnionAtExactly` | bpf/xdp_data_plane.bpf.c:920-933 | for a source the cascade drops iff some in-scope drop covers it, exactly when no entry with another action comes before every other there |
| `Shielding.UnionReadingExact` | bpf/xdp_data_plane.bpf.c:920-933 | for a whole service the same holds for every source iff no such entry comes first at a base, or just past the end, of a listed prefix: finitely many addresses to look at |
| `Shielding.ObserveShieldsFromDrop` | bpf/xdp_data_plane.bpf.c:920-933 | a policy and a source where it fails: an observe entry of one service inside a global drop |
| `Devmap.BindKeeps` | internal/agent/policy_apply.go:584-603 | binding the targets of an apply never changes a key that was bound |
| `Devmap.BindReaches` | internal/agent/policy_apply.go:584-603 | after binding, every target is in place |
| `Devmap.UndoLast` | internal/agent/policy_apply.go:566-582 | undoing the newest binding from its backup restores the devmap as it was before it |
| `ApplySafety.StepInv` | internal/agent/policy_apply.go:109-197 | every step of the apply machine, success or failure, crash or restart, keeps the invariant |
| `ApplySafety.RunInv` | internal/agent/policy_apply.go:109-197 | every state of every run satisfies it |
| `ApplyTheorems.PacketSeesOnePolicy` | bpf/xdp_data_plane.bpf.c:861-999 | a packet is decided exactly as by the live policy's own maps and bindings alone, although the devmap is shared between slots |
| `ApplyTheorems.NeverAMixture` | internal/agent/policy_apply.go:109-197 | in every state of every run the deciding policy is wholly the recorded one or wholly the one being applied |
| `ApplyTheorems.PacketsFollowTheLists` | internal/agent/policy_apply.go:109-197 | and the decision is the one that policy's lists prescribe |
| `ApplyTheorems.FailedApplyIsNoOp` | internal/agent/policy_apply.go:111-188 | a failed apply leaves configuration, active slot, devmap and record unchanged, and past the clear stage the inactive slot empty |
| `ApplyTheorems.CrashConsistent` | internal/agent/loader.go:182-207 | after a crash at any step and a restart on a verifying record, the reseeded slot holds exactly the record's policy, fully bound, under its version |
| `Maps.WrittenExactly` | internal/agent/policy_apply.go:408-540 | a slot written up to an entry is the finished slot iff only zero rules are left |
| `Maps.RemovedExactly` | internal/agent/policy_apply.go:249-275 | a slot in the middle of a clear is what it was iff nothing removed was stored, and empty iff everything stored was removed |
| `ApplyTheorems.HalfWrittenExactly` | internal/agent/policy_apply.go:122-154 | a slot that holds the first entries of a policy is that policy iff the rest are zero rules |
| `ApplyTheorems.InFlightKnown` | internal/agent/policy_apply.go:111-188 | in every phase of an apply into slot A: what the slot holds and exactly when that is the old content, the new policy or nothing |
| `ApplyTheorems.SlotAStays` | internal/agent/policy_apply.go:111-197 | otherwise slot A is as the last apply into it left it |
| `ApplyTheorems.DefaultRestartServesSlotA` | internal/agent/loader.go:182-196 | in every state of every run, a restart on a record that does not verify serves slot A: the record's policy if it named slot A, in general what the last apply into it left, whole exactly as that phase says |
| `ApplyTheorems.BoundForever` | internal/agent/policy_apply.go:584-603 | a devmap key bound when an apply succeeded keeps its target in every later state |
| `ApplyTheorems.ActiveServicesBound` | internal/agent/policy_apply.go:542-606 | in every state every active service's key leads to its own interface |
| `ApplyTheorems.AppliedIsLive` | internal/agent/policy_apply.go:162-197 | a successful apply makes record, configuration and active slot the new policy |
| `ApplyProgram.KeysToClear` | internal/agent/policy_apply.go:249-406 | the keys the clear deletes: everything stored in the hash and trie maps, then every rule index |
| `ApplyProgram.ListTargets` | internal/agent/policy_apply.go:542-565 | lists exactly the (devmap key, interface) pairs of the services, keys ascending |
| `ApplyProgram.Agent.ClearInactive` | internal/agent/policy_apply.go:111-113 | the clear loop, stopping at the first failure, is a run of the machine |
| `ApplyProgram.Agent.Populate` | internal/agent/policy_apply.go:119-154 | the populate loop, stopping at the first failure, is a run of the machine |
| `ApplyProgram.Agent.BindTargets` | internal/agent/policy_apply.go:584-605 | binds in key order, refuses to change a bound key, and keeps the backup of every binding made |
| `ApplyProgram.Agent.UnbindTargets` | internal/agent/policy_apply.go:566-582 | undoes the bindings newest first from the recorded backups |
| `ApplyProgram.Agent.Commit` | internal/agent/policy_apply.go:162-190 | flips the configuration, saves the record, and undoes everything when either fails |
| `ApplyProgram.Agent.ApplyPolicySnapshot` | internal/agent/policy_apply.go:46-197 | on success exactly the checked and completed policy is recorded and served under its version; on refusal or failure configuration, devmap, record and active slot are as before |
| `ApplyProgram.Agent.Reload` | internal/agent/loader.go:182-207 | crash and restart keep the record and are a run of the machine |
| `Canonical.CidrOrderFaithful` | internal/agent/policy_snapshot.go:316-327 | the branching comparison is the lexicographic order on the sort key |
| `Canonical.CanonicalUnique` | internal/agent/policy_snapshot.go:259-314 | reordering the lists of a snapshot whose sort keys tell entries apart leaves one normal form, whatever the unstable sort does |
| `Canonical.NormalFormIdempotent` | internal/agent/policy_snapshot.go:259-314 | normalising again changes nothing |
| `Canonical.ValidIsUnambiguous` | internal/agent/policy_snapshot.go:377-551 | the duplicate-key checks force distinct sort keys |
| `Canonical.VerifyAllowed` | internal/agent/policy_snapshot.go:190-241 | each answer of the verification under a fixed sorting routine is one the relational reading allows |
| `Canonical.SignedVerifies` | internal/agent/policy_snapshot.go:180-241 | what was signed verifies iff its content is valid |
| `Canonical.SignThenVerify` | internal/agent/policy_snapshot.go:180-241 | a signed snapshot with valid content verifies and can never be rejected, whatever the sorts do |
| `Canonical.SaveThenLoad` | internal/agent/snapshot.go:61-121 | a verified snapshot, reordered and saved, verifies again and can never be rejected |
| `Canonical.OneFormExactly` | internal/agent/policy_snapshot.go:259-314 | a snapshot has one normal form iff in each of its five lists the sort keys tell different entries apart |
| `Canonical.TiesBreakCanonicalForm` | internal/agent/policy_snapshot.go:308-313 | two different rules with one id and one priority, in any snapshot, give two normal forms |
| `Control.Store.RebuildSnapshot` | internal/control/snapshot.go:40-110 | appends exactly the planned row, or leaves the log alone |
| `Control.Store.RollbackSnapshot` | internal/control/snapshot.go:112-180 | appends exactly the planned row, or leaves the log alone |
| `Control.LatestIsLast` | internal/control/snapshot.go:252-269 | in a log of versions 1..n the greatest version is the last row |
| `Control.PerformInv` | internal/control/snapshot.go:40-180 | every operation appends one justified, genuine row with the next version or changes nothing |
| `Control.LogAlwaysSound` | internal/control/snapshot.go:40-180 | after any operations the log is exactly versions 1..n; a rebuild differs in content from its predecessor, a rollback has the content of an earlier row |
| `Control.LogAppendOnly` | internal/control/snapshot.go:40-180 | no row is ever changed or removed |
| `Control.RollbackInv` | internal/control/snapshot.go:112-180 | the row a rollback appends has the content of exactly the target row |
| `Control.RebuildSkipsExactly` | internal/control/snapshot.go:62-71 | with collision-free checksums a valid rebuild is skipped iff the content of the last row has not changed, up to list order |
| `Control.RollbackExact` | internal/control/snapshot.go:112-152 | a rollback is accepted iff its target exists, the 32-bit version counter is not exhausted and nothing in the target has expired |
| `Prepare.ResolveServices` | internal/agent/policy_apply.go:206-235 | fills in forwarding for exactly the services that need it, or stops when one cannot be resolved |
| `Prepare.PreparedFaithful` | internal/agent/policy_apply.go:76-107 | what is installed is the fetched policy list for list and entry for entry, with only missing forwarding data filled in and a fresh checksum, newer than the running version |
| `Fleet.FetchExact` | internal/control/snapshot.go:225-250 | an agent is offered a policy iff the log is longer than its own version, and then it is the newest |
| `Fleet.FreshAgentSkipsVersionOne` | internal/agent/snapshot.go:26-35 | an agent that never applied anything reports version 1 and is offered a policy iff the log has reached version 2 |
| `Fleet.Tick` | internal/agent/control_client.go:102-149 | a tick either disturbs nothing, or ends with the newest logged policy applied, recorded and served, at a strictly greater version |
| `Fleet.MoveInv` | internal/agent/control_client.go:102-149 | every log operation and every agent step keeps the joint invariant |
| `Fleet.ServedIsPublished` | internal/agent/control_client.go:102-149 | over every history, what decides packets is the policy the log holds under the same version, up to forwarding data, and packets follow its lists |
| `Fleet.VersionsIncrease` | internal/agent/policy_apply.go:162-197 | over every history the log only grows and the recorded version strictly increases whenever the record changes |
| `Selection.SelectBest` | internal/control/snapshot.go:525-571 | the selection loop keeps, per key, the first of the most preferred rows |
| `Selection.PicksAnyOrder` | internal/control/snapshot.go:525-571 | sorted lists picked from rearranged rows are the same list when ids are unique |
| `Builder.WhitelistOrdered` | internal/control/snapshot.go:757-765 | the whitelist preference is the order by narrower scope, smaller priority, smaller id |
| `Builder.BlacklistOrdered` | internal/control/snapshot.go:645-656 | the blacklist preference is the order by narrower scope, manual first, higher score, smaller id |
| `Builder.UdpOrdered` | internal/control/snapshot.go:767-772 | the UDP block preference is the order by narrower scope, smaller id |
| `Builder.RulesOrdered` | internal/control/snapshot.go:815-823 | the rule preference is the order by narrower scope, smaller priority, smaller id |
| `Builder.SnapshotWhitelist` | internal/control/snapshot.go:513-571 | fails iff a row is no IPv4 prefix; else the sorted list of exactly the most preferred row per key |
| `Builder.SnapshotBlacklist` | internal/control/snapshot.go:579-643 | fails iff a row is no IPv4 prefix; else the sorted list of exactly the most preferred row per key |
| `Builder.SnapshotUdpBlocks` | internal/control/snapshot.go:658-722 | the sorted list of exactly the most preferred row per key |
| `Builder.WhitelistAnyOrder` | internal/control/snapshot.go:525-571 | the whitelist does not depend on row order |
| `Builder.BlacklistAnyOrder` | internal/control/snapshot.go:602-643 | the blacklist does not depend on row order, ids being unique per table |
| `Builder.UdpAnyOrder` | internal/control/snapshot.go:670-722 | the UDP block list does not depend on row order |
| `Selection.RowOrderExactly` | internal/control/snapshot.go:525-571 | every arrangement of the rows keeps the same rows iff no two different rows tie for most preferred of one key |
| `Selection.ListOrderExactly` | internal/control/snapshot.go:525-571 | every arrangement builds the same list iff rows that tie for most preferred of one key make the same entry |
| `Builder.WhitelistOrderExactly` | internal/control/snapshot.go:525-571 | the whitelist does not depend on row order iff rows that tie for one key expire together |
| `Builder.BlacklistOrderExactly` | internal/control/snapshot.go:602-643 | the blacklist does not iff rows that tie for one key have one rule and expire together |
| `Builder.UdpOrderExactly` | internal/control/snapshot.go:670-722 | the UDP block list does not iff rows that tie for one key expire together |
| `Builder.TwinsFollowRowOrder` | internal/control/snapshot.go:757-765 | two rows equal but for their expiry build two different whitelists in their two orders |
| `Builder.WhitelistAccepted` | internal/agent/policy_snapshot.go:377-431 | built from unexpired rows with service ids, every entry passes the agent's checks and no two share a map key |
| `Builder.BlacklistAccepted` | internal/agent/policy_snapshot.go:377-431 | likewise, and every entry is a drop |
| `Builder.UdpListAccepted` | internal/agent/policy_snapshot.go:432-470 | likewise for UDP source port blocks |
| `Builder.BestRules` | internal/control/snapshot.go:788-804 | the first loop keeps the best global rule and the best rule of each service |
| `Builder.AssignDefaultRules` | internal/control/snapshot.go:787-813 | each service gets, in place, its own best rule, else the best global rule, else keeps what it had |
| `Builder.DefaultsAnyOrder` | internal/control/snapshot.go:787-823 | the default rule does not depend on the order of the rules |
| `Counters.SumCounterValues` | internal/agent/counters.go:16-23 | the sums over all CPUs, modulo 2^64 |
| `Counters.CollectDropCounters` | internal/agent/counters.go:25-65 | reports every key exactly once with its sums, sorted |
| `Counters.OneFinalCount` | bpf/xdp_data_plane.bpf.c:847-1000 | whatever happens to a packet, exactly one of its counts has a final action, that of its verdict, with the packet's clamped length |
| `Counters.EveryKeyConserved` | bpf/xdp_data_plane.bpf.c:220-246 | for every key, the sum over the CPUs is the number of times the program counted under it, bytes likewise |
| `Counters.CountersConserve` | bpf/xdp_data_plane.bpf.c:847-1000 | over any packets on any CPUs the packets reported under PASS, DROP and REDIRECT are the packets received and the bytes their clamped lengths, exactly while the totals fit 64 bits and modulo 2^64 always |

## Left out

- JSON, SHA-256, prefix, address and MAC text parsing: fields of `Policy.Env`, any functions; stored snapshots read back as written.
- Kernel hash, array, trie and devmap implementations: finite maps with their lookup specification; XDP's in-place program takes the trie lookups as parameters.
- Mid-packet re-reads of `runtime_config` and torn writes of it: one packet is one step.
- A missing `runtime_config` entry: an array map always has entry 0, so that half of the first test is dead.
- Random sampling and ring-buffer transport: whether an event is due and lost is an input; a denominator of zero means none is due.
- Counter map full: the conservation theorem assumes inserts succeed; `XdpProgram` models the failing insert.
- Capacity overrides and the memory budget of snapshot verification: the default capacities are used and the byte estimate is dropped.
- White space in texts: `Blank` knows space, tab, newline and carriage return, not the other Unicode spaces.
- The checksum of the wrapper around the saved policy, its time stamps, and the fallback that loads a bare policy file as the record: a record either is the one last saved or does not verify.
- Loss of pinned maps, and a saved policy whose entries expire before a restart: `ApplyTheorems.CrashConsistent` takes a record that still verifies.
- Failing rollback operations: the apply machine assumes they succeed, as the rollback closures ignore errors.
- Reason texts and authorisation of rebuild and rollback: only the log operations are modelled.
- The rest of the snapshot builder (rows of forwarding policies and services, feature flags, devmap key defaults) and its SQL: queries are lists of rows already filtered.
- Scope types are compared as stored; the trimming and lower-casing of other spellings is not modelled, the tables allow only the three.
- `fmt.Sprintf` keys of the builder and of feed deduplication: tuples of the printed fields.
- Neighbour and route probing: the resolver answers with an interface and two addresses or not at all; identity fields are copied by the code that builds its answer.
- The live rate state is looked up, updated as an object and stored back within one packet; sharing of the entry between CPUs is covered by the lock order of `RateRuns`.
- HTTP, sessions, roles, metrics, alerts, dashboards, event forwarding, snapshot diffs: plumbing and user interface.
