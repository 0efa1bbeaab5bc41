# Everoute: from group membership and security policies to packets, verified in Dafny

Everoute distributes endpoint-group memberships from a controller to agents,
and each agent turns security policies into OpenFlow rules. This project models
that pipeline and proves what it keeps over whole runs. `dafny verify
dfyconfig.toml` checks everything.

## What is modelled

* **Group membership** (`Groups`, `StringSlices`, `GroupDiff`, `GroupHistory`,
  `GroupStore`, `GroupSelection`): which endpoint events get a group reconciled,
  and the list of its members, which may have an endpoint twice; the diff of two
  memberships, its replay, and the reconcile step that stores a
  patch, then the snapshot, then prunes. Every API write may be lost, may arrive
  without an acknowledgement, or may succeed.
* **Replication to an agent** (`IPBlocks`, `GroupBlocks`, `GroupCache`,
  `GroupReplication`): the agent's group cache, fed with snapshots and patches in
  any order, and the flattening of members to addresses.
* **Rule cache** (`RuleCache`, `PolicySides`, `PolicySync`, `PolicyRuns`,
  `PolicyController`, `PolicyCompletion`, `RuleTranslation`): complete rules, the
  incremental update on a group patch, and the reconciler as a state machine in
  which the next patch is read outside the lock.
* **Ports and addresses** (`Uint16`, `PortText`, `PortRanges`, `FlattenPorts`,
  `CidrDiff`): port ranges from text to value/mask pairs in wrapping 16-bit
  arithmetic, and the subtraction of excepted CIDRs.
* **Datapath** (`FlowTables`, `PolicyBridge`, `PolicyVerdict`, `Connections`,
  `CtLabel`, `RuleReferences`, `DatapathMirror`, `DatapathSync`, `DatapathRuns`,
  `RestartRounds`): the policy bridge's tables under every tie-break, connections
  and their labels, the rule database along the agent's runs, in which policies,
  the global default and the agent's own addresses change, and restart rounds.
* **What policies mean** (`PolicyMeaning`, `PortSemantics`, `PolicySemantics`,
  `PolicyIntent`, `Enforcement`): `PolicyIntent` reads security policies off their
  own fields, the cached members and the packet, without any function of the agent;
  what it refuses is connected, through completion,
  port compilation, listing and translation, with all tiers, the agent's own
  addresses and the global default, to the packets that the switch drops, in every
  state of every run.
* **arptables** (`ArpTables`): the rule printer and the parser that swaps its
  arguments in place.

Objects that the program updates in place are classes here (`GroupStore`,
`GroupCache`, `RuleEntry`, `Reconciler`, `DpManager`, `PolicyBridge`), loops are
methods with invariants, and each is proved against a function or a property.

## Where the program does less than one might expect

Each of these has an exact condition, proved in both directions, and an input
that shows it.

* A group that names an endpoint and selects it as well lists it twice, and so does
  one with two endpoints that share a reference
  (`GroupSelection.FetchCurrGroupMembers`, `GroupSelection.NamedAndMatchedExample`).
  Such a list is committed again on every reconcile (`GroupDiff.ToGroupMembersPatch`,
  `GroupDiff.ListedTwiceExample`). If the entries differ and the first one is an
  update, replaying the patch ends at the first entry and the snapshot at the last
  (`GroupDiff.DiffReplaysIff`, `GroupDiff.ReplicasDisagreeExample`).
* Port 0 doubles as the wildcard: a lone port 0 compiles to every port and a
  longer range from 0 to nothing (`FlattenPorts.ExactIffZeroUnmarked`,
  `FlattenPorts.PortZeroExample`).
* When a group is on both sides of a rule and a patch both deletes and adds an
  address, a rule can be listed as old and as new and is then skipped, which
  leaves stale rules or omits wanted ones. When a deleted address also comes from
  a static block, rules that are still wanted are removed. `RuleCache.PatchStepIff`
  says exactly when a patch step is right; `RuleCache.StaleRuleExample` and
  `RuleCache.StaticBlockExample` are inputs on which it is not. For a group on both
  sides its condition speaks of the patched maps; where the touched addresses are
  the group's alone, the absence of a conflict (`RuleCache.PatchStepExactIff`) is the
  form that can be checked on the patch itself, and disjoint additions and deletions
  are enough (`RuleCache.DisjointNoConflict`).
* When a deleted address is also held by an untouched member, the subtraction
  can take that member's agents along (`GroupBlocks.FlattenCommutesIff`,
  `PolicySides.IncrementalIffClean`, `GroupBlocks.SharedAddressExample`).
* Adding a datapath rule whose key exists with another action forgets the new
  reference and leaves the old flow ids behind, as when the global default changes
  its action and keeps its mode (`RuleReferences.AddTracksIff`,
  `DatapathMirror.AddMirrorsIff`, `DatapathRuns.GlobalStep`,
  `DatapathRuns.FlipBreaks`, `DatapathMirror.ChangedDefaultExample`).
* Removing a name that a shared datapath rule does not have takes the rule's flows
  away although the rule stays (`RuleReferences.RunTracksIff`). The reconciler
  does so when an endpoint without an agent leaves an address that an endpoint on
  another agent has as well (`DatapathSync.SyncMirrors`,
  `DatapathSync.PhantomBreaks`, `DatapathSync.PhantomExample`).
* An egress rule named `x.namedport` shares its rule id with the named-port rule
  of an egress rule `x` (`PolicyCompletion.RuleIDsDistinctIff`,
  `PolicyCompletion.LostRuleExample`).
* An endpoint that only gains its first or loses its last named port does not
  trigger a reconcile of the group of all endpoints with named ports, and no group
  notices an endpoint whose namespace cannot be read
  (`GroupSelection.ChangesEnqueuedIff`, `GroupSelection.UnnoticedPortsExample`,
  `GroupSelection.UnnoticedDeletionExample`).
* CIDR subtraction panics on an exception that is larger than the block and
  starts inside it, which the webhook refuses, and on IPv4 exceptions in 16-byte
  form, which the webhook admits; and such an exception is lost if it starts inside
  one in 4-byte form (`CidrDiff.DiffFromCIDRs`, `CidrDiff.ExactIff`,
  `CidrDiff.LargerException`, `CidrDiff.MappedException`,
  `CidrDiff.HiddenException`).
* In an arptables specification, `!` behind an option ends up behind the value
  (`ArpTables.NegationSideMatters`, `ArpTables.WrongSideExample`).
* A tier-1 monitor rule has no table, and installing one calls a method on nil
  (`PolicyBridge.PolicyBridge.AddMicroSegmentRule`,
  `PolicyBridge.MonitorTier1Example`).
* The comment on the established-drop flow speaks of label bit 127, while the
  flow matches the byte 0x08 at index 0 of the label. Which bit that is depends
  on the OpenFlow library. The model takes the bit as a parameter: bit 127
  works, and no other bit does (`Connections.ConnectionsRemember`,
  `Connections.OtherBitsForget`).

## Model

| member | source | states |
|---|---|---|
| `GroupSelection.FilteredIffSelected` | pkg/controller/group/group_controller.go:311-369 | for admitted groups, the groups found for an endpoint are exactly those whose member computation selects it, and none if its namespace cannot be read |
| `GroupSelection.ChangesEnqueuedIff` | pkg/controller/group/group_controller.go:126-193 | an endpoint event that changes a membership enqueues the group iff not only the presence of named ports changed and the namespace can be read |
| `GroupSelection.UnnoticedDeletionExample` | pkg/controller/group/group_controller.go:313-318 | the deletion of an endpoint that a group names goes unnoticed once the namespace is gone |
| `GroupSelection.UnnoticedPortsExample` | pkg/controller/group/group_controller.go:140-165 | an endpoint that loses its only named port stays in the group of all endpoints with named ports |
| `GroupSelection.FetchCurrGroupMembers` | pkg/controller/group/group_controller.go:514-610 | the list holds exactly the members that the group names or matches, each with the endpoint's own reference, addresses, agents and named ports, and each reference once iff the named endpoint is not matched as well and no two contributing endpoints share a reference |
| `GroupSelection.NamedAndMatchedExample` | pkg/controller/group/group_controller.go:551-581 | an admitted group that names and matches an endpoint lists it twice |
| `StringSlices.EqualStringSlice` | pkg/utils/utils.go:65-84 | sorting copies and comparing decides equality as multisets |
| `StringSlices.SortedUnique` | pkg/utils/utils.go:74-81 | a sorted list is determined by its multiset |
| `GroupDiff.ToGroupMembersPatch` | pkg/controller/group/group_controller.go:711-747 | for every list of current members: the updated list has the changed first entries, the added list new and repeated references with their last entry, the removed list what is gone; empty iff nothing changed and nothing is listed twice; replays to the current membership iff no last entry is overwritten by a first one |
| `GroupDiff.DiffRoundTrip` | pkg/controller/group/group_controller.go:711-795 | for lists without repetition: applying the diff of prev and curr to prev gives curr's references with equal IPs and agents |
| `GroupDiff.DiffEmptyIff` | pkg/controller/group/group_controller.go:750-754 | for lists without repetition: the patch is empty iff the memberships already agree |
| `GroupDiff.DiffReplaysIff` | pkg/controller/group/group_controller.go:711-795 | replaying the patch gives what the snapshot says iff, for each reference whose first entry is an update, the last entry looks the same |
| `GroupDiff.DiffEmptyIffDistinct` | pkg/controller/group/group_controller.go:711-754 | the patch is empty iff the memberships agree and no reference is repeated |
| `GroupDiff.SteadyIff` | pkg/controller/group/group_controller.go:711-795 | a list replays whatever was committed before it iff the first and the last entry of each reference look the same |
| `GroupDiff.ListedTwiceExample` | pkg/controller/group/group_controller.go:725-741 | an endpoint listed twice is added again although nothing changed |
| `GroupDiff.ReplicasDisagreeExample` | pkg/controller/group/group_controller.go:725-741 | two entries of one reference after which replay and snapshot differ |
| `Groups.EqualIPsIff` | pkg/utils/ip.go:30-40 | permutations of an address list count as equal, and for lists without repetition nothing else does |
| `Groups.ApplyPatchAgrees` | pkg/controller/group/group_controller.go:774-795 | applying a patch does not tell apart memberships that the diff does not |
| `GroupHistory.ReplayStopsAtGap` | pkg/controller/group/group_controller.go:757-772 | replay stops exactly at the first missing revision |
| `GroupHistory.ReplayFollowsHistory` | pkg/controller/group/group_controller.go:757-772 | replaying patches of a history stays on that history |
| `GroupStore.ApplyGroupMembersPatches` | pkg/controller/group/group_controller.go:757-772 | the loop computes the replay |
| `GroupStore.ReplayYieldsLast` | pkg/controller/group/group_controller.go:613-630 | a consistent store replays to the last committed membership |
| `GroupStore.GroupStore.CreatePatch` | pkg/controller/group/group_controller.go:665-681 | creating the patch commits the membership; lost or unacknowledged, the store stays consistent |
| `GroupStore.GroupStore.SyncGroupMembers` | pkg/controller/group/group_controller.go:632-663 | the stored revision never decreases, and the store stays consistent after each write if the snapshot is what was committed |
| `GroupStore.GroupStore.CleanupOldPatches` | pkg/controller/group/group_controller.go:685-708 | keeps the three nearest patches and every patch that replay still needs, deletes all older ones if nothing fails |
| `GroupStore.GroupStore.FetchPrevGroupMembers` | pkg/controller/group/group_controller.go:613-630 | returns the last committed membership and its revision |
| `GroupStore.GroupStore.ProcessEndpointGroupUpdate` | pkg/controller/group/group_controller.go:464-511 | for every list of members, whatever write fails: revision monotone, at most one membership committed, and none iff nothing changed and nothing is listed twice; store consistent and snapshot current unless a last entry is overwritten, and then snapshot and replay disagree |
| `GroupStore.GroupStore.ReconcileSerially` | pkg/controller/group/group_controller.go:464-511 | the store stays consistent over any number of serial reconciles of lists whose entries of one reference look the same; the history only grows |
| `IPBlocks.CidrIs` | pkg/agent/controller/policy/cache/helper.go:39-49 | the CIDR is the address with /32 iff it is four dotted numbers from 0 to 255, by the value of their digits, and with /128 otherwise |
| `IPBlocks.CidrInjective` | pkg/agent/controller/policy/cache/helper.go:39-49 | distinct addresses have distinct CIDRs |
| `IPBlocks.ApplyCountMap` | pkg/agent/controller/policy/cache/rule.go:331-360 | the two loops compute the subtraction and the addition address by address |
| `IPBlocks.ApplyCountExactIff` | pkg/agent/controller/policy/cache/rule.go:331-360 | the incremental update equals the merge of what is kept and what is added, static counts included, iff no kept agents or ports are lost or left over |
| `GroupBlocks.FlattenUnion` | pkg/agent/controller/policy/cache/group.go:254-263 | flattening a union of members merges the flattened parts |
| `GroupBlocks.AgreeFlattens` | pkg/agent/controller/policy/cache/group.go:245-266 | memberships that the diff does not tell apart flatten to the same addresses with the same agents |
| `GroupBlocks.FlattenCommutesIff` | pkg/agent/controller/policy/cache/group.go:87-192 | flattening commutes with patching iff every shared address survives the subtraction |
| `GroupBlocks.FlattenCommutes` | pkg/agent/controller/policy/cache/group.go:87-266 | it commutes when no address is shared, also for an address that moves between members |
| `GroupBlocks.SharedAddressExample` | pkg/agent/controller/policy/cache/rule.go:331-360 | two members share an address and an agent and one leaves: the update loses the address |
| `GroupCache.GroupCache.AddPatch` | pkg/agent/controller/policy/cache/group.go:63-83 | stores the patch unless it is older than the membership; over runs this is `GroupReplication.PendingIff` |
| `GroupCache.GroupCache.NextPatch` | pkg/agent/controller/policy/cache/group.go:87-151 | the patch of the cached revision, flattened to the addresses it adds and deletes |
| `GroupCache.GroupCache.ApplyPatch` | pkg/agent/controller/policy/cache/group.go:155-192 | applies the source patch and advances by one; fatal exactly on a revision mismatch |
| `GroupCache.GroupCache.AddGroupMembership` | pkg/agent/controller/policy/cache/group.go:202-233 | first snapshot wins and drops older patches |
| `GroupCache.GroupCache.DelGroupMembership` | pkg/agent/controller/policy/cache/group.go:236-242 | forgets the membership and every pending patch of the group; over runs this is `GroupReplication.DeletedStartsOver` |
| `GroupCache.GroupCache.ListGroupIPBlocks` | pkg/agent/controller/policy/cache/group.go:245-266 | returns the flattened membership with its revision |
| `GroupCache.GroupCache.Drain` | pkg/agent/controller/policy/policy_controller.go:99-128 | applying patches until none is due equals replaying everything delivered |
| `GroupReplication.StepReplicates` | pkg/agent/controller/policy/cache/group.go:63-233 | every delivery or application keeps the cache a replica of the history |
| `GroupReplication.RunReplicates` | pkg/agent/controller/policy/cache/group.go:63-233 | over any order, loss or duplication of deliveries the cached membership at revision r is the r-th committed one, and no pending patch is outdated |
| `GroupReplication.StepAdvances` | pkg/agent/controller/policy/cache/group.go:155-192 | revisions move by one, only by applying the patch made for them, and other groups do not move |
| `GroupReplication.DrainReachesGap` | pkg/agent/controller/policy/policy_controller.go:99-128 | draining stops exactly at the first undelivered revision, on the history |
| `GroupReplication.StoredIsGenuine` | pkg/controller/group/group_controller.go:632-681 | whatever the controller stores stays part of the history as it grows |
| `GroupReplication.CaughtUp` | pkg/controller/group/group_controller.go:613-630 | over every run of deliveries: once a snapshot and every patch from its revision on have been delivered, in any order, the agent drains to what the controller replays |
| `GroupReplication.PendingIff` | pkg/agent/controller/policy/cache/group.go:63-83 | over every run: a group is cached iff a snapshot has come, and the pending patches are exactly those delivered, before or after the snapshot, that the membership has not passed, each as it was delivered last |
| `GroupReplication.DeletedStartsOver` | pkg/agent/controller/policy/cache/group.go:236-242 | after a deletion every run of deliveries leaves the group as it would from an empty cache, and other groups as they were |
| `GroupReplication.DiffFits` | pkg/controller/group/group_controller.go:711-747 | a patch computed by the controller fits every replica that agrees with its base |
| `RuleCache.Generated` | pkg/agent/controller/policy/cache/rule.go:190-232 | a rule is generated iff its own pair of addresses is in the maps and emits it |
| `RuleCache.ListedSplit` | pkg/agent/controller/policy/cache/rule.go:190-249 | a rule is listed iff the rule itself and each of its two sides, taken alone, has what it needs |
| `RuleCache.PatchStepIff` | pkg/agent/controller/policy/cache/rule.go:280-329 | whoever else contributes to the touched addresses: installed minus old-not-new plus new-not-old equals ListRules after ApplyPatch iff each side keeps up with what the patch lists for it |
| `RuleCache.StaticBlockExample` | pkg/agent/controller/policy/cache/rule.go:280-310 | an address that is also in a static block loses its rules when the endpoint leaves |
| `RuleCache.SoleUpdate` | pkg/agent/controller/policy/cache/rule.go:331-360 | when touched addresses are the group's alone, the update exchanges deleted for added addresses |
| `RuleCache.SrcStepExact` | pkg/agent/controller/policy/cache/rule.go:280-310 | where the touched addresses are the group's alone, group on the source side: syncing the listed rules leaves exactly the rules of the updated map, also when Add and Del overlap |
| `RuleCache.DstStepExact` | pkg/agent/controller/policy/cache/rule.go:280-310 | where the touched addresses are the group's alone, the same for the destination side |
| `RuleCache.BothStepExactIff` | pkg/agent/controller/policy/cache/rule.go:280-310 | where the touched addresses are the group's alone, group on both sides: exact iff the patch has no conflict |
| `RuleCache.PatchStepExactIff` | pkg/agent/controller/policy/cache/rule.go:280-329 | where the touched addresses are the group's alone, installed minus old-not-new plus new-not-old equals ListRules after ApplyPatch, except exactly for conflicts of a group on both sides |
| `RuleCache.DisjointNoConflict` | pkg/agent/controller/policy/cache/rule.go:280-310 | disjoint Add and Del have no conflict |
| `RuleCache.StaleRuleExample` | pkg/agent/controller/policy/cache/rule.go:280-310 | a concrete patch after which a rule to a removed endpoint stays installed |
| `RuleCache.RuleEntry.GetPatchPolicyRules` | pkg/agent/controller/policy/cache/rule.go:280-310 | lists the rules of added and of deleted addresses without touching the entry |
| `RuleCache.RuleEntry.ApplyPatch` | pkg/agent/controller/policy/cache/rule.go:312-329 | updates maps and revisions of the sides whose revision matches |
| `PolicySides.GroupOnce` | pkg/agent/controller/policy/policy_controller.go:456-496 | however often peers name a group, it contributes once |
| `PolicySides.AroundPatch` | pkg/agent/controller/policy/policy_controller.go:456-496 | before and after a patch a side is what is kept, merged with what the patch deletes or adds |
| `PolicySides.IncrementalIffClean` | pkg/agent/controller/policy/policy_controller.go:456-496 | updating a side incrementally equals recomputing it iff every deleted address leaves its other contributions intact |
| `PolicySides.StaticCounts` | pkg/agent/controller/policy/policy_controller.go:469-474 | the static count of a network is its number of occurrences |
| `PolicySync.SyncHas` | pkg/agent/controller/policy/policy_controller.go:539-569 | which rules are installed after comparing two rule lists by name |
| `PolicySync.SoleTakes` | pkg/agent/controller/policy/cache/rule.go:280-310 | where the touched addresses are the group's alone, a rule takes a patch iff the group is not on both sides in conflict |
| `PolicySync.SyncOneRule` | pkg/agent/controller/policy/policy_controller.go:112-119 | syncing one patched rule keeps the installed rules equal to those listed by the cache |
| `PolicySync.SyncPolicy` | pkg/agent/controller/policy/policy_controller.go:247-291 | replacing a policy's rules and syncing keeps the installed rules equal to those listed by the cache |
| `PolicySync.SyncedInOrderExact` | pkg/agent/controller/policy/policy_controller.go:110-119 | the loop over the indexed rules keeps that, in whatever order |
| `PolicyRuns.FreshRuleTakes` | pkg/agent/controller/policy/policy_controller.go:112-121 | a freshly computed rule that is ready for a patch is, once patched, a freshly computed rule after it |
| `PolicyRuns.SoleReady` | pkg/agent/controller/policy/policy_controller.go:112-121 | a rule is ready if the touched addresses are the group's alone and the patch has no conflict |
| `PolicyRuns.ApplyReadIff` | pkg/agent/controller/policy/policy_controller.go:99-128 | after a patch step installed rules are exact and cached rules fresh iff every rule was ready for the patch |
| `PolicyRuns.StepSafe` | pkg/agent/controller/policy/policy_controller.go:99-128 | a patch read outside the lock is applied without nil access and without the fatal mismatch |
| `PolicyRuns.StepInv` | pkg/agent/controller/policy/policy_controller.go:73-128 | every step keeps installed rules exact, cached rules fresh and read patches current |
| `PolicyRuns.EveryStateExact` | pkg/agent/controller/policy/policy_controller.go:73-128 | over every interleaving: installed names equal the union of ListRules, every rule equals a fresh recomputation including revisions, the fatal branch is unreachable |
| `PolicyRuns.EverySimpleStateExact` | pkg/agent/controller/policy/policy_controller.go:73-128 | the same over every run in which, before each patch is applied, the touched addresses are seen to be the group's alone and, for a group on both sides, none is both added and deleted |
| `PolicyRuns.EveryStateReplicates` | pkg/agent/controller/policy/policy_controller.go:99-128 | in the same runs every cached membership is the committed one of its revision |
| `PolicyController.Reconciler.GetPeersGroupsAndIPBlocks` | pkg/agent/controller/policy/policy_controller.go:456-496 | gathers revisions and addresses of the peers, and fails iff a peer does not resolve |
| `PolicyController.Reconciler.CompareAndApply` | pkg/agent/controller/policy/policy_controller.go:539-569 | the loop over names leaves the synced rules installed |
| `PolicyController.Reconciler.ProcessPolicyUpdate` | pkg/agent/controller/policy/policy_controller.go:247-291 | replaces the policy's rules, or changes nothing when a peer does not resolve |
| `PolicyController.Reconciler.CleanPolicyDependents` | pkg/agent/controller/policy/policy_controller.go:231-245 | removes the policy's rules from cache and datapath |
| `PolicyController.Reconciler.ReadNextPatch` | pkg/agent/controller/policy/policy_controller.go:99-105 | reads the next patch without changing the caches |
| `PolicyController.Reconciler.ApplyReadPatch` | pkg/agent/controller/policy/policy_controller.go:107-121 | performs the locked step, never the fatal branch |
| `PolicyCompletion.CompleteRules` | pkg/agent/controller/policy/policy_controller.go:307-453 | the loops build the ingress, egress and default rules, or fail on a bad port range; what these mean is read off the policy by `PolicyIntent.AllowsIff` and `PolicyIntent.StopsIff` |
| `PolicyCompletion.RuleIDsDistinctIff` | pkg/agent/controller/policy/policy_controller.go:326-453 | the rule ids of an admitted policy are distinct iff no egress rule is named like another one's named-port rule |
| `PolicyCompletion.LostRuleExample` | pkg/agent/controller/policy/policy_controller.go:413-427 | egress rules "x" and "x.namedport" with distinct names and a shared rule id |
| `RuleTranslation.FlowKeyRoundTrip` | pkg/agent/controller/policy/policy_controller_helper.go:123-127 | the flow key comes back out of a rule name whatever dashes the rule id has |
| `RuleTranslation.RuleNamesInjective` | pkg/agent/controller/policy/cache/rule.go:271-275 | a rule name determines rule id and flow key |
| `RuleTranslation.ListedPriorities` | pkg/agent/controller/policy/policy_controller_helper.go:33-61 | whatever a policy lists is an allow at 100 or a deny at 70 |
| `RuleTranslation.PolicyIsUpdate` | pkg/agent/controller/policy/policy_controller.go:271-291 | a policy without name clash is a proper update: every rule keeps its place in the cache |
| `PortText.UnmarshalReads` | pkg/agent/controller/policy/cache/helper.go:63-87 | a text is read as the range b to e iff it is empty and both are 0, or one or two numbers whose place values, cut off at 65535, are b and e in order; anything else is an error |
| `PortText.PrintedPortReads` | pkg/agent/controller/policy/cache/helper.go:63-87 | every port and every range of ports, printed in decimal, is read back as itself |
| `PortText.AdmittedIffFaithful` | pkg/webhook/validates/crd_validate.go:464-502 | the webhook admits a text iff the agent reads every piece as the numbers it denotes by place value, without error or saturation |
| `PortRanges.PosToMask` | pkg/agent/controller/policy/policy_controller_helper.go:133-140 | the mask with the given number of leading ones |
| `PortRanges.CalPortRangeMask` | pkg/agent/controller/policy/policy_controller_helper.go:142-178 | terminates; for a range from 1 or more the pairs match exactly the range, are pairwise disjoint and at most 30, with block sizes that strictly rise to a peak and strictly fall after it, across the wrap at 65536 |
| `PortRanges.NextPhase` | pkg/agent/controller/policy/policy_controller_helper.go:152-177 | each new block is larger than all before it, the first one past the peak, or smaller than the one before it |
| `FlattenPorts.ProcessFlattenPorts` | pkg/agent/controller/policy/policy_controller_helper.go:180-206 | the runs of the bitmap compile to rules that match what the bitmap compiles to, port 0 included |
| `FlattenPorts.ExactIffZeroUnmarked` | pkg/agent/controller/policy/policy_controller_helper.go:142-206 | the compiled rules match exactly the marked ports iff port 0 is unmarked |
| `FlattenPorts.PortZeroExample` | pkg/agent/controller/policy/policy_controller_helper.go:142-206 | a lone port 0 compiles to port 80 too, and the ports 0 and 1 to nothing |
| `FlattenPorts.Flatten` | pkg/agent/controller/policy/policy_controller_helper.go:208-272 | fails iff a range is unreadable; otherwise matches the written TCP and UDP ports and ICMP, and its named entries are exactly the written names |
| `FlattenPorts.FlattenExactIff` | pkg/agent/datapath/utils.go:191-216 | under matchIPTuple a packet matches some compiled rule iff its port is in the union of the written ranges, exactly when no range includes port 0 |
| `CidrDiff.DiffFromCIDR` | third_party/netutil/ip.go:66-107 | the sibling blocks cover the block without the exception, disjointly; panics iff the mask of the exception is shorter, or longer and in 16-byte IPv4 form |
| `CidrDiff.MergeCIDRs` | third_party/netutil/ip.go:109-130 | sorts by mask, drops networks that start inside earlier ones, and covers the same addresses but for 16-byte IPv4 networks that start inside a 4-byte one |
| `CidrDiff.DiffFromCIDRs` | third_party/netutil/ip.go:34-62 | the result covers exactly the block outside all exceptions that survive merging, no address twice; panics iff diffFromCIDR would on the block and a merged exception; for blocks that the webhook admits, iff a 16-byte IPv4 exception survives |
| `CidrDiff.ExactIff` | third_party/netutil/ip.go:34-62 | the result is the block without all exceptions iff every address of a lost exception is in another one |
| `CidrDiff.LargerException` | third_party/netutil/ip.go:80 | 10.0.0.0/24 except 10.0.0.0/16 panics |
| `CidrDiff.MappedException` | third_party/netutil/ip.go:83 | ::ffff:10.0.0.0/104 except ::ffff:10.0.0.0/112 passes the webhook and panics |
| `CidrDiff.HiddenException` | third_party/netutil/ip.go:117-128 | 0.0.0.0/0 except 10.0.0.0/24 and ::ffff:10.0.0.0/104 passes the webhook and forgets the second exception |
| `FlowTables.BestExists` | pkg/agent/datapath/policyBridge.go:172-309 | if some flow matches, there is one of highest priority |
| `PolicyBridge.PolicyBridge.BridgeInit` | pkg/agent/datapath/policyBridge.go:72-108 | installs the tables that the verdict rests on |
| `PolicyBridge.PolicyBridge.AddMicroSegmentRule` | pkg/agent/datapath/policyBridge.go:509-621 | adds exactly one flow to the rule's table, refuses unparsable addresses and unknown actions, and crashes exactly on tier-1 monitor rules |
| `PolicyBridge.MonitorTier1Example` | pkg/agent/datapath/policyBridge.go:509-571 | a tier-1 monitor rule crashes a fresh bridge |
| `PolicyBridge.CommitStage` | pkg/agent/datapath/policyBridge.go:208-268 | table 70: labelled packets are dropped, new ones committed unless denied TCP without SYN, for every tie-break |
| `PolicyBridge.DropStage` | pkg/agent/datapath/policyBridge.go:270-306 | table 71 drops exactly on register value 0x20 |
| `PolicyBridge.MonitorStage` | pkg/agent/datapath/policyBridge.go:474-500 | a monitor table passes every packet on and touches only label bits below the deny bit |
| `PolicyBridge.WorkStage` | pkg/agent/datapath/policyBridge.go:442-473 | a work table decides by its matching rules of top priority, or passes on |
| `PolicyVerdict.Verdict` | pkg/agent/datapath/policyBridge.go:110-128 | from direction selection on: the outcome, commit and label are those of the first tier with a matching work rule, for every tie-break |
| `PolicyVerdict.NewPacketDroppedIff` | pkg/agent/datapath/policyBridge.go:110-423 | a new unlabelled packet is dropped iff the first tier with a matching work rule has a deny on top, otherwise forwarded to the other port |
| `PolicyVerdict.MonitorNeverDecides` | pkg/agent/datapath/policyBridge.go:474-500 | adding or removing monitor rules never changes the verdict |
| `PolicyVerdict.EstablishedPacket` | pkg/agent/datapath/policyBridge.go:173-185 | an established packet is judged by its label alone and commits nothing |
| `PolicyMeaning.PortAdmitsIff` | pkg/agent/controller/policy/cache/rule.go:396-411 | a port admits a packet iff a port it resolves to matches; a named port by the numbers the destination gives that name for that protocol |
| `PolicyMeaning.ListedIffMeant` | pkg/agent/controller/policy/cache/rule.go:190-249 | some listed rule matches a packet in a direction iff the complete rule means it: a pair of distinct addresses, one of each side, local where the direction is enforced, on an admitted port |
| `PolicyMeaning.TopOf` | pkg/constants/constants.go:20-40 | among generated rules the top one denies iff there is no whitelist or allow rule and a default drop or, failing that, a global drop |
| `PolicyMeaning.HitPriorities` | pkg/agent/controller/policy/policy_controller_helper.go:33-61 | in each tier a packet hits an allow at 100 or a deny at 70 iff some rule of the tier means it, the whitelist at 120 and the global drop at 40 in the third tier only |
| `PolicyMeaning.PoliciesDeny` | pkg/agent/datapath/policyBridge.go:424-504 | with rules in all tiers and modes, the agent's own addresses and the global default: the flows deny a packet iff the rules do, tier0 before tier1 before tier2 by their names, and monitor rules never |
| `PolicyMeaning.TableOf` | pkg/agent/datapath/policyBridge.go:436-504 | the table of a rule by its tier name, mode and direction: 20, 25, 30 for egress and 50, 55, 60 for ingress, one less for monitor rules, none for tier0 monitor rules |
| `PolicyMeaning.PoliciesEnforced` | pkg/agent/datapath/policyBridge.go:110-423 | on the switch, for every tie-break, a new packet is dropped iff that is so, and otherwise leaves through the other port |
| `PortSemantics.CompiledAdmits` | pkg/agent/controller/policy/policy_controller_helper.go:208-272 | the compiled ports admit a packet to a destination iff the written ones do: numbers, ICMP, and names as the destination resolves them |
| `PolicySemantics.SpecMembers` | pkg/agent/controller/policy/policy_controller.go:307-453 | the completed rules are those of the ingress and egress rules of enabled directions and their defaults, and no others |
| `PolicySemantics.SpecActions` | pkg/agent/controller/policy/policy_controller.go:325-450 | all rules of a policy share its tier and mode; only the defaults drop, one per enabled direction and never symmetric |
| `PolicySemantics.TierMeans` | pkg/agent/controller/policy/policy_controller.go:307-453 | in each tier, some completed rule allows a packet iff some policy admits it, and some drops it iff some policy isolates the endpoint |
| `PolicySemantics.PoliciesDecide` | pkg/agent/controller/policy/policy_controller.go:307-453 | from policies to packets: for any policies in any tiers and modes that have a table, with own addresses and global default, a new packet is dropped on the switch iff the policies, with their ports as written, refuse it |
| `PolicyIntent.SideIs` | pkg/agent/controller/policy/policy_controller.go:456-496 | an address is in the map of some peers iff one of them is a block with it or a cached member of one of them has it; it is local and names ports as those members say |
| `PolicyIntent.PortsSayIff` | pkg/agent/controller/policy/policy_controller_helper.go:208-272 | the compiled ports admit a packet iff the written numbers, or a name that a member at the destination gives to the packet's port, do |
| `PolicyIntent.AllowsIff` | pkg/agent/controller/policy/policy_controller.go:325-450 | completion admits a packet by a policy iff a written rule of a direction that the policy directs, by its own types, lets it go between its peers and the endpoints applied to |
| `PolicyIntent.StopsIff` | pkg/agent/controller/policy/policy_controller.go:325-450 | completion isolates an endpoint iff the policy drops by default, directs the direction and applies to the endpoint |
| `PolicyIntent.CompletesIff` | pkg/agent/controller/policy/policy_controller.go:307-324 | a policy completes iff the ports of all rules of the directions it is about can be read |
| `PolicyIntent.DirectionsCompleted` | pkg/apis/security/v1alpha1/helper.go:24-44 | there are complete rules of a direction iff the policy lists it or, listing none, it is ingress or there are egress rules, and the policy has a rule or a default drop there |
| `PolicyIntent.RefuseIff` | pkg/agent/controller/policy/policy_controller.go:307-453 | completion, compilation and listing refuse a packet iff the policies as written do |
| `PolicyIntent.PoliciesMean` | pkg/agent/datapath/policyBridge.go:110-504 | a new packet is dropped on the switch iff the policies as written refuse it, for every tie-break |
| `PolicyIntent.Tier0Decides` | pkg/agent/datapath/policyBridge.go:424-504 | a tier0 policy that stops a packet which no tier0 policy allows is final, whatever lower tiers and the global default say |
| `Enforcement.OnBridgeIs` | pkg/agent/datapath/multiBridgeDatapath.go:895-988 | a database that mirrors what is installed has exactly the flows of what is installed on the bridge, one per flow key and own address |
| `Enforcement.CompletedInForce` | pkg/agent/controller/policy/policy_controller.go:247-305 | in every state the cached rules are the completed rules of the policies in force, the last versions whose peers resolved |
| `Enforcement.EveryStateEnforces` | pkg/agent/controller/policy/policy_controller.go:73-128 | over every run of policy changes, deliveries, patches, global defaults and own addresses, and for every tie-break: a bridge with the flows that the datapath knows drops a new packet iff the policies in force, as written, refuse it, given the cached memberships |
| `Connections.EveryLabelTells` | pkg/agent/datapath/policyBridge.go:250-261 | over every run the label's deny bit is the verdict on the committing packet |
| `Connections.ConnectionsRemember` | pkg/agent/datapath/policyBridge.go:172-309 | established packets are dropped iff the committing packet was denied; a denied connection stays denied; denied TCP without SYN commits nothing |
| `Connections.OtherBitsForget` | pkg/agent/datapath/policyBridge.go:236-242 | for every other label bit, on an initialised bridge with one default drop and a flow id as the allocator hands it out, there is a run in which an established packet of a denied connection passes |
| `Connections.DropAllBridge` | pkg/agent/datapath/policyBridge.go:72-108 | such a bridge comes out of BridgeInit and AddMicroSegmentRule |
| `CtLabel.DecodeFields` | pkg/utils/utils.go:162-200 | the decoder reads the round from bits 0-3 and the slots of 28 bits above |
| `CtLabel.DecodeExactIff` | pkg/utils/utils.go:162-200 | monitor and work ids come back, deny bit or not, iff they share a round and have sequence numbers |
| `CtLabel.DecodeSingle` | pkg/utils/utils.go:162-200 | the same for a single id |
| `CtLabel.MonitorOverwrites` | pkg/agent/datapath/policyBridge.go:575-580 | a later monitor load replaces an earlier one |
| `CtLabel.HighBits` | pkg/agent/datapath/policyBridge.go:594-609 | only a deny writes bit 127, and bits 88-126 are never written |
| `RuleReferences.AddTracksIff` | pkg/agent/datapath/multiBridgeDatapath.go:895-949 | adding keeps rules and flow ids inverse and records the reference, unless it takes the update branch |
| `RuleReferences.RemoveTracksIff` | pkg/agent/datapath/multiBridgeDatapath.go:951-991 | removing keeps them inverse unless the name is not a reference of a rule with flows |
| `RuleReferences.RunExact` | pkg/agent/datapath/multiBridgeDatapath.go:895-991 | over every proper sequence of calls a rule is stored iff a reference remains, and flow ids are the inverse of the stored flows |
| `RuleReferences.RunTracksIff` | pkg/agent/datapath/multiBridgeDatapath.go:895-991 | over every sequence of calls without update branch, with any removals: rules and flow ids are inverse iff no rule that stays was hit by the removal of a reference it does not have |
| `RuleReferences.RunExactIff` | pkg/agent/datapath/multiBridgeDatapath.go:895-991 | in the same runs the references are exactly those of the calls, and a rule's ids are indexed iff it was not hit |
| `RuleReferences.DpManager.AddEveroutePolicyRule` | pkg/agent/datapath/multiBridgeDatapath.go:895-949 | performs the add, or nothing when a bridge fails |
| `RuleReferences.DpManager.RemoveEveroutePolicyRule` | pkg/agent/datapath/multiBridgeDatapath.go:951-991 | performs the removal |
| `DatapathMirror.AddMirrorsIff` | pkg/agent/controller/policy/policy_controller.go:575-592 | next to the rules for own addresses: adding a rule by name is recorded in the datapath iff no rule with the same flow key has another action |
| `DatapathMirror.RemoveMirrors` | pkg/agent/controller/policy/policy_controller.go:571-573 | removing an installed rule by name removes exactly its reference |
| `DatapathMirror.AddAddressMirrors` | pkg/agent/datapath/multiBridgeDatapath.go:1025-1039 | adding the rule for an own address, in each direction, leaves the rest mirrored |
| `DatapathMirror.RemoveAddressMirrors` | pkg/agent/datapath/multiBridgeDatapath.go:1041-1053 | removing it does, too, and removing an address that no link has changes nothing |
| `DatapathMirror.ChangedDefaultExample` | pkg/agent/controller/policy/global_policy_controller.go:92-116 | a global default that turns from drop to allow leaves its old flow id behind |
| `DatapathSync.SyncMirrors` | pkg/agent/controller/policy/policy_controller.go:539-569 | one comparison of rule lists, its calls in any order: the database mirrors what is installed afterwards unless a name is removed that was never installed and whose flow key stays in use |
| `DatapathSync.PhantomBreaks` | pkg/agent/datapath/multiBridgeDatapath.go:966-988 | with such a removal last, the database does not mirror what is installed: the rule that stays loses its flows |
| `DatapathSync.PhantomExample` | pkg/agent/controller/policy/cache/rule.go:234-249 | a patch that makes the reconciler remove a rule that was never installed, and a database that breaks because another policy has a rule with the same flow key |
| `DatapathRuns.SoleNoPhantoms` | pkg/agent/controller/policy/cache/rule.go:280-310 | where the touched addresses are the group's alone, only installed rules are removed |
| `DatapathRuns.GlobalStep` | pkg/agent/controller/policy/global_policy_controller.go:36-58 | a change of the global default, its calls in any order, keeps the database in step unless only the action changes |
| `DatapathRuns.FlipBreaks` | pkg/agent/controller/policy/global_policy_controller.go:36-58 | when only the action changes, every order of the calls leaves stale flow ids behind |
| `DatapathRuns.EveryDatabaseMirrors` | pkg/agent/controller/policy/policy_controller.go:73-128 | over every run of the agent, with policies, the global default and own addresses changing and calls in any order: at rest the database mirrors all that is installed, with a flow on each bridge |
| `RestartRounds.RoundsDiffer` | pkg/agent/datapath/multiBridgeDatapath.go:1111-1151 | the stored round and its successor differ, across the flip from 15 to 1 too |
| `RestartRounds.StepInv` | pkg/agent/datapath/multiBridgeDatapath.go:630-728 | start, install, reconnect, purge, persist and crash keep every flow in the stored round or its successor |
| `RestartRounds.StoredRoundCounts` | pkg/agent/datapath/multiBridgeDatapath.go:1111-1151 | over every run with crashes anywhere, the stored round counts the rounds persisted: none, then 1 to 15 and again from 1 |
| `RestartRounds.EveryState` | pkg/agent/datapath/multiBridgeDatapath.go:630-728 | the same over every run, and when a round is persisted no flow of the previous one remains |
| `ArpTables.Parse` | pkg/utils/arptables/arptables.go:117-183 | swaps each "!" with its successor in place and parses the result |
| `ArpTables.ParseWritten` | pkg/utils/arptables/arptables.go:117-183 | any options, each possibly negated in front, parse to their values with "! " kept in front |
| `ArpTables.RoundTripIff` | pkg/utils/arptables/arptables.go:44-183 | parsing what a rule prints gives the rule back iff no value is an option token and only the last may be a bare "!" |
| `ArpTables.NegationSideMatters` | pkg/utils/arptables/arptables.go:123-151 | anywhere in a specification, "!" before an option and behind it give the same rule iff the field is set again later or the value is made of "!" |
| `ArpTables.WrongSideExample` | pkg/utils/arptables/arptables.go:123-151 | the two sides differ for -s 10.0.0.1 |

## Assumptions of the run theorem

`PolicyRuns.EveryStateExact` speaks about runs in which

* every delivered patch is the one published for its group and revision, one
  worker handles a group at a time, and groups are not deleted;
* when a patch is applied it fits the cached membership and every rule is ready
  for it: its sides stay clean and the patch gets each of its listed rules right.
  `PolicyRuns.ApplyReadIff` shows that this cannot be weakened, and
  `PolicyRuns.EverySimpleStateExact` replaces it by conditions on the patch;
* a policy's rule ids are its own and distinct, and datapath calls succeed.

`DatapathRuns.EveryDatabaseMirrors` and `Enforcement.EveryStateEnforces` add that
no rule is removed that was never installed while its flow key stays in use, that
the global default does not change its action alone, that an own address is
removed from the link that has it, and that a sync is not interleaved with other
calls.

## Left out

- Kubernetes clients, informers, work queues, webhook transport, gRPC, CLI, CNI and iptables: plumbing around the modelled steps.
- Stale reads of the API server and concurrent reconciles of one group: reconciles are serial and read what was written.
- int32 revisions: revisions are unbounded.
- `GroupStore.GroupStore.ReconcileSerially`: says nothing after a list whose entries of one reference differ; `GroupStore.GroupStore.ProcessEndpointGroupUpdate` says what one such reconcile does.
- Deletion and re-creation of a group under the same name: not part of the policy runs; for the group cache alone see `GroupReplication.DeletedStartsOver`.
- SHA-256 and JSON in HashName: a flow key is the hashed content itself, so hashes never collide.
- NamedPort.ToString: named ports are compared as values, although its conversion of port numbers 55296-57343 to runes makes their keys collide.
- Retry of partially failed datapath syncs and failing flow deletions.
- `PolicyBridge.PolicyBridge.BridgeInit`: leaves out input table 0, whose entries overlap at equal priority; packets start at table 1 or 10.
- Direction, tier and mode values outside the declared constants: they are enumerations here, so the errors for unknown values cannot arise.
- Real switch behaviour beyond priority lookup, and how ofctrl encodes a conntrack label match: the matched bit is a parameter.
- `CidrDiff.MergeCIDRs`: works on a sequence, not in place on the caller's slice.
- `RuleCache.RuleEntry`: the deep copies of the maps are value semantics here.
- `RuleReferences.DpManager.RemoveEveroutePolicyRule`: flow deletion always succeeds; and flow ids point to rule keys, so an id left behind cannot be told from one of a later rule with the same key.
- `PolicyController.Reconciler.ProcessPolicyUpdate`: takes rules by id, so a policy whose rule ids clash is not an input (see `PolicyCompletion.RuleIDsDistinctIff` for exactly which ones do).
- `PolicyCompletion.CompleteRules`: takes port compilation as a function; `PortSemantics.CompiledAdmits` is about the one that meets the contract of `FlattenPorts.Flatten`.
- `PolicySemantics.PoliciesDecide`: like `PolicyIntent.PoliciesMean`, is about policies that a bridge can hold, so not about tier-1 monitor policies, and about all rules that completion returns; where rule ids clash the cache keeps only one of the clashing rules (see `PolicyCompletion.RuleIDsDistinctIff`).
- `CidrDiff.DiffFromCIDR`: a difference block that happens to be ::ffff:0:0/96, from an IPv6 block around it with an exception inside ::fffe:0:0/96, stays an IPv6 block here, while net.IPNet reads it as all of IPv4.
- `FlattenPorts.FlattenExactIff`: named ports are resolved per endpoint in `RuleCache` and not part of this statement.
- ARP learning, NAT bridge, service proxy, Tower plugin, label selector evaluation: easy members or wrappers.
