/**
 Runs of the policy reconciler: policy updates and deletions, deliveries of
 memberships and patches, and patch application in two parts, the read of the
 next patch outside the reconciler lock and the rest under it.
 */
module PolicyRuns {
  import opened Strings
  import opened Groups
  import opened GroupBlocks
  import opened GroupCache
  import opened RuleCache
  import opened PolicySides
  import opened PolicySync
  import GroupReplication
  import IPBlocks

  /** `specs` remembers the policies behind the cached rules; `inFlight` the patches read but not yet applied. */
  datatype State = State(cache: Cache, rules: Rules, specs: map<RuleID, RuleSpec>, installed: Installed,
                         inFlight: map<string, GroupPatch>)

  const Initial: State := State(Cache(map[], map[]), map[], map[], map[], map[])

  datatype Event =
    | PatchArrives(group: string, revision: nat, patch: GroupMembersPatch)
    | MembersArrive(group: string, gm: GroupMembers)
    | ReadPatch(group: string)
    | ApplyRead(group: string, order: seq<RuleID>)
    | UpdatePolicy(key: string, specs: map<RuleID, RuleSpec>)
    | DeletePolicy(key: string)

  /** The patch objects ever published, by group and revision. */
  type World = map<(string, nat), GroupMembersPatch>

  /** One side of a rule is ready for the next patch of the group. */
  ghost predicate SideReady(side: Side, g: string, c: Cache) {
    SideResolves(side, c) && HasNext(c, g) && (g in GroupsOf(side) ==> CleanSide(side.peers, g, c))
  }

  /** The two exact conditions on a rule: its sides are clean, and the patch gets every rule it lists right. */
  ghost predicate SpecReady(spec: RuleSpec, g: string, c: Cache, agent: string) {
    && SideReady(spec.src, g, c) && SideReady(spec.dst, g, c)
    && Takes(Complete(spec, c), agent, NextPatchOf(c, g).value)
  }

  /** The patch is made for the cached membership, and every rule is ready for it. */
  ghost predicate PatchReady(s: State, g: string, agent: string) {
    && HasNext(s.cache, g) && Fits(s.cache.members[g].endpoints, NextSource(s.cache, g))
    && forall id :: id in s.specs ==> SpecReady(s.specs[id], g, s.cache, agent)
  }

  /**
   For instance where, on every side that names the group, the touched addresses
   come from the group alone and, if it is on both, the patch has no conflict.
   */
  lemma SoleReady(spec: RuleSpec, g: string, c: Cache, agent: string)
    requires SpecResolves(spec, c) && HasNext(c, g) && Fits(c.members[g].endpoints, NextSource(c, g))
    requires g in GroupsOf(spec.src) ==> SoleContributor(spec.src.peers, g, c)
    requires g in GroupsOf(spec.dst) ==> SoleContributor(spec.dst.peers, g, c)
    requires g in GroupsOf(spec.src) && g in GroupsOf(spec.dst) ==>
      forall r :: !Conflict(spec.shape, agent, NextPatchOf(c, g).value, r)
    ensures SpecReady(spec, g, c, agent)
  {
    RevisionsAfterPatch(spec.src, g, c);
    RevisionsAfterPatch(spec.dst, g, c);
    if g in GroupsOf(spec.src) { SoleBlocks(spec.src, g, c); }
    if g in GroupsOf(spec.dst) { SoleBlocks(spec.dst, g, c); }
    SoleTakes(Complete(spec, c), agent, NextPatchOf(c, g).value);
  }

  /** What the environment may do: published patches only, one worker per group, policies with their own rule ids. */
  ghost predicate Enabled(s: State, e: Event, world: World, agent: string) {
    match e
    case PatchArrives(g, r, p) => (g, r) in world && world[(g, r)] == p
    case MembersArrive(_, _) => true
    case ReadPatch(g) => g !in s.inFlight && NextPatchOf(s.cache, g).Some?
    case ApplyRead(g, order) => g in s.inFlight && NoRepeats(order) && Elements(order) == Index(s.rules, g)
                                && PatchReady(s, g, agent)
    case UpdatePolicy(key, specs) => forall id :: id in specs ==> id.policy == key && specs[id].shape.ruleID == id
    case DeletePolicy(_) => true
  }

  /** No nil dereference and not the fatal branch of GroupCache.ApplyPatch. */
  ghost predicate Safe(s: State, e: Event) {
    e.ApplyRead? ==>
      && e.group in s.inFlight && AllPatchable(s.rules, s.inFlight[e.group])
      && (forall i :: 0 <= i < |e.order| ==> e.order[i] in s.rules)
      && HasNext(s.cache, e.group) && s.inFlight[e.group].revision == s.cache.members[e.group].revision
  }

  /** completePolicy succeeds: every peer resolves. */
  predicate AllResolve(specs: map<RuleID, RuleSpec>, c: Cache) {
    forall id :: id in specs ==> SpecResolves(specs[id], c)
  }

  function CompleteAll(specs: map<RuleID, RuleSpec>, c: Cache): Rules
    requires AllResolve(specs, c)
  {
    map id | id in specs :: Complete(specs[id], c)
  }

  ghost function AfterUpdate(s: State, key: string, specs: map<RuleID, RuleSpec>, agent: string): State
    requires AllResolve(specs, s.cache) && UniqueNames(ListAll(CompleteAll(specs, s.cache), agent))
  {
    var newRules := CompleteAll(specs, s.cache);
    var gone := OfPolicy(s.rules, key).Keys;
    s.(rules := (s.rules - gone) + newRules, specs := (s.specs - gone) + specs,
       installed := Sync(s.installed, ListAll(OfPolicy(s.rules, key), agent), ListAll(newRules, agent)))
  }

  /** The locked part of ReconcilePatch: every rule of the index, then the group cache. */
  ghost function AfterApplyRead(s: State, g: string, order: seq<RuleID>, agent: string): State
    requires Safe(s, ApplyRead(g, order))
  {
    s.(rules := PatchedRules(s.rules, Elements(order), s.inFlight[g]),
       installed := SyncedInOrder(s.rules, s.installed, order, agent, s.inFlight[g]),
       cache := AfterApplyPatch(s.cache, g), inFlight := s.inFlight - {g})
  }

  lemma FreshOwnIDs(specs: map<RuleID, RuleSpec>, c: Cache, agent: string)
    requires AllResolve(specs, c) && forall id :: id in specs ==> specs[id].shape.ruleID == id
    ensures OwnIDs(CompleteAll(specs, c)) && UniqueNames(ListAll(CompleteAll(specs, c), agent))
  {
    ListAllUnique(CompleteAll(specs, c), agent);
  }

  ghost function Next(s: State, e: Event, world: World, agent: string): State
    requires Enabled(s, e, world, agent) && Safe(s, e)
  {
    match e
    case PatchArrives(g, r, p) => s.(cache := AfterAddPatch(s.cache, g, r, p))
    case MembersArrive(g, gm) => s.(cache := AfterAddMembership(s.cache, g, gm))
    case ReadPatch(g) => s.(inFlight := s.inFlight[g := NextPatchOf(s.cache, g).value])
    case ApplyRead(g, order) =>
      AfterApplyRead(s, g, order, agent)
    case UpdatePolicy(key, specs) =>
      if AllResolve(specs, s.cache) then
        FreshOwnIDs(specs, s.cache, agent);
        AfterUpdate(s, key, specs, agent)
      else s
    case DeletePolicy(key) =>
      FreshOwnIDs(map[], s.cache, agent);
      AfterUpdate(s, key, map[], agent)
  }

  /** Every cached rule is a fresh computation from the group cache, addresses and revisions alike. */
  ghost predicate Fresh(rules: Rules, specs: map<RuleID, RuleSpec>, c: Cache) {
    && rules.Keys == specs.Keys
    && forall id :: id in specs ==>
         specs[id].shape.ruleID == id && SpecResolves(specs[id], c) && rules[id] == Complete(specs[id], c)
  }

  /** A patch read but not yet applied is still the next one. */
  ghost predicate Current(inFlight: map<string, GroupPatch>, c: Cache) {
    forall g :: g in inFlight ==> NextPatchOf(c, g) == Some(inFlight[g])
  }

  ghost predicate Published(c: Cache, world: World) {
    forall g, r :: g in c.patches && r in c.patches[g] ==> (g, r) in world && c.patches[g][r] == world[(g, r)]
  }

  /** At rest: the installed rules are exactly those that the fresh rule cache lists. */
  ghost predicate Inv(s: State, world: World, agent: string) {
    && Fresh(s.rules, s.specs, s.cache)
    && Exact(s.installed, s.rules, agent) && Tidy(s.installed)
    && Current(s.inFlight, s.cache) && Published(s.cache, world)
  }

  /** A side resolves to the same thing while its groups' memberships stay. */
  lemma SideStable(side: Side, c: Cache, c': Cache)
    requires SideResolves(side, c)
    requires forall g :: g in c.members ==> g in c'.members && c'.members[g] == c.members[g]
    ensures SideResolves(side, c')
    ensures SideRevisions(side, c') == SideRevisions(side, c) && SideBlocks(side, c') == SideBlocks(side, c)
  {
    GroupsCached(side, c);
    if side.Peers? { PeersStable(side.peers, c, c'); }
  }

  lemma {:induction false} PeersStable(peers: seq<Peer>, c: Cache, c': Cache)
    requires forall i :: 0 <= i < |peers| ==> PeerResolves(peers[i], c) && PeerResolves(peers[i], c')
    requires forall g :: g in c.members ==> g in c'.members && c'.members[g] == c.members[g]
    ensures PeersBlocks(peers, c') == PeersBlocks(peers, c)
  {
    if peers != [] { PeersStable(peers[..|peers| - 1], c, c'); }
  }

  /** Deliveries change no membership that is already cached. */
  lemma FreshStable(rules: Rules, specs: map<RuleID, RuleSpec>, c: Cache, c': Cache)
    requires Fresh(rules, specs, c)
    requires forall g :: g in c.members ==> g in c'.members && c'.members[g] == c.members[g]
    ensures Fresh(rules, specs, c')
  {
    forall id | id in specs
      ensures SpecResolves(specs[id], c') && rules[id] == Complete(specs[id], c')
    {
      SideStable(specs[id].src, c, c');
      SideStable(specs[id].dst, c, c');
    }
  }

  lemma PatchArrivalCurrent(inFlight: map<string, GroupPatch>, c: Cache, g: string, r: nat, p: GroupMembersPatch,
                            world: World)
    requires Current(inFlight, c) && Published(c, world) && (g, r) in world && world[(g, r)] == p
    ensures Current(inFlight, AfterAddPatch(c, g, r, p))
  {
  }

  lemma PatchArrivesInv(s: State, g: string, r: nat, p: GroupMembersPatch, world: World, agent: string)
    requires Inv(s, world, agent) && (g, r) in world && world[(g, r)] == p
    ensures Inv(s.(cache := AfterAddPatch(s.cache, g, r, p)), world, agent)
  {
    FreshStable(s.rules, s.specs, s.cache, AfterAddPatch(s.cache, g, r, p));
    PatchArrivalCurrent(s.inFlight, s.cache, g, r, p, world);
  }

  lemma MembersArrivalCurrent(inFlight: map<string, GroupPatch>, c: Cache, g: string, gm: GroupMembers)
    requires Current(inFlight, c)
    ensures Current(inFlight, AfterAddMembership(c, g, gm))
  {
  }

  lemma MembersArrivalPublished(c: Cache, g: string, gm: GroupMembers, world: World)
    requires Published(c, world)
    ensures Published(AfterAddMembership(c, g, gm), world)
  {
  }

  lemma MembersArriveInv(s: State, g: string, gm: GroupMembers, world: World, agent: string)
    requires Inv(s, world, agent)
    ensures Inv(s.(cache := AfterAddMembership(s.cache, g, gm)), world, agent)
  {
    FreshStable(s.rules, s.specs, s.cache, AfterAddMembership(s.cache, g, gm));
    MembersArrivalCurrent(s.inFlight, s.cache, g, gm);
    MembersArrivalPublished(s.cache, g, gm, world);
  }

  /** A fresh rule that is ready for the patch is, once patched, fresh against the patched group cache. */
  lemma FreshRuleTakes(spec: RuleSpec, g: string, c: Cache, agent: string)
    requires HasNext(c, g) && Fits(c.members[g].endpoints, NextSource(c, g)) && SpecReady(spec, g, c, agent)
    ensures var patch := NextPatchOf(c, g).value;
      && SpecResolves(spec, AfterApplyPatch(c, g))
      && AfterPatch(Complete(spec, c), patch) == Complete(spec, AfterApplyPatch(c, g))
  {
    RevisionsAfterPatch(spec.src, g, c);
    RevisionsAfterPatch(spec.dst, g, c);
    if g in GroupsOf(spec.src) { BlocksAfterPatch(spec.src, g, c); } else { BlocksUntouched(spec.src, g, c); }
    if g in GroupsOf(spec.dst) { BlocksAfterPatch(spec.dst, g, c); } else { BlocksUntouched(spec.dst, g, c); }
  }

  lemma ReadyTakes(s: State, g: string, world: World, agent: string)
    requires Inv(s, world, agent) && g in s.inFlight && PatchReady(s, g, agent)
    ensures s.inFlight[g] == NextPatchOf(s.cache, g).value
    ensures AllPatchable(s.rules, s.inFlight[g]) && forall id :: id in s.rules ==>
      Takes(s.rules[id], agent, s.inFlight[g])
  {
    assert NextPatchOf(s.cache, g) == Some(s.inFlight[g]);
    forall id | id in s.rules
      ensures Takes(s.rules[id], agent, s.inFlight[g])
    {
      assert SpecReady(s.specs[id], g, s.cache, agent);
    }
  }

  lemma OrderCached(rules: Rules, g: string, order: seq<RuleID>)
    requires Elements(order) == Index(rules, g)
    ensures forall i :: 0 <= i < |order| ==> order[i] in rules
  {
    forall i | 0 <= i < |order|
      ensures order[i] in rules
    {
      assert order[i] in Elements(order);
    }
  }

  /** Although the patch was read outside the lock, applying it never meets a stale revision. */
  lemma StepSafe(s: State, e: Event, world: World, agent: string)
    requires Inv(s, world, agent) && Enabled(s, e, world, agent)
    ensures Safe(s, e)
  {
    if e.ApplyRead? {
      ReadyTakes(s, e.group, world, agent);
      OrderCached(s.rules, e.group, e.order);
    }
  }

  lemma PatchedFresh(rules: Rules, specs: map<RuleID, RuleSpec>, c: Cache, g: string, agent: string)
    requires Fresh(rules, specs, c) && HasNext(c, g) && Fits(c.members[g].endpoints, NextSource(c, g))
    requires AllPatchable(rules, NextPatchOf(c, g).value) && forall id :: id in specs ==>
      SpecReady(specs[id], g, c, agent)
    ensures Fresh(PatchedRules(rules, rules.Keys, NextPatchOf(c, g).value), specs, AfterApplyPatch(c, g))
  {
    forall id | id in specs
      ensures SpecResolves(specs[id], AfterApplyPatch(c, g))
      ensures AfterPatch(rules[id], NextPatchOf(c, g).value) == Complete(specs[id], AfterApplyPatch(c, g))
    {
      FreshRuleTakes(specs[id], g, c, agent);
    }
  }

  lemma ApplyReadFresh(s: State, g: string, world: World, agent: string)
    requires Inv(s, world, agent) && g in s.inFlight && PatchReady(s, g, agent)
    ensures s.inFlight[g] == NextPatchOf(s.cache, g).value
    ensures AllPatchable(s.rules, s.inFlight[g]) && forall id :: id in s.rules ==>
      Takes(s.rules[id], agent, s.inFlight[g])
    ensures Fresh(PatchedRules(s.rules, s.rules.Keys, s.inFlight[g]), s.specs, AfterApplyPatch(s.cache, g))
  {
    ReadyTakes(s, g, world, agent);
    PatchedFresh(s.rules, s.specs, s.cache, g, agent);
  }

  /** Applying one group's patch leaves the next patches of other groups alone. */
  lemma ApplyCurrent(inFlight: map<string, GroupPatch>, c: Cache, g: string, world: World)
    requires Current(inFlight, c) && Published(c, world) && HasNext(c, g)
    ensures Current(inFlight - {g}, AfterApplyPatch(c, g)) && Published(AfterApplyPatch(c, g), world)
  {
    forall h | h in inFlight && h != g
      ensures NextPatchOf(AfterApplyPatch(c, g), h) == Some(inFlight[h])
    {
      assert NextPatchOf(c, h) == Some(inFlight[h]);
    }
  }

  lemma ApplyReadInv(s: State, g: string, order: seq<RuleID>, world: World, agent: string)
    requires Inv(s, world, agent) && Enabled(s, ApplyRead(g, order), world, agent) && Safe(s, ApplyRead(g, order))
    ensures Inv(Next(s, ApplyRead(g, order), world, agent), world, agent)
  {
    ApplyReadFresh(s, g, world, agent);
    SyncedInOrderExact(s.rules, s.installed, order, agent, s.inFlight[g]);
    IndexSuffices(s.rules, s.inFlight[g]);
    ApplyCurrent(s.inFlight, s.cache, g, world);
  }

  /** A side that recomputes to its patched self was clean. */
  lemma FreshMeansReady(side: Side, g: string, c: Cache)
    requires SideResolves(side, c) && HasNext(c, g) && Fits(c.members[g].endpoints, NextSource(c, g))
    requires SideResolves(side, AfterApplyPatch(c, g)) && (g in GroupsOf(side) ==> IPBlocks.NoNil(SideBlocks(side, c)))
    requires SideBlocks(side, AfterApplyPatch(c, g))
         == Patched(SideRevisions(side, c), SideBlocks(side, c), NextPatchOf(c, g).value)
    ensures SideReady(side, g, c)
  {
    RevisionsAfterPatch(side, g, c);
    if g in GroupsOf(side) {
      assert GroupPeer(g) in side.peers;
      IncrementalIffClean(side.peers, g, c);
    }
  }

  lemma SidesHaveItems(side: Side, g: string, c: Cache)
    requires SideResolves(side, c) && g in GroupsOf(side)
    ensures IPBlocks.NoNil(SideBlocks(side, c))
  {
  }

  /** An untouched rule takes any patch. */
  lemma UnindexedTakes(rule: CompleteRule, agent: string, patch: GroupPatch)
    requires !RefersTo(rule, patch.groupName)
    ensures Takes(rule, agent, patch)
  {
  }

  /** The conditions on a patch step are exact: the invariant holds after it iff every rule was ready. */
  lemma ApplyReadIff(s: State, g: string, order: seq<RuleID>, world: World, agent: string)
    requires Inv(s, world, agent) && Safe(s, ApplyRead(g, order))
    requires NoRepeats(order) && Elements(order) == Index(s.rules, g)
    requires Fits(s.cache.members[g].endpoints, NextSource(s.cache, g))
    ensures Inv(AfterApplyRead(s, g, order, agent), world, agent) <==> PatchReady(s, g, agent)
  {
    if PatchReady(s, g, agent) {
      ApplyReadInv(s, g, order, world, agent);
    }
    if Inv(AfterApplyRead(s, g, order, agent), world, agent) {
      forall id | id in s.specs
        ensures SpecReady(s.specs[id], g, s.cache, agent)
      {
        InvMeansReady(s, g, order, world, agent, id);
      }
    }
  }

  lemma InvMeansReady(s: State, g: string, order: seq<RuleID>, world: World, agent: string, id: RuleID)
    requires Inv(s, world, agent) && Safe(s, ApplyRead(g, order))
    requires NoRepeats(order) && Elements(order) == Index(s.rules, g)
    requires Fits(s.cache.members[g].endpoints, NextSource(s.cache, g)) && id in s.specs
    requires Inv(AfterApplyRead(s, g, order, agent), world, agent)
    ensures SpecReady(s.specs[id], g, s.cache, agent)
  {
    var spec, patch, c' := s.specs[id], s.inFlight[g], AfterApplyPatch(s.cache, g);
    assert NextPatchOf(s.cache, g) == Some(patch);
    if id in Elements(order) {
      ExactMeansTaken(s.rules, s.installed, order, agent, patch, id);
    } else {
      UnindexedTakes(s.rules[id], agent, patch);
    }
    IndexSuffices(s.rules, patch);
    assert AfterPatch(s.rules[id], patch) == Complete(spec, c') by {
      assert PatchedRules(s.rules, s.rules.Keys, patch)[id] == AfterPatch(s.rules[id], patch);
    }
    if g in GroupsOf(spec.src) { SidesHaveItems(spec.src, g, s.cache); }
    if g in GroupsOf(spec.dst) { SidesHaveItems(spec.dst, g, s.cache); }
    FreshMeansReady(spec.src, g, s.cache);
    FreshMeansReady(spec.dst, g, s.cache);
  }

  lemma UpdateFresh(s: State, key: string, specs: map<RuleID, RuleSpec>)
    requires Fresh(s.rules, s.specs, s.cache) && AllResolve(specs, s.cache)
    requires forall id :: id in specs ==> specs[id].shape.ruleID == id
    ensures var gone := OfPolicy(s.rules, key).Keys;
      Fresh((s.rules - gone) + CompleteAll(specs, s.cache), (s.specs - gone) + specs, s.cache)
  {
    var gone := OfPolicy(s.rules, key).Keys;
    var rules', specs' := (s.rules - gone) + CompleteAll(specs, s.cache), (s.specs - gone) + specs;
    assert rules'.Keys == specs'.Keys;
    forall id | id in specs'
      ensures specs'[id].shape.ruleID == id && SpecResolves(specs'[id], s.cache)
      ensures rules'[id] == Complete(specs'[id], s.cache)
    {
      if id in specs { assert specs'[id] == specs[id]; }
      else { assert specs'[id] == s.specs[id] && rules'[id] == s.rules[id]; }
    }
  }

  lemma UpdateInv(s: State, key: string, specs: map<RuleID, RuleSpec>, world: World, agent: string)
    requires Inv(s, world, agent) && AllResolve(specs, s.cache)
    requires forall id :: id in specs ==> id.policy == key && specs[id].shape.ruleID == id
    ensures UniqueNames(ListAll(CompleteAll(specs, s.cache), agent))
    ensures Inv(AfterUpdate(s, key, specs, agent), world, agent)
  {
    FreshOwnIDs(specs, s.cache, agent);
    UpdateFresh(s, key, specs);
    SyncPolicy(s.installed, s.rules, key, CompleteAll(specs, s.cache), agent);
    SyncTidy(s.installed, ListAll(OfPolicy(s.rules, key), agent), ListAll(CompleteAll(specs, s.cache), agent));
  }

  lemma StepInv(s: State, e: Event, world: World, agent: string)
    requires Inv(s, world, agent) && Enabled(s, e, world, agent)
    ensures Safe(s, e) && Inv(Next(s, e, world, agent), world, agent)
  {
    StepSafe(s, e, world, agent);
    match e
    case PatchArrives(g, r, p) => PatchArrivesInv(s, g, r, p, world, agent);
    case MembersArrive(g, gm) => MembersArriveInv(s, g, gm, world, agent);
    case ReadPatch(g) =>
    case ApplyRead(g, order) => ApplyReadInv(s, g, order, world, agent);
    case UpdatePolicy(key, specs) => if AllResolve(specs, s.cache) { UpdateInv(s, key, specs, world, agent); }
    case DeletePolicy(key) => UpdateInv(s, key, map[], world, agent);
  }

  /** A run: every event is enabled, and a step that is safe has its effect. */
  ghost predicate Behaviour(states: seq<State>, events: seq<Event>, world: World, agent: string) {
    && |states| == |events| + 1 && states[0] == Initial
    && forall i :: 0 <= i < |events| ==>
         Enabled(states[i], events[i], world, agent)
         && (Safe(states[i], events[i]) ==> states[i + 1] == Next(states[i], events[i], world, agent))
  }

  /**
   Over every interleaving: at rest the installed rules equal the union of what
   the cached rules list, each cached rule equals a fresh recomputation, and the
   fatal revision mismatch is unreachable.
   */
  lemma {:induction false} EveryStateExact(states: seq<State>, events: seq<Event>, world: World, agent: string, i: nat)
    requires Behaviour(states, events, world, agent) && i < |states|
    ensures Inv(states[i], world, agent)
    ensures i < |events| ==> Safe(states[i], events[i])
  {
    if i > 0 {
      EveryStateExact(states, events, world, agent, i - 1);
      StepInv(states[i - 1], events[i - 1], world, agent);
    }
    if i < |events| { StepSafe(states[i], events[i], world, agent); }
  }

  /** What can be seen before a patch is applied to a rule: sole contributors, and no address both added and deleted. */
  ghost predicate SimpleFor(spec: RuleSpec, g: string, c: Cache)
    requires HasNext(c, g)
  {
    && SpecResolves(spec, c)
    && (g in GroupsOf(spec.src) ==> SoleContributor(spec.src.peers, g, c))
    && (g in GroupsOf(spec.dst) ==> SoleContributor(spec.dst.peers, g, c))
    && (g in GroupsOf(spec.src) && g in GroupsOf(spec.dst) ==>
          NextPatchOf(c, g).value.add.Keys !! NextPatchOf(c, g).value.del.Keys)
  }

  /** As Enabled, with conditions on a patch that do not speak of its effect. */
  ghost predicate SimplyEnabled(s: State, e: Event, world: World, agent: string) {
    match e
    case ApplyRead(g, order) =>
      && g in s.inFlight && NoRepeats(order) && Elements(order) == Index(s.rules, g)
      && HasNext(s.cache, g) && Fits(s.cache.members[g].endpoints, NextSource(s.cache, g))
      && forall id :: id in s.specs ==> SimpleFor(s.specs[id], g, s.cache)
    case _ => Enabled(s, e, world, agent)
  }

  lemma SimpleIsEnabled(s: State, e: Event, world: World, agent: string)
    requires SimplyEnabled(s, e, world, agent)
    ensures Enabled(s, e, world, agent)
  {
    if e.ApplyRead? {
      var g := e.group;
      forall id | id in s.specs
        ensures SpecReady(s.specs[id], g, s.cache, agent)
      {
        SimpleReady(s.specs[id], g, s.cache, agent);
      }
    }
  }

  lemma SimpleReady(spec: RuleSpec, g: string, c: Cache, agent: string)
    requires HasNext(c, g) && Fits(c.members[g].endpoints, NextSource(c, g)) && SimpleFor(spec, g, c)
    ensures SpecReady(spec, g, c, agent)
  {
    if g in GroupsOf(spec.src) && g in GroupsOf(spec.dst) {
      forall r
        ensures !Conflict(spec.shape, agent, NextPatchOf(c, g).value, r)
      {
        DisjointNoConflict(spec.shape, agent, NextPatchOf(c, g).value, r);
      }
    }
    SoleReady(spec, g, c, agent);
  }

  ghost predicate Moves(s: State, e: Event, s': State, world: World, agent: string) {
    Enabled(s, e, world, agent) && Safe(s, e) ==> s' == Next(s, e, world, agent)
  }

  ghost predicate SimpleBehaviour(states: seq<State>, events: seq<Event>, world: World, agent: string) {
    && |states| == |events| + 1 && states[0] == Initial
    && forall i :: 0 <= i < |events| ==>
         SimplyEnabled(states[i], events[i], world, agent) && Moves(states[i], events[i], states[i + 1], world, agent)
  }

  /** The same over every run under conditions that can be checked before each patch is applied. */
  lemma EverySimpleStateExact(states: seq<State>, events: seq<Event>, world: World, agent: string, i: nat)
    requires SimpleBehaviour(states, events, world, agent) && i < |states|
    ensures Behaviour(states, events, world, agent) && Inv(states[i], world, agent)
    ensures i < |events| ==> Safe(states[i], events[i])
  {
    forall j | 0 <= j < |events|
      ensures Enabled(states[j], events[j], world, agent)
    {
      SimpleIsEnabled(states[j], events[j], world, agent);
    }
    EveryStateExact(states, events, world, agent, i);
  }

  /** The deliveries of a run follow the committed history of each group. */
  ghost predicate Faithful(e: Event, histories: map<string, seq<Membership>>) {
    match e
    case PatchArrives(g, r, p) =>
      g in histories && GroupReplication.Genuine(GroupReplication.PatchArrives(r, p), histories[g])
    case MembersArrive(g, gm) =>
      g in histories && GroupReplication.Genuine(GroupReplication.SnapshotArrives(gm), histories[g])
    case _ => true
  }

  ghost predicate AllReplicate(c: Cache, histories: map<string, seq<Membership>>) {
    forall g :: g in histories ==> GroupReplication.Replicates(c, g, histories[g])
  }

  lemma OtherGroupReplicates(c: Cache, c': Cache, g: string, history: seq<Membership>)
    requires GroupReplication.Replicates(c, g, history)
    requires PatchesOf(c', g) == PatchesOf(c, g)
    requires g in c'.members <==> g in c.members
    requires g in c.members ==> c'.members[g] == c.members[g]
    ensures GroupReplication.Replicates(c', g, history)
  {
  }

  /** The group part of a step is a replication step of the event's own group. */
  lemma StepAllReplicate(c: Cache, g: string, e: GroupReplication.Event, histories: map<string, seq<Membership>>)
    requires AllReplicate(c, histories) && g in histories && GroupReplication.Genuine(e, histories[g])
    ensures AllReplicate(GroupReplication.Step(c, g, e), histories)
  {
    var c' := GroupReplication.Step(c, g, e);
    forall h | h in histories
      ensures GroupReplication.Replicates(c', h, histories[h])
    {
      if h == g {
        GroupReplication.StepReplicates(c, g, e, histories[g]);
      } else {
        OtherGroupReplicates(c, c', h, histories[h]);
      }
    }
  }

  lemma StepReplicates(s: State, e: Event, world: World, agent: string, histories: map<string, seq<Membership>>)
    requires AllReplicate(s.cache, histories) && Enabled(s, e, world, agent) && Safe(s, e)
    requires Faithful(e, histories) && (e.ApplyRead? ==> e.group in histories)
    ensures AllReplicate(Next(s, e, world, agent).cache, histories)
  {
    match e
    case PatchArrives(g, r, p) => StepAllReplicate(s.cache, g, GroupReplication.PatchArrives(r, p), histories);
    case MembersArrive(g, gm) => StepAllReplicate(s.cache, g, GroupReplication.SnapshotArrives(gm), histories);
    case ApplyRead(g, _) => StepAllReplicate(s.cache, g, GroupReplication.PatchDue, histories);
    case _ =>
  }

  /** Over every run each cached membership is the committed one of its revision. */
  lemma {:induction false} EveryStateReplicates(
      states: seq<State>, events: seq<Event>, world: World, agent: string, histories: map<string, seq<Membership>>,
        i: nat)
    requires Behaviour(states, events, world, agent) && i < |states|
    requires forall j :: 0 <= j < |events| ==>
      Faithful(events[j], histories) && (events[j].ApplyRead? ==> events[j].group in histories)
    ensures AllReplicate(states[i].cache, histories)
  {
    if i > 0 {
      EveryStateReplicates(states, events, world, agent, histories, i - 1);
      EveryStateExact(states, events, world, agent, i - 1);
      StepReplicates(states[i - 1], events[i - 1], world, agent, histories);
    }
  }
}
