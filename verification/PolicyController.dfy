/**
 The policy reconciler as it runs: rule cache, group cache and datapath updated
 in place, each method against the step of PolicyRuns that it performs.
 */
module PolicyController {
  import opened Strings
  import opened Groups
  import opened IPBlocks
  import opened GroupCache
  import opened RuleCache
  import opened PolicySides
  import opened PolicySync
  import opened PolicyRuns

  /** toRuleMap. */
  method ToRuleMap(rules: set<PolicyRule>) returns (m: map<RuleName, PolicyRule>)
    requires UniqueNames(rules)
    ensures m.Keys == Names(rules) && forall r :: r in rules ==> m[NameOf(r)] == r
    ensures forall n :: n in m ==> m[n] in rules && NameOf(m[n]) == n
  {
    m := map[];
    var todo := rules;
    while todo != {}
      invariant todo <= rules
      invariant m.Keys == Names(rules - todo) && forall r :: r in rules - todo ==> m[NameOf(r)] == r
      invariant forall n :: n in m ==> m[n] in rules && NameOf(m[n]) == n
      decreases todo
    {
      var r :| r in todo;
      m := m[NameOf(r) := r];
      todo := todo - {r};
    }
    assert rules - {} == rules;
  }

  lemma BumpMergedAt(start: IPBlockMap, blocks: IPBlockMap, net: string, ip: string)
    requires NoNil(start) && NoNil(blocks)
    ensures SameAt(Merge(start, Bump(blocks, net)), Bump(Merge(start, blocks), net), ip)
  {
    if ip == net && ip in start && ip !in blocks {
      assert start[ip].agentRef + {} == start[ip].agentRef && start[ip].ports + {} == start[ip].ports;
    }
  }

  lemma BumpMerged(start: IPBlockMap, blocks: IPBlockMap, net: string)
    requires NoNil(start) && NoNil(blocks)
    ensures Merge(start, Bump(blocks, net)) == Bump(Merge(start, blocks), net)
  {
    forall ip: string
      ensures SameAt(Merge(start, Bump(blocks, net)), Bump(Merge(start, blocks), net), ip)
    {
      BumpMergedAt(start, blocks, net, ip);
    }
    SameEverywhere(Merge(start, Bump(blocks, net)), Bump(Merge(start, blocks), net));
  }

  method AddStaticBlocks(start: IPBlockMap, nets: seq<string>) returns (blocks: IPBlockMap)
    requires NoNil(start)
    ensures blocks == Merge(start, StaticBlocks(nets))
  {
    blocks := start;
    MergeEmpty(start);
    for i := 0 to |nets|
      invariant NoNil(blocks) && blocks == Merge(start, StaticBlocks(nets[..i]))
    {
      assert nets[..i + 1][..i] == nets[..i];
      BumpMerged(start, StaticBlocks(nets[..i]), nets[i]);
      blocks := Bump(blocks, nets[i]);
    }
    assert nets[..|nets|] == nets;
  }

  /** Adds a group's addresses to those gathered so far. */
  method AddGroupBlocks(start: IPBlockMap, added: IPBlockMap) returns (blocks: IPBlockMap)
    requires NoNil(start) && NoStatic(added)
    ensures blocks == Merge(start, added)
  {
    blocks := AddLoop(start, added);
    AddedIsMerge(start, added);
  }

  lemma AddedIsMerge(start: IPBlockMap, added: IPBlockMap)
    requires NoNil(start) && NoNil(added)
    ensures Added(start, added) == Merge(start, added)
  {
    forall ip | ip in added
      ensures Combine(NewItem, added[ip]) == added[ip]
    {
      CombineNew(added[ip]);
    }
  }

  lemma PeersStep(peers: seq<Peer>, c: Cache, i: nat)
    requires i < |peers| && forall j :: 0 <= j <= i ==> PeerResolves(peers[j], c)
    ensures PeersBlocks(peers[..i + 1], c) == Merge(PeersBlocks(peers[..i], c), PeerBlocks(peers[i], c))
    ensures GroupsOf(Peers(peers[..i + 1]))
         == GroupsOf(Peers(peers[..i])) + (if peers[i].GroupPeer? then {peers[i].group} else {})
  {
    assert peers[..i + 1] == peers[..i] + [peers[i]];
    PeersBlocksAppend(peers[..i], peers[i], c);
  }

  class Reconciler {
    const agent: string
    const groupCache: GroupCache
    var ruleCache: Rules
    var installed: Installed
    /** The policies behind the cached rules, and the patches read but not yet applied. */
    ghost var specs: map<RuleID, RuleSpec>
    ghost var inFlight: map<string, GroupPatch>

    ghost function Now(): State
      reads this, groupCache
    {
      State(groupCache.State(), ruleCache, specs, installed, inFlight)
    }

    constructor (agent: string)
      ensures Now() == Initial && this.agent == agent && fresh(groupCache)
    {
      this.agent := agent;
      groupCache := new GroupCache();
      ruleCache, installed, specs, inFlight := map[], map[], map[], map[];
    }

    /** compareAndApplyPolicyRulesChanges, with datapath calls that succeed. */
    method CompareAndApply(oldRules: set<PolicyRule>, newRules: set<PolicyRule>)
      requires UniqueNames(oldRules) && UniqueNames(newRules)
      modifies this`installed
      ensures installed == Sync(old(installed), oldRules, newRules)
    {
      var newRuleMap := ToRuleMap(newRules);
      var oldRuleMap := ToRuleMap(oldRules);
      ApplyChanges(oldRuleMap, newRuleMap);
      ChangesAreSync(old(installed), installed, oldRules, newRules, oldRuleMap, newRuleMap);
    }

    /** Its loop over all names, in any order. */
    method ApplyChanges(oldRuleMap: map<RuleName, PolicyRule>, newRuleMap: map<RuleName, PolicyRule>)
      modifies this`installed
      ensures forall n :: AtName(installed, Changed(old(installed), oldRuleMap, newRuleMap, n), n)
    {
      var todo := newRuleMap.Keys + oldRuleMap.Keys;
      ghost var before := installed;
      while todo != {}
        invariant forall n :: n !in todo ==> AtName(installed, Changed(before, oldRuleMap, newRuleMap, n), n)
        invariant forall n :: n in todo ==> AtName(installed, before, n)
        decreases todo
      {
        var ruleName :| ruleName in todo;
        ApplyChange(ruleName, oldRuleMap, newRuleMap);
        todo := todo - {ruleName};
      }
    }

    /** The body of that loop for one name. */
    method ApplyChange(ruleName: RuleName, oldRuleMap: map<RuleName, PolicyRule>, newRuleMap: map<RuleName, PolicyRule>)
      modifies this`installed
      ensures installed == Changed(old(installed), oldRuleMap, newRuleMap, ruleName)
    {
      if ruleName in newRuleMap {
        if ruleName in oldRuleMap && oldRuleMap[ruleName] == newRuleMap[ruleName] {
          return;
        }
        installed := installed[ruleName := newRuleMap[ruleName]];
      } else if ruleName in oldRuleMap {
        installed := installed - {ruleName};
      }
    }

    method GetPeersGroupsAndIPBlocks(peers: seq<Peer>) returns (ok: bool, groups: map<string, nat>,
                                     ipBlocks: IPBlockMap)
      ensures ok <==> SideResolves(Peers(peers), groupCache.State())
      ensures ok ==>
        groups == SideRevisions(Peers(peers), groupCache.State())
        && ipBlocks == SideBlocks(Peers(peers), groupCache.State())
    {
      groups, ipBlocks := map[], map[];
      ghost var c := groupCache.State();
      for i := 0 to |peers|
        invariant forall j :: 0 <= j < i ==> PeerResolves(peers[j], c)
        invariant NoNil(ipBlocks) && ipBlocks == PeersBlocks(peers[..i], c)
        invariant groups.Keys == GroupsOf(Peers(peers[..i])) && forall g :: g in groups ==>
          g in c.members && groups[g] == c.members[g].revision
      {
        match peers[i]
        case BlockPeer(nets) =>
          PeersStep(peers, c, i);
          ipBlocks := AddStaticBlocks(ipBlocks, nets);
        case InvalidBlockPeer =>
          return false, map[], map[];
        case GroupPeer(group) =>
          var revision, ipAddrs, exist := groupCache.ListGroupIPBlocks(group);
          if !exist {
            return false, map[], map[];
          }
          PeersStep(peers, c, i);
          groups := groups[group := revision];
          ipBlocks := AddGroupBlocks(ipBlocks, ipAddrs);
        case EmptyPeer =>
          PeersStep(peers, c, i);
          MergeEmpty(ipBlocks);
      }
      assert peers[..|peers|] == peers;
      ok := true;
    }

    method ResolveSide(side: Side) returns (ok: bool, groups: map<string, nat>, ipBlocks: IPBlockMap)
      ensures ok <==> SideResolves(side, groupCache.State())
      ensures ok ==>
        groups == SideRevisions(side, groupCache.State()) && ipBlocks == SideBlocks(side, groupCache.State())
    {
      if side.Everything? {
        return true, map[], map["" := Nil];
      }
      ok, groups, ipBlocks := GetPeersGroupsAndIPBlocks(side.peers);
    }

    /** completePolicy on the rules of a policy; fails as a whole when a peer does not resolve. */
    method CompletePolicy(policy: map<RuleID, RuleSpec>) returns (r: Option<Rules>)
      ensures r.Some? <==> AllResolve(policy, groupCache.State())
      ensures r.Some? ==> r.value == CompleteAll(policy, groupCache.State())
    {
      var done: Rules := map[];
      var todo := policy.Keys;
      ghost var c := groupCache.State();
      while todo != {}
        invariant todo <= policy.Keys && done.Keys == policy.Keys - todo
        invariant forall id :: id in done ==> SpecResolves(policy[id], c) && done[id] == Complete(policy[id], c)
        decreases todo
      {
        var id :| id in todo;
        var spec := policy[id];
        var srcOk, srcGroups, srcIPBlocks := ResolveSide(spec.src);
        var dstOk, dstGroups, dstIPBlocks := ResolveSide(spec.dst);
        if !srcOk || !dstOk {
          return None;
        }
        done := done[id := CompleteRule(spec.shape, srcGroups, dstGroups, srcIPBlocks, dstIPBlocks)];
        todo := todo - {id};
      }
      r := Some(done);
    }

    /** processPolicyUpdate: a policy whose peers do not resolve yet changes nothing. */
    method ProcessPolicyUpdate(key: string, policy: map<RuleID, RuleSpec>, ghost world: World)
      requires Inv(Now(), world, agent) && Enabled(Now(), UpdatePolicy(key, policy), world, agent)
      modifies this
      ensures Inv(Now(), world, agent)
      ensures AllResolve(policy, groupCache.State()) ==>
        UniqueNames(ListAll(CompleteAll(policy, groupCache.State()), agent))
        && Now() == old(AfterUpdate(Now(), key, policy, agent))
      ensures !AllResolve(policy, groupCache.State()) ==> Now() == old(Now())
    {
      var completed := CompletePolicy(policy);
      if completed.None? {
        return;
      }
      UpdateInv(Now(), key, policy, world, agent);
      ReplacePolicy(key, completed.value, policy, world);
    }

    /** cleanPolicyDependents. */
    method CleanPolicyDependents(key: string, ghost world: World)
      requires Inv(Now(), world, agent)
      modifies this
      ensures Inv(Now(), world, agent)
      ensures UniqueNames(ListAll(CompleteAll(map[], groupCache.State()), agent))
      ensures Now() == old(AfterUpdate(Now(), key, map[], agent))
    {
      UpdateInv(Now(), key, map[], world, agent);
      ReplacePolicy(key, map[], map[], world);
    }

    method ReplacePolicy(key: string, newRules: Rules, ghost policy: map<RuleID, RuleSpec>, ghost world: World)
      requires Inv(Now(), world, agent) && AllResolve(policy, groupCache.State())
      requires newRules == CompleteAll(policy, groupCache.State())
      requires forall id :: id in policy ==> id.policy == key && policy[id].shape.ruleID == id
      requires UniqueNames(ListAll(newRules, agent))
      modifies this
      ensures Now() == old(AfterUpdate(Now(), key, policy, agent))
    {
      var oldRules := OfPolicy(ruleCache, key);
      ListAllUnique(oldRules, agent);
      CompareAndApply(ListAll(oldRules, agent), ListAll(newRules, agent));
      ruleCache := (ruleCache - oldRules.Keys) + newRules;
      specs := (specs - oldRules.Keys) + policy;
    }

    /** The part of ReconcilePatch before the lock is taken. */
    method ReadNextPatch(group: string, ghost world: World) returns (patch: Option<GroupPatch>)
      requires Inv(Now(), world, agent) && group !in inFlight
      modifies this`inFlight
      ensures patch == NextPatchOf(groupCache.State(), group)
      ensures inFlight == if patch.Some? then old(inFlight)[group := patch.value] else old(inFlight)
      ensures Inv(Now(), world, agent)
    {
      patch := groupCache.NextPatch(group);
      if patch.Some? {
        inFlight := inFlight[group := patch.value];
      }
    }

    /** The part of ReconcilePatch under the lock; the fatal branch is not taken. */
    method ApplyReadPatch(group: string, patch: GroupPatch, ghost world: World)
      returns (fatal: bool, ghost order: seq<RuleID>)
      requires Inv(Now(), world, agent) && group in inFlight
      requires inFlight[group] == patch && PatchReady(Now(), group, agent)
      modifies this, groupCache
      ensures old(Safe(Now(), ApplyRead(group, order)))
      ensures !fatal && Now() == old(AfterApplyRead(Now(), group, order, agent)) && Inv(Now(), world, agent)
    {
      ghost var start := Now();
      ApplyReadFresh(start, group, world, agent);
      fatal, order := FinishPatch(patch);
      ApplyReadInv(start, group, order, world, agent);
    }

    method FinishPatch(patch: GroupPatch) returns (fatal: bool, ghost order: seq<RuleID>)
      requires AllPatchable(ruleCache, patch) && HasNext(groupCache.State(), patch.groupName)
      requires patch.groupName in inFlight && inFlight[patch.groupName] == patch
      modifies this, groupCache
      ensures NoRepeats(order) && Elements(order) == Index(old(ruleCache), patch.groupName)
      ensures forall i :: 0 <= i < |order| ==> order[i] in old(ruleCache)
      ensures fatal <==> patch.revision != old(groupCache.State().members[patch.groupName].revision)
      ensures !fatal ==> Now() == old(AfterApplyRead(Now(), patch.groupName, order, agent))
    {
      order := ApplyToRules(patch);
      inFlight := inFlight - {patch.groupName};
      fatal := groupCache.ApplyPatch(patch);
    }

    /** The loop of ReconcilePatch over the rules of the group index. */
    method ApplyToRules(patch: GroupPatch) returns (ghost order: seq<RuleID>)
      requires AllPatchable(ruleCache, patch)
      modifies this`ruleCache, this`installed
      ensures NoRepeats(order) && Elements(order) == Index(old(ruleCache), patch.groupName)
      ensures forall i :: 0 <= i < |order| ==> order[i] in old(ruleCache)
      ensures ruleCache == PatchedRules(old(ruleCache), Elements(order), patch)
      ensures installed == SyncedInOrder(old(ruleCache), old(installed), order, agent, patch)
    {
      order := [];
      var todo := Index(ruleCache, patch.groupName);
      ghost var index, rules, before := todo, ruleCache, installed;
      while todo != {}
        invariant todo <= index && NoRepeats(order) && Elements(order) == index - todo
        invariant forall i :: 0 <= i < |order| ==> order[i] in rules
        invariant ruleCache == PatchedRules(rules, Elements(order), patch)
        invariant installed == SyncedInOrder(rules, before, order, agent, patch)
        decreases todo
      {
        var id :| id in todo;
        VisitOne(rules, before, order, id, agent, patch);
        PatchRule(id, patch);
        order := order + [id];
        todo := todo - {id};
      }
    }

    /** One turn of that loop. */
    method PatchRule(id: RuleID, patch: GroupPatch)
      requires id in ruleCache && Patchable(ruleCache[id], patch)
      modifies this`ruleCache, this`installed
      ensures UniqueNames(NewPolicyRules(old(ruleCache[id]), agent, patch))
      ensures ruleCache == old(ruleCache)[id := AfterPatch(old(ruleCache[id]), patch)]
      ensures installed
           == Sync(old(installed), OldPolicyRules(old(ruleCache[id]), agent, patch),
             NewPolicyRules(old(ruleCache[id]), agent, patch))
    {
      var rule := ruleCache[id];
      PatchListsOfRule(rule, agent, patch);
      OfRuleUnique(OldPolicyRules(rule, agent, patch), rule.shape);
      var entry := new RuleEntry(rule);
      var newRules, oldRules := entry.GetPatchPolicyRules(agent, patch);
      CompareAndApply(oldRules, newRules);
      entry.ApplyPatch(patch);
      ruleCache := ruleCache[id := entry.Value()];
    }
  }

  predicate AtName(m: Installed, m': Installed, n: RuleName) { (n in m <==> n in m') && (n in m ==> m[n] == m'[n]) }

  /** A rule listed under a name is added unless it is listed unchanged; one listed only as old is removed. */
  function Changed(installed: Installed, oldMap: map<RuleName, PolicyRule>, newMap: map<RuleName, PolicyRule>,
                   n: RuleName): Installed {
    if n in newMap && !(n in oldMap && oldMap[n] == newMap[n]) then installed[n := newMap[n]]
    else if n !in newMap && n in oldMap then installed - {n}
    else installed
  }

  lemma AllNames(m: Installed, m': Installed)
    requires forall n :: AtName(m, m', n)
    ensures m == m'
  {
    assert forall n :: AtName(m, m', n) ==> (n in m <==> n in m');
  }

  /** Changing name by name is syncing the two lists. */
  lemma ChangesAreSync(before: Installed, now: Installed, old_: set<PolicyRule>, new_: set<PolicyRule>,
                       oldMap: map<RuleName, PolicyRule>, newMap: map<RuleName, PolicyRule>)
    requires UniqueNames(old_) && UniqueNames(new_)
    requires oldMap.Keys == Names(old_) && forall x :: x in oldMap ==> oldMap[x] in old_ && NameOf(oldMap[x]) == x
    requires newMap.Keys == Names(new_) && forall x :: x in newMap ==> newMap[x] in new_ && NameOf(newMap[x]) == x
    requires forall n :: AtName(now, Changed(before, oldMap, newMap, n), n)
    ensures now == Sync(before, old_, new_)
  {
    forall n
      ensures AtName(now, Sync(before, old_, new_), n)
    {
      assert AtName(now, Changed(before, oldMap, newMap, n), n);
      SyncAt(before, old_, new_, oldMap, newMap, n);
    }
    AllNames(now, Sync(before, old_, new_));
  }

  /** What syncing does to one name. */
  lemma SyncAt(installed: Installed, old_: set<PolicyRule>, new_: set<PolicyRule>,
               oldMap: map<RuleName, PolicyRule>, newMap: map<RuleName, PolicyRule>, n: RuleName)
    requires UniqueNames(old_) && UniqueNames(new_)
    requires oldMap.Keys == Names(old_) && forall x :: x in oldMap ==> oldMap[x] in old_ && NameOf(oldMap[x]) == x
    requires newMap.Keys == Names(new_) && forall x :: x in newMap ==> newMap[x] in new_ && NameOf(newMap[x]) == x
    ensures n in newMap && !(n in oldMap && oldMap[n] == newMap[n]) ==>
      n in Sync(installed, old_, new_) && Sync(installed, old_, new_)[n] == newMap[n]
    ensures n in newMap && n in oldMap && oldMap[n] == newMap[n] ==>
      (n in Sync(installed, old_, new_) <==> n in installed)
      && (n in installed ==> Sync(installed, old_, new_)[n] == installed[n])
    ensures n !in newMap && n in oldMap ==> n !in Sync(installed, old_, new_)
    ensures n !in newMap && n !in oldMap ==> AtName(Sync(installed, old_, new_), installed, n)
  {
  }
}
