/**
 Syncing rule lists to the datapath by name, and why the two ways of producing
 the lists, patching and recomputing, leave the same rules installed.
 */
module PolicySync {
  import opened Groups
  import opened IPBlocks
  import opened GroupBlocks
  import opened GroupCache
  import opened RuleCache
  import opened PolicySides

  /** A rule of a policy before its peers are resolved. */
  datatype RuleSpec = RuleSpec(shape: RuleShape, src: Side, dst: Side)

  predicate SpecResolves(spec: RuleSpec, c: Cache) { SideResolves(spec.src, c) && SideResolves(spec.dst, c) }

  /** The complete rule computed afresh from the group cache. */
  function Complete(spec: RuleSpec, c: Cache): CompleteRule
    requires SpecResolves(spec, c)
  {
    CompleteRule(spec.shape, SideRevisions(spec.src, c), SideRevisions(spec.dst, c),
                 SideBlocks(spec.src, c), SideBlocks(spec.dst, c))
  }

  type Rules = map<RuleID, CompleteRule>
  type Installed = map<RuleName, PolicyRule>

  predicate Has(installed: Installed, r: PolicyRule) { NameOf(r) in installed && installed[NameOf(r)] == r }

  function Names(rs: set<PolicyRule>): set<RuleName> { set r | r in rs :: NameOf(r) }

  ghost predicate UniqueNames(rs: set<PolicyRule>) {
    forall r, r' :: r in rs && r' in rs && NameOf(r) == NameOf(r') ==> r == r'
  }

  /** compareAndApplyPolicyRulesChanges on the rules installed by name. */
  ghost function Sync(installed: Installed, old_: set<PolicyRule>, new_: set<PolicyRule>): Installed
    requires UniqueNames(new_)
  {
    (installed - (Names(old_) - Names(new_))) + (map r | r in new_ - old_ :: NameOf(r) := r)
  }

  lemma SyncHas(installed: Installed, old_: set<PolicyRule>, new_: set<PolicyRule>, r: PolicyRule)
    requires UniqueNames(new_)
    ensures Has(Sync(installed, old_, new_), r) <==>
      || r in new_ - old_
      || (Has(installed, r) && NameOf(r) !in Names(new_ - old_) && NameOf(r) !in Names(old_) - Names(new_))
  {
  }

  /** What is installed is what the cached rules list, under their own names. */
  ghost predicate Exact(installed: Installed, rules: Rules, agent: string) {
    forall r :: Has(installed, r) <==> r.ruleID in rules && r in ListRules(rules[r.ruleID], agent)
  }

  ghost predicate Tidy(installed: Installed) { forall n :: n in installed ==> NameOf(installed[n]) == n }

  ghost predicate OwnIDs(rules: Rules) { forall id :: id in rules ==> rules[id].shape.ruleID == id }

  lemma SyncTidy(installed: Installed, old_: set<PolicyRule>, new_: set<PolicyRule>)
    requires UniqueNames(new_) && Tidy(installed)
    ensures Tidy(Sync(installed, old_, new_))
  {
  }

  /** All rules of a set belong to one complete rule: same id, same action. */
  ghost predicate OfRule(rs: set<PolicyRule>, shape: RuleShape) {
    forall r :: r in rs ==> r.ruleID == shape.ruleID && r.action == shape.action
  }

  lemma OfRuleUnique(rs: set<PolicyRule>, shape: RuleShape)
    requires OfRule(rs, shape)
    ensures UniqueNames(rs)
  {
  }

  lemma OfRuleNames(rs: set<PolicyRule>, shape: RuleShape, r: PolicyRule)
    requires OfRule(rs, shape)
    ensures r.ruleID == shape.ruleID && r.action == shape.action ==> (NameOf(r) in Names(rs) <==> r in rs)
    ensures r.ruleID != shape.ruleID ==> NameOf(r) !in Names(rs)
  {
  }

  lemma ListedOfRule(rule: CompleteRule, agent: string, srcs: IPBlockMap, dsts: IPBlockMap)
    ensures OfRule(GenerateRuleList(rule.shape, agent, srcs, dsts), rule.shape)
  {
  }

  /** Syncing lists of one complete rule: its own rules change as the lists say, all others stay. */
  lemma SyncHasOne(installed: Installed, shape: RuleShape, before: set<PolicyRule>, old_: set<PolicyRule>,
                   new_: set<PolicyRule>, r: PolicyRule)
    requires OfRule(before, shape) && OfRule(old_, shape) && OfRule(new_, shape) && UniqueNames(new_)
    requires r.ruleID == shape.ruleID ==> (Has(installed, r) <==> r in before)
    ensures Has(Sync(installed, old_, new_), r)
       <==> if r.ruleID == shape.ruleID then r in Synced(before, old_, new_) else Has(installed, r)
  {
    SyncHas(installed, old_, new_, r);
    OfRuleNames(new_ - old_, shape, r);
    OfRuleNames(old_, shape, r);
    OfRuleNames(new_, shape, r);
  }

  /** Replacing one cached rule and syncing the difference keeps the installed rules exact. */
  lemma SyncOneRule(installed: Installed, rules: Rules, rule: CompleteRule, agent: string, old_: set<PolicyRule>,
                    new_: set<PolicyRule>)
    requires Exact(installed, rules, agent) && OwnIDs(rules)
    requires rule.shape.ruleID in rules && rules[rule.shape.ruleID].shape == rule.shape
    requires OfRule(old_, rule.shape) && OfRule(new_, rule.shape)
    requires Synced(ListRules(rules[rule.shape.ruleID], agent), old_, new_) == ListRules(rule, agent)
    ensures UniqueNames(new_)
    ensures Exact(Sync(installed, old_, new_), rules[rule.shape.ruleID := rule], agent)
  {
    OfRuleUnique(new_, rule.shape);
    var id := rule.shape.ruleID;
    var before := ListRules(rules[id], agent);
    forall r: PolicyRule
      ensures Has(Sync(installed, old_, new_), r)
         <==> r.ruleID in rules[id := rule] && r in ListRules(rules[id := rule][r.ruleID], agent)
    {
      ListedOfRule(rule, agent, rules[id].srcIPBlocks, rules[id].dstIPBlocks);
      SyncHasOne(installed, rule.shape, before, old_, new_, r);
    }
  }

  /** The rule can take the patch: it gets every listed rule right. */
  ghost predicate Takes(rule: CompleteRule, agent: string, patch: GroupPatch) {
    Patchable(rule, patch) && forall r :: Shaped(rule.shape, r) ==> Settles(rule, agent, patch, r)
  }

  /** Where the touched addresses are the group's alone, only a conflict between both sides can get in the way. */
  lemma SoleTakes(rule: CompleteRule, agent: string, patch: GroupPatch)
    requires SoleSides(rule, patch)
    ensures Takes(rule, agent, patch)
       <==> (OnBothSides(rule, patch) ==> forall r :: !Conflict(rule.shape, agent, patch, r))
  {
    PatchStepIff(rule, agent, patch);
    PatchStepExactIff(rule, agent, patch);
  }

  lemma PatchListsOfRule(rule: CompleteRule, agent: string, patch: GroupPatch)
    requires Patchable(rule, patch)
    ensures OfRule(OldPolicyRules(rule, agent, patch), rule.shape)
    ensures OfRule(NewPolicyRules(rule, agent, patch), rule.shape)
    ensures UniqueNames(NewPolicyRules(rule, agent, patch))
  {
    var srcs' := Patched(rule.srcGroups, rule.srcIPBlocks, patch);
    ListedOfRule(rule, agent, patch.add, rule.dstIPBlocks);
    ListedOfRule(rule, agent, patch.del, rule.dstIPBlocks);
    ListedOfRule(rule, agent, srcs', patch.add);
    ListedOfRule(rule, agent, srcs', patch.del);
    OfRuleUnique(NewPolicyRules(rule, agent, patch), rule.shape);
  }

  /** One turn of ReconcilePatch's loop: the rule is patched and its difference is synced. */
  lemma PatchOneExact(rules: Rules, installed: Installed, id: RuleID, agent: string, patch: GroupPatch)
    requires Exact(installed, rules, agent) && OwnIDs(rules) && Tidy(installed)
    requires id in rules && Patchable(rules[id], patch) && Takes(rules[id], agent, patch)
    ensures UniqueNames(NewPolicyRules(rules[id], agent, patch))
    ensures var installed' := Sync(installed, OldPolicyRules(rules[id], agent, patch),
                                   NewPolicyRules(rules[id], agent, patch));
      Exact(installed', rules[id := AfterPatch(rules[id], patch)], agent) && Tidy(installed')
  {
    var rule := rules[id];
    PatchListsOfRule(rule, agent, patch);
    PatchStepIff(rule, agent, patch);
    SyncOneRule(installed, rules, AfterPatch(rule, patch), agent, OldPolicyRules(rule, agent, patch),
                NewPolicyRules(rule, agent, patch));
    SyncTidy(installed, OldPolicyRules(rule, agent, patch), NewPolicyRules(rule, agent, patch));
  }

  ghost predicate AllPatchable(rules: Rules, patch: GroupPatch) {
    forall id :: id in rules ==> Patchable(rules[id], patch)
  }

  /** The rules with the patch applied to those of a set. */
  ghost function PatchedRules(rules: Rules, ids: set<RuleID>, patch: GroupPatch): Rules
    requires AllPatchable(rules, patch)
  {
    map id | id in rules :: if id in ids then AfterPatch(rules[id], patch) else rules[id]
  }

  /** ruleCache.ByIndex(GroupIndex, group). */
  predicate RefersTo(rule: CompleteRule, g: string) { g in rule.srcGroups || g in rule.dstGroups }

  function Index(rules: Rules, g: string): set<RuleID> { set id | id in rules && RefersTo(rules[id], g) }

  /** What is installed after the loop has visited some rules, in that order. */
  ghost function SyncedInOrder(rules: Rules, installed: Installed, order: seq<RuleID>, agent: string,
                               patch: GroupPatch): Installed
    requires AllPatchable(rules, patch) && forall i :: 0 <= i < |order| ==> order[i] in rules
  {
    if order == [] then installed
    else
      var rule := rules[order[|order| - 1]];
      PatchListsOfRule(rule, agent, patch);
      Sync(SyncedInOrder(rules, installed, order[..|order| - 1], agent, patch),
           OldPolicyRules(rule, agent, patch), NewPolicyRules(rule, agent, patch))
  }

  predicate NoRepeats(order: seq<RuleID>) { forall i, j :: 0 <= i < j < |order| ==> order[i] != order[j] }

  lemma OneMore(order: seq<RuleID>, id: RuleID)
    requires NoRepeats(order) && id !in Elements(order)
    ensures NoRepeats(order + [id]) && Elements(order + [id]) == Elements(order) + {id}
  {
    forall i | 0 <= i < |order|
      ensures order[i] != id
    {
      assert order[i] in Elements(order);
    }
  }

  lemma PatchOneMore(rules: Rules, ids: set<RuleID>, id: RuleID, patch: GroupPatch)
    requires AllPatchable(rules, patch) && id in rules && id !in ids
    ensures PatchedRules(rules, ids, patch)[id] == rules[id]
    ensures PatchedRules(rules, ids + {id}, patch)
         == PatchedRules(rules, ids, patch)[id := AfterPatch(rules[id], patch)]
  {
  }

  lemma SyncOneMore(rules: Rules, installed: Installed, order: seq<RuleID>, id: RuleID, agent: string,
                    patch: GroupPatch)
    requires AllPatchable(rules, patch) && (forall i :: 0 <= i < |order| ==> order[i] in rules) && id in rules
    ensures UniqueNames(NewPolicyRules(rules[id], agent, patch))
    ensures SyncedInOrder(rules, installed, order + [id], agent, patch)
         == Sync(SyncedInOrder(rules, installed, order, agent, patch), OldPolicyRules(rules[id], agent, patch),
           NewPolicyRules(rules[id], agent, patch))
  {
    var all := order + [id];
    assert all[..|all| - 1] == order && all[|all| - 1] == id;
    PatchListsOfRule(rules[id], agent, patch);
  }

  /** Visiting one more rule of the index. */
  lemma VisitOne(rules: Rules, installed: Installed, order: seq<RuleID>, id: RuleID, agent: string, patch: GroupPatch)
    requires AllPatchable(rules, patch) && (forall i :: 0 <= i < |order| ==> order[i] in rules) && NoRepeats(order)
    requires id in rules && id !in Elements(order)
    ensures NoRepeats(order + [id]) && Elements(order + [id]) == Elements(order) + {id}
    ensures PatchedRules(rules, Elements(order), patch)[id] == rules[id]
    ensures PatchedRules(rules, Elements(order + [id]), patch)
         == PatchedRules(rules, Elements(order), patch)[id := AfterPatch(rules[id], patch)]
    ensures UniqueNames(NewPolicyRules(rules[id], agent, patch))
    ensures SyncedInOrder(rules, installed, order + [id], agent, patch)
         == Sync(SyncedInOrder(rules, installed, order, agent, patch), OldPolicyRules(rules[id], agent, patch),
           NewPolicyRules(rules[id], agent, patch))
  {
    OneMore(order, id);
    PatchOneMore(rules, Elements(order), id, patch);
    SyncOneMore(rules, installed, order, id, agent, patch);
  }

  /** The loop keeps the installed rules exact, whatever the order of the rules. */
  lemma {:induction false} SyncedInOrderExact(rules: Rules, installed: Installed, order: seq<RuleID>, agent: string,
      patch: GroupPatch)
    requires AllPatchable(rules, patch) && forall id :: id in rules ==> Takes(rules[id], agent, patch)
    requires (forall i :: 0 <= i < |order| ==> order[i] in rules) && NoRepeats(order)
    requires Exact(installed, rules, agent) && OwnIDs(rules) && Tidy(installed)
    ensures Exact(SyncedInOrder(rules, installed, order, agent, patch), PatchedRules(rules, Elements(order), patch),
      agent)
    ensures Tidy(SyncedInOrder(rules, installed, order, agent, patch))
  {
    if order == [] {
      assert PatchedRules(rules, Elements(order), patch) == rules;
    } else {
      var front, id := order[..|order| - 1], order[|order| - 1];
      SyncedInOrderExact(rules, installed, front, agent, patch);
      assert id !in Elements(front) && front + [id] == order;
      VisitExact(rules, installed, front, id, agent, patch);
    }
  }

  lemma VisitExact(rules: Rules, installed: Installed, order: seq<RuleID>, id: RuleID, agent: string, patch: GroupPatch)
    requires AllPatchable(rules, patch) && (forall i :: 0 <= i < |order| ==> order[i] in rules) && NoRepeats(order)
    requires id in rules && id !in Elements(order) && Takes(rules[id], agent, patch) && OwnIDs(rules)
    requires Exact(SyncedInOrder(rules, installed, order, agent, patch), PatchedRules(rules, Elements(order), patch),
      agent)
    requires Tidy(SyncedInOrder(rules, installed, order, agent, patch))
    ensures Exact(SyncedInOrder(rules, installed, order + [id], agent, patch),
      PatchedRules(rules, Elements(order + [id]), patch), agent)
    ensures Tidy(SyncedInOrder(rules, installed, order + [id], agent, patch))
  {
    VisitOne(rules, installed, order, id, agent, patch);
    PatchOneExact(PatchedRules(rules, Elements(order), patch), SyncedInOrder(rules, installed, order, agent, patch), id,
                  agent, patch);
  }

  /** What is installed after the loop, rule by rule, whether it is right or not. */
  lemma {:induction false} SyncedInOrderHas(rules: Rules, installed: Installed, order: seq<RuleID>, agent: string,
      patch: GroupPatch, r: PolicyRule)
    requires AllPatchable(rules, patch) && (forall i :: 0 <= i < |order| ==> order[i] in rules) && NoRepeats(order)
    requires Exact(installed, rules, agent) && OwnIDs(rules)
    ensures Has(SyncedInOrder(rules, installed, order, agent, patch), r) <==>
      if r.ruleID in Elements(order)
      then
        r.ruleID in rules &&
        r in Synced(ListRules(rules[r.ruleID], agent),
                    OldPolicyRules(rules[r.ruleID], agent, patch), NewPolicyRules(rules[r.ruleID], agent, patch))
      else Has(installed, r)
  {
    if order != [] {
      var front, id := order[..|order| - 1], order[|order| - 1];
      SyncedInOrderHas(rules, installed, front, agent, patch, r);
      assert id !in Elements(front) && front + [id] == order;
      OneMore(front, id);
      VisitHas(rules, SyncedInOrder(rules, installed, front, agent, patch), id, agent, patch, r);
      SyncOneMore(rules, installed, front, id, agent, patch);
    }
  }

  lemma VisitHas(rules: Rules, installed: Installed, id: RuleID, agent: string, patch: GroupPatch, r: PolicyRule)
    requires AllPatchable(rules, patch) && id in rules && OwnIDs(rules)
    requires r.ruleID == id ==> (Has(installed, r) <==> r in ListRules(rules[id], agent))
    ensures UniqueNames(NewPolicyRules(rules[id], agent, patch))
    ensures
      Has(Sync(installed, OldPolicyRules(rules[id], agent, patch), NewPolicyRules(rules[id], agent, patch)), r) <==>
      if r.ruleID == id then r in Synced(ListRules(rules[id], agent), OldPolicyRules(rules[id], agent, patch),
        NewPolicyRules(rules[id], agent, patch))
      else Has(installed, r)
  {
    var rule := rules[id];
    PatchListsOfRule(rule, agent, patch);
    ListedOfRule(rule, agent, rule.srcIPBlocks, rule.dstIPBlocks);
    SyncHasOne(installed, rule.shape, ListRules(rule, agent), OldPolicyRules(rule, agent, patch),
               NewPolicyRules(rule, agent, patch), r);
  }

  /** If the loop leaves the installed rules exact, every rule has taken the patch. */
  lemma ExactMeansTaken(rules: Rules, installed: Installed, order: seq<RuleID>, agent: string, patch: GroupPatch,
                        id: RuleID)
    requires AllPatchable(rules, patch) && (forall i :: 0 <= i < |order| ==> order[i] in rules) && NoRepeats(order)
    requires Exact(installed, rules, agent) && OwnIDs(rules) && id in Elements(order) && id in rules
    requires Exact(SyncedInOrder(rules, installed, order, agent, patch), PatchedRules(rules, Elements(order), patch),
      agent)
    ensures Takes(rules[id], agent, patch)
  {
    var rule := rules[id];
    var now := Synced(ListRules(rule, agent), OldPolicyRules(rule, agent, patch), NewPolicyRules(rule, agent, patch));
    var want := ListRules(AfterPatch(rule, patch), agent);
    PatchListsOfRule(rule, agent, patch);
    ListedOfRule(rule, agent, rule.srcIPBlocks, rule.dstIPBlocks);
    ListedOfRule(AfterPatch(rule, patch), agent, AfterPatch(rule, patch).srcIPBlocks,
                 AfterPatch(rule, patch).dstIPBlocks);
    forall r: PolicyRule
      ensures r in now <==> r in want
    {
      if r.ruleID == id { SyncedInOrderHas(rules, installed, order, agent, patch, r); }
    }
    SameElements(now, want);
    PatchStepIff(rule, agent, patch);
  }

  /** Applying the patch to the indexed rules is applying it to every rule. */
  lemma IndexSuffices(rules: Rules, patch: GroupPatch)
    requires AllPatchable(rules, patch)
    ensures PatchedRules(rules, Index(rules, patch.groupName), patch) == PatchedRules(rules, rules.Keys, patch)
  {
  }

  lemma RevisionsAfterPatch(side: Side, g: string, c: Cache)
    requires SideResolves(side, c) && HasNext(c, g)
    ensures SideResolves(side, AfterApplyPatch(c, g))
    ensures var groups, patch := SideRevisions(side, c), NextPatchOf(c, g).value;
      && (AppliesTo(groups, patch) <==> g in GroupsOf(side))
      && SideRevisions(side, AfterApplyPatch(c, g)) == Advanced(groups, patch)
  {
  }

  /** Resolving a clean side after the patch is patching what was resolved before it. */
  lemma BlocksAfterPatch(side: Side, g: string, c: Cache)
    requires SideResolves(side, c) && HasNext(c, g) && Fits(c.members[g].endpoints, NextSource(c, g))
    requires g in GroupsOf(side) && CleanSide(side.peers, g, c)
    ensures SideResolves(side, AfterApplyPatch(c, g))
    ensures var blocks, patch := SideBlocks(side, c), NextPatchOf(c, g).value;
      NoNil(blocks) && SideBlocks(side, AfterApplyPatch(c, g)) == ApplyCount(blocks, patch.add, patch.del)
  {
    assert GroupPeer(g) in side.peers;
    IncrementalIffClean(side.peers, g, c);
    RevisionsAfterPatch(side, g, c);
  }

  lemma SoleBlocks(side: Side, g: string, c: Cache)
    requires SideResolves(side, c) && HasNext(c, g) && Fits(c.members[g].endpoints, NextSource(c, g))
    requires g in GroupsOf(side) && SoleContributor(side.peers, g, c)
    ensures CleanSide(side.peers, g, c) && Sole(SideBlocks(side, c), NextPatchOf(c, g).value)
  {
    assert GroupPeer(g) in side.peers;
    SoleIsClean(side.peers, g, c);
  }

  lemma BlocksUntouched(side: Side, g: string, c: Cache)
    requires SideResolves(side, c) && HasNext(c, g) && g !in GroupsOf(side)
    ensures SideResolves(side, AfterApplyPatch(c, g))
    ensures SideBlocks(side, AfterApplyPatch(c, g)) == SideBlocks(side, c)
  {
    RevisionsAfterPatch(side, g, c);
    if side.Peers? {
      assert GroupPeer(g) !in side.peers;
      OtherGroupsIrrelevant(side.peers, g, c, AfterApplyPatch(c, g));
    }
  }

  /** ruleCache.ByIndex(PolicyIndex, key). */
  function OfPolicy(rules: Rules, key: string): Rules { map id | id in rules && id.policy == key :: rules[id] }

  function ListAll(rules: Rules, agent: string): set<PolicyRule> {
    set id, r | id in rules && r in ListRules(rules[id], agent) :: r
  }

  lemma ListAllHas(rules: Rules, agent: string, r: PolicyRule)
    requires OwnIDs(rules)
    ensures r in ListAll(rules, agent) <==> r.ruleID in rules && r in ListRules(rules[r.ruleID], agent)
  {
  }

  /** Rules of distinct complete rules have distinct names. */
  lemma ListAllUnique(rules: Rules, agent: string)
    requires OwnIDs(rules)
    ensures UniqueNames(ListAll(rules, agent))
  {
  }

  /** Replacing the rules of a policy and syncing all of them keeps the installed rules exact. */
  lemma SyncPolicy(installed: Installed, rules: Rules, key: string, newRules: Rules, agent: string)
    requires Exact(installed, rules, agent) && OwnIDs(rules) && OwnIDs(newRules)
    requires forall id :: id in newRules ==> id.policy == key
    ensures UniqueNames(ListAll(newRules, agent))
    ensures Exact(Sync(installed, ListAll(OfPolicy(rules, key), agent), ListAll(newRules, agent)),
                  (rules - OfPolicy(rules, key).Keys) + newRules, agent)
  {
    ListAllUnique(newRules, agent);
    ListAllUnique(OfPolicy(rules, key), agent);
    var old_, new_ := ListAll(OfPolicy(rules, key), agent), ListAll(newRules, agent);
    forall r: PolicyRule
      ensures Has(Sync(installed, old_, new_), r) <==>
        var rules' := (rules - OfPolicy(rules, key).Keys) + newRules;
        r.ruleID in rules' && r in ListRules(rules'[r.ruleID], agent)
    {
      SyncHas(installed, old_, new_, r);
      ListAllHas(OfPolicy(rules, key), agent, r);
      ListAllHas(newRules, agent, r);
      if r.ruleID.policy == key {
        assert Has(installed, r) <==> r in old_;
        SameNameSameRule(old_, new_, r);
      } else {
        NamesElsewhere(OfPolicy(rules, key), key, agent, r);
        NamesElsewhere(newRules, key, agent, r);
      }
    }
  }

  /** With unique names on both lists, comparing names is comparing rules. */
  lemma SameNameSameRule(old_: set<PolicyRule>, new_: set<PolicyRule>, r: PolicyRule)
    requires UniqueNames(old_) && UniqueNames(new_)
    ensures r in new_ <==>
      r in new_ - old_ || (r in old_ && NameOf(r) !in Names(new_ - old_) && NameOf(r) !in Names(old_) - Names(new_))
  {
  }

  lemma NamesElsewhere(rules: Rules, key: string, agent: string, r: PolicyRule)
    requires OwnIDs(rules) && (forall id :: id in rules ==> id.policy == key) && r.ruleID.policy != key
    ensures NameOf(r) !in Names(ListAll(rules, agent))
  {
  }
}
