/**
 Complete rules: source and destination address maps that expand to a product
 of flow rules, and the incremental update of both on a group patch.
 */
module RuleCache {
  import Uint16
  import opened PolicyRules
  import opened Groups
  import opened IPBlocks
  import opened GroupCache

  datatype Action = Allow | Drop
  datatype Direction = Ingress | Egress
  datatype RuleType = GlobalDefaultRule | DefaultRule | NormalRule

  /** policyNamespace/policyName/policyType/ruleName. */
  datatype RuleID = RuleID(policy: string, name: string)

  datatype PolicyRule = PolicyRule(
    ruleID: RuleID, action: Action, direction: Direction, ruleType: RuleType, tier: string, mode: string,
    src: string, dst: string, port: RulePort)

  /** GenerateFlowKey, with a hash that never collides: all of the rule but its name and action. */
  datatype FlowKey = FlowKey(
    direction: Direction, ruleType: RuleType, tier: string, mode: string, src: string, dst: string, port: RulePort)

  datatype RuleName = RuleName(ruleID: RuleID, key: FlowKey)

  function FlowKeyOf(r: PolicyRule): FlowKey { FlowKey(r.direction, r.ruleType, r.tier, r.mode, r.src, r.dst, r.port) }

  function NameOf(r: PolicyRule): RuleName { RuleName(r.ruleID, FlowKeyOf(r)) }

  /** The part of a complete rule that patches leave alone. */
  datatype RuleShape = RuleShape(
    ruleID: RuleID, tier: string, mode: string, action: Action, direction: Direction,
    symmetricMode: bool, defaultPolicyRule: bool, ports: seq<RulePort>)

  datatype CompleteRule = CompleteRule(
    shape: RuleShape, srcGroups: map<string, nat>, dstGroups: map<string, nat>,
    srcIPBlocks: IPBlockMap, dstIPBlocks: IPBlockMap)

  /** The item concerns endpoints on this agent. */
  predicate HasLocalRule(item: IPBlockItem, agent: string) {
    item.Nil? || item.staticCount > 0 || item.agentRef == {} || agent in item.agentRef
  }

  function ResolveDstPort(port: RulePort, namedPorts: set<NamedPort>): set<RulePort> {
    set n | n in namedPorts && n.name == port.dstPortName && n.protocol == port.protocol ::
      RulePort(0, n.port % Uint16.Modulus, 0, 0xffff, "", "", port.protocol)
  }

  /** The ports of the rule against one destination; an unresolved name yields none. */
  function DstPorts(port: RulePort, dstItem: IPBlockItem): set<RulePort> {
    if port.dstPortName == "" then {port}
    else if dstItem.Nil? then {}
    else ResolveDstPort(port, dstItem.ports)
  }

  function Directions(rule: RuleShape, agent: string, srcItem: IPBlockItem, dstItem: IPBlockItem): set<Direction> {
    if rule.symmetricMode then
      (if HasLocalRule(dstItem, agent) then {Ingress} else {}) + (if HasLocalRule(srcItem, agent) then {Egress} else {})
    else if (rule.direction == Ingress && HasLocalRule(dstItem, agent))
            || (rule.direction == Egress && HasLocalRule(srcItem, agent)) then
      {rule.direction}
    else {}
  }

  function GenerateRule(rule: RuleShape, src: string, dst: string, direction: Direction, port: RulePort): PolicyRule {
    PolicyRule(rule.ruleID, rule.action, direction, if rule.defaultPolicyRule then DefaultRule else NormalRule,
               rule.tier, rule.mode, src, dst, port.(srcPortName := "", dstPortName := ""))
  }

  /** The rules for one pair of addresses; a group's own address is not matched against itself. */
  function Emits(rule: RuleShape, agent: string, srcItem: IPBlockItem, dstItem: IPBlockItem, src: string,
                 dst: string): set<PolicyRule> {
    if src != "" && dst != "" && src == dst then {}
    else
      set port, q, direction | port in rule.ports && q in DstPorts(port, dstItem)
                               && direction in Directions(rule, agent, srcItem, dstItem) ::
        GenerateRule(rule, src, dst, direction, q)
  }

  function GenerateRuleList(rule: RuleShape, agent: string, srcs: IPBlockMap, dsts: IPBlockMap): set<PolicyRule> {
    set src, dst, r | src in srcs && dst in dsts && r in Emits(rule, agent, srcs[src], dsts[dst], src, dst) :: r
  }

  function ListRules(rule: CompleteRule, agent: string): set<PolicyRule> {
    GenerateRuleList(rule.shape, agent, rule.srcIPBlocks, rule.dstIPBlocks)
  }

  /** A generated rule tells the pair of addresses it came from. */
  lemma Generated(rule: RuleShape, agent: string, srcs: IPBlockMap, dsts: IPBlockMap, r: PolicyRule)
    ensures r in GenerateRuleList(rule, agent, srcs, dsts)
       <==> r.src in srcs && r.dst in dsts && r in Emits(rule, agent, srcs[r.src], dsts[r.dst], r.src, r.dst)
  {
  }

  /** Within one complete rule, the name determines the rule. */
  lemma NamesUnique(rule: RuleShape, agent: string, srcs: IPBlockMap, dsts: IPBlockMap, r: PolicyRule)
    requires r in GenerateRuleList(rule, agent, srcs, dsts)
    ensures r.ruleID == rule.ruleID && r.action == rule.action
  {
  }

  predicate AppliesTo(groups: map<string, nat>, patch: GroupPatch) {
    patch.groupName in groups && groups[patch.groupName] == patch.revision
  }

  function Patched(groups: map<string, nat>, blocks: IPBlockMap, patch: GroupPatch): IPBlockMap
    requires AppliesTo(groups, patch) ==> NoNil(blocks)
  {
    if AppliesTo(groups, patch) then ApplyCount(blocks, patch.add, patch.del) else blocks
  }

  function Advanced(groups: map<string, nat>, patch: GroupPatch): map<string, nat> {
    if AppliesTo(groups, patch) then groups[patch.groupName := patch.revision + 1] else groups
  }

  ghost predicate Patchable(rule: CompleteRule, patch: GroupPatch) {
    && (AppliesTo(rule.srcGroups, patch) ==> NoNil(rule.srcIPBlocks))
    && (AppliesTo(rule.dstGroups, patch) ==> NoNil(rule.dstIPBlocks))
  }

  /** CompleteRule.ApplyPatch. */
  function AfterPatch(rule: CompleteRule, patch: GroupPatch): CompleteRule
    requires Patchable(rule, patch)
  {
    rule.(srcIPBlocks := Patched(rule.srcGroups, rule.srcIPBlocks, patch), srcGroups := Advanced(rule.srcGroups, patch),
          dstIPBlocks := Patched(rule.dstGroups, rule.dstIPBlocks, patch), dstGroups := Advanced(rule.dstGroups, patch))
  }

  /** GetPatchPolicyRules: the rules of the added and of the deleted addresses. */
  function NewPolicyRules(rule: CompleteRule, agent: string, patch: GroupPatch): set<PolicyRule>
    requires Patchable(rule, patch)
  {
    (if AppliesTo(rule.srcGroups, patch)
     then GenerateRuleList(rule.shape, agent, patch.add, rule.dstIPBlocks) else {}) +
    (if AppliesTo(rule.dstGroups, patch)
     then GenerateRuleList(rule.shape, agent, Patched(rule.srcGroups, rule.srcIPBlocks, patch), patch.add) else {})
  }

  function OldPolicyRules(rule: CompleteRule, agent: string, patch: GroupPatch): set<PolicyRule>
    requires Patchable(rule, patch)
  {
    (if AppliesTo(rule.srcGroups, patch)
     then GenerateRuleList(rule.shape, agent, patch.del, rule.dstIPBlocks) else {}) +
    (if AppliesTo(rule.dstGroups, patch)
     then GenerateRuleList(rule.shape, agent, Patched(rule.srcGroups, rule.srcIPBlocks, patch), patch.del) else {})
  }

  /** Addresses that the patch touches are on this side only through what it deletes. */
  ghost predicate Sole(blocks: IPBlockMap, patch: GroupPatch) {
    && NoNil(blocks) && NoStatic(patch.add) && NoStatic(patch.del)
    && (forall ip :: ip in patch.del ==> ip in blocks && blocks[ip] == patch.del[ip])
    && (forall ip :: ip in patch.add && ip in blocks ==> ip in patch.del)
  }

  /** Then the incremental update just exchanges the deleted for the added addresses. */
  lemma SoleUpdate(blocks: IPBlockMap, patch: GroupPatch)
    requires Sole(blocks, patch)
    ensures ApplyCount(blocks, patch.add, patch.del) == (blocks - patch.del.Keys) + patch.add
  {
    var left := Deleted(blocks, patch.del);
    assert left == blocks - patch.del.Keys by {
      forall ip | ip in patch.del ensures IsSpent(Subtract(blocks[ip], patch.del[ip])) { }
    }
    forall ip | ip in patch.add
      ensures Plus(NewItem, patch.add[ip]) == patch.add[ip]
    {
      CombineNew(patch.add[ip]);
    }
  }

  /**
   What compareAndApplyPolicyRulesChanges leaves installed: rules listed as old
   and not as new go, rules listed as new and not as old come, a rule listed as
   both is skipped.
   */
  function Synced(installed: set<PolicyRule>, old_: set<PolicyRule>, new_: set<PolicyRule>): set<PolicyRule> {
    (installed - (old_ - new_)) + (new_ - old_)
  }

  function Exchanged(blocks: IPBlockMap, patch: GroupPatch): IPBlockMap { (blocks - patch.del.Keys) + patch.add }

  /** The group is on the source side only: the step is exact, also when Add and Del overlap. */
  lemma SrcStepExact(rule: RuleShape, agent: string, srcs: IPBlockMap, dsts: IPBlockMap, patch: GroupPatch)
    requires Sole(srcs, patch)
    ensures Synced(GenerateRuleList(rule, agent, srcs, dsts),
                   GenerateRuleList(rule, agent, patch.del, dsts), GenerateRuleList(rule, agent, patch.add, dsts))
         == GenerateRuleList(rule, agent, Exchanged(srcs, patch), dsts)
  {
  }

  /** The group is on the destination side only. */
  lemma DstStepExact(rule: RuleShape, agent: string, srcs: IPBlockMap, dsts: IPBlockMap, patch: GroupPatch)
    requires Sole(dsts, patch)
    ensures Synced(GenerateRuleList(rule, agent, srcs, dsts),
                   GenerateRuleList(rule, agent, srcs, patch.del), GenerateRuleList(rule, agent, srcs, patch.add))
         == GenerateRuleList(rule, agent, srcs, Exchanged(dsts, patch))
  {
  }

  /** r is emitted when its source has an item of `srcs` and its destination one of `dsts`. */
  predicate Emitted(rule: RuleShape, agent: string, srcs: IPBlockMap, dsts: IPBlockMap, r: PolicyRule) {
    r.src in srcs && r.dst in dsts && r in Emits(rule, agent, srcs[r.src], dsts[r.dst], r.src, r.dst)
  }

  /**
   Where a group is on both sides, an address that is both deleted and added
   (an endpoint that kept its address) can make a rule appear as new and as old
   at once, and such a rule is skipped. That goes wrong for rules between a
   changed address and
   - an added one, when the rule is wanted,
   - a deleted one, when the rule was installed,
   - another changed one, when the rule's presence differs before and after.
   */
  predicate Conflict(rule: RuleShape, agent: string, patch: GroupPatch, r: PolicyRule) {
    var add, del := patch.add, patch.del;
    Emitted(rule, agent, add, del, r) &&
    if r.src !in del && r.dst in add then Emitted(rule, agent, add, add, r)
    else if r.src in del && r.dst !in add then Emitted(rule, agent, del, del, r)
    else Emitted(rule, agent, del, del, r) != Emitted(rule, agent, add, add, r)
  }

  lemma BothStepAt(rule: RuleShape, agent: string, srcs: IPBlockMap, dsts: IPBlockMap, patch: GroupPatch, r: PolicyRule)
    requires Sole(srcs, patch) && Sole(dsts, patch)
    ensures var srcs', dsts' := Exchanged(srcs, patch), Exchanged(dsts, patch);
      var old_ := GenerateRuleList(rule, agent, patch.del, dsts) + GenerateRuleList(rule, agent, srcs', patch.del);
      var new_ := GenerateRuleList(rule, agent, patch.add, dsts) + GenerateRuleList(rule, agent, srcs', patch.add);
      (r in Synced(GenerateRuleList(rule, agent, srcs, dsts), old_, new_) <==>
        r in GenerateRuleList(rule, agent, srcs', dsts'))
        <==> !Conflict(rule, agent, patch, r)
  {
    var srcs', dsts' := Exchanged(srcs, patch), Exchanged(dsts, patch);
    Generated(rule, agent, srcs, dsts, r);
    Generated(rule, agent, srcs', dsts', r);
    Generated(rule, agent, patch.del, dsts, r);
    Generated(rule, agent, srcs', patch.del, r);
    Generated(rule, agent, patch.add, dsts, r);
    Generated(rule, agent, srcs', patch.add, r);
  }

  /** What a rule needs of the side of its source: the address, on this agent if the rule is an egress one. */
  predicate FromSide(srcs: IPBlockMap, agent: string, r: PolicyRule) {
    r.src in srcs && (r.direction == Egress ==> HasLocalRule(srcs[r.src], agent))
  }

  /** And of the side of its destination: there, named ports have to resolve as well. */
  predicate ToSide(rule: RuleShape, dsts: IPBlockMap, agent: string, r: PolicyRule) {
    && r.dst in dsts && (r.direction == Ingress ==> HasLocalRule(dsts[r.dst], agent))
    && exists port, q :: port in rule.ports && q in DstPorts(port, dsts[r.dst])
                         && r.port == q.(srcPortName := "", dstPortName := "")
  }

  /** What it needs of the rule itself. */
  predicate Shaped(rule: RuleShape, r: PolicyRule) {
    && r == GenerateRule(rule, r.src, r.dst, r.direction, r.port)
       && (rule.symmetricMode || r.direction == rule.direction)
    && !(r.src != "" && r.dst != "" && r.src == r.dst)
  }

  lemma DirectionsSplit(rule: RuleShape, agent: string, srcItem: IPBlockItem, dstItem: IPBlockItem, d: Direction)
    ensures d in Directions(rule, agent, srcItem, dstItem) <==>
      (rule.symmetricMode || d == rule.direction) && HasLocalRule(if d == Ingress then dstItem else srcItem, agent)
  {
  }

  /** A rule is listed iff the rule and each of its two sides, by itself, has what it needs. */
  lemma ListedSplit(rule: RuleShape, agent: string, srcs: IPBlockMap, dsts: IPBlockMap, r: PolicyRule)
    ensures r in GenerateRuleList(rule, agent, srcs, dsts)
       <==> Shaped(rule, r) && FromSide(srcs, agent, r) && ToSide(rule, dsts, agent, r)
  {
    Generated(rule, agent, srcs, dsts, r);
    if r.src in srcs && r.dst in dsts {
      DirectionsSplit(rule, agent, srcs[r.src], dsts[r.dst], r.direction);
      if r in Emits(rule, agent, srcs[r.src], dsts[r.dst], r.src, r.dst) {
        var port, q, d :| port in rule.ports && q in DstPorts(port, dsts[r.dst])
                          && d in Directions(rule, agent, srcs[r.src], dsts[r.dst])
          && r == GenerateRule(rule, r.src, r.dst, d, q);
      }
      if Shaped(rule, r) && FromSide(srcs, agent, r) && ToSide(rule, dsts, agent, r) {
        var port, q :| port in rule.ports && q in DstPorts(port, dsts[r.dst])
                       && r.port == q.(srcPortName := "", dstPortName := "");
        assert r == GenerateRule(rule, r.src, r.dst, r.direction, q);
      }
    }
  }

  /**
   A side keeps up with the patch: what is only deleted goes, what is only added
   comes, and the rest stays as it is.
   */
  predicate KeepsUp(before: bool, deled: bool, added: bool, after: bool) {
    after == if deled != added then added else before
  }

  /**
   The patch gets a rule right: with the group on one side, that side has to keep
   up whenever the other side has what the rule needs; with the group on both,
   the two lists of the patch have to keep up with the pair.
   */
  predicate Settles(rule: CompleteRule, agent: string, patch: GroupPatch, r: PolicyRule)
    requires Patchable(rule, patch)
  {
    var srcs' := Patched(rule.srcGroups, rule.srcIPBlocks, patch);
    var dsts' := Patched(rule.dstGroups, rule.dstIPBlocks, patch);
    var s, s' := FromSide(rule.srcIPBlocks, agent, r), FromSide(srcs', agent, r);
    var d, d' := ToSide(rule.shape, rule.dstIPBlocks, agent, r), ToSide(rule.shape, dsts', agent, r);
    var sDel, sAdd := FromSide(patch.del, agent, r), FromSide(patch.add, agent, r);
    var dDel, dAdd := ToSide(rule.shape, patch.del, agent, r), ToSide(rule.shape, patch.add, agent, r);
    if OnBothSides(rule, patch) then KeepsUp(s && d, (sDel && d) || (s' && dDel), (sAdd && d) || (s' && dAdd), s' && d')
    else if AppliesTo(rule.srcGroups, patch) then d ==> KeepsUp(s, sDel, sAdd, s')
    else if AppliesTo(rule.dstGroups, patch) then s ==> KeepsUp(d, dDel, dAdd, d')
    else true
  }

  lemma SyncedHas(installed: set<PolicyRule>, old_: set<PolicyRule>, new_: set<PolicyRule>, r: PolicyRule, after: bool)
    ensures (r in Synced(installed, old_, new_) <==> after) <==> KeepsUp(r in installed, r in old_, r in new_, after)
  {
  }

  /** The list of the patch for some of its addresses, in terms of the sides. */
  predicate InList(rule: CompleteRule, agent: string, patch: GroupPatch, blocks: IPBlockMap, r: PolicyRule)
    requires Patchable(rule, patch)
  {
    || (AppliesTo(rule.srcGroups, patch) && FromSide(blocks, agent, r)
        && ToSide(rule.shape, rule.dstIPBlocks, agent, r))
    || (AppliesTo(rule.dstGroups, patch) && FromSide(Patched(rule.srcGroups, rule.srcIPBlocks, patch), agent, r)
        && ToSide(rule.shape, blocks, agent, r))
  }

  lemma ListsSplit(rule: CompleteRule, agent: string, patch: GroupPatch, r: PolicyRule)
    requires Patchable(rule, patch)
    ensures r in OldPolicyRules(rule, agent, patch)
       <==> Shaped(rule.shape, r) && InList(rule, agent, patch, patch.del, r)
    ensures r in NewPolicyRules(rule, agent, patch)
       <==> Shaped(rule.shape, r) && InList(rule, agent, patch, patch.add, r)
  {
    var srcs' := Patched(rule.srcGroups, rule.srcIPBlocks, patch);
    ListedSplit(rule.shape, agent, patch.del, rule.dstIPBlocks, r);
    ListedSplit(rule.shape, agent, patch.add, rule.dstIPBlocks, r);
    ListedSplit(rule.shape, agent, srcs', patch.del, r);
    ListedSplit(rule.shape, agent, srcs', patch.add, r);
  }

  lemma SettlesAt(rule: CompleteRule, agent: string, patch: GroupPatch, r: PolicyRule)
    requires Patchable(rule, patch)
    ensures (r in Synced(ListRules(rule, agent), OldPolicyRules(rule, agent, patch), NewPolicyRules(rule, agent, patch))
             <==> r in ListRules(AfterPatch(rule, patch), agent))
       <==> (Shaped(rule.shape, r) ==> Settles(rule, agent, patch, r))
  {
    var srcs' := Patched(rule.srcGroups, rule.srcIPBlocks, patch);
    var dsts' := Patched(rule.dstGroups, rule.dstIPBlocks, patch);
    var after := r in ListRules(AfterPatch(rule, patch), agent);
    SyncedHas(ListRules(rule, agent), OldPolicyRules(rule, agent, patch), NewPolicyRules(rule, agent, patch), r, after);
    ListsSplit(rule, agent, patch, r);
    ListedSplit(rule.shape, agent, rule.srcIPBlocks, rule.dstIPBlocks, r);
    ListedSplit(rule.shape, agent, srcs', dsts', r);
  }

  /**
   One patch step, whoever else contributes to the touched addresses: syncing the
   rules listed by GetPatchPolicyRules leaves exactly what ListRules says after
   ApplyPatch iff the patch gets every rule right.
   */
  lemma PatchStepIff(rule: CompleteRule, agent: string, patch: GroupPatch)
    requires Patchable(rule, patch)
    ensures Synced(ListRules(rule, agent), OldPolicyRules(rule, agent, patch), NewPolicyRules(rule, agent, patch))
         == ListRules(AfterPatch(rule, patch), agent)
       <==> forall r :: Shaped(rule.shape, r) ==> Settles(rule, agent, patch, r)
  {
    var now := Synced(ListRules(rule, agent), OldPolicyRules(rule, agent, patch), NewPolicyRules(rule, agent, patch));
    var want := ListRules(AfterPatch(rule, patch), agent);
    forall r: PolicyRule
      ensures (r in now <==> r in want) <==> (Shaped(rule.shape, r) ==> Settles(rule, agent, patch, r))
    {
      SettlesAt(rule, agent, patch, r);
    }
    SameElements(now, want);
  }

  lemma SameElements(xs: set<PolicyRule>, ys: set<PolicyRule>)
    ensures xs == ys <==> forall r: PolicyRule :: r in xs <==> r in ys
  {
  }

  /** An address that is also in a static block keeps its place, but its rules are removed when the endpoint leaves. */
  lemma StaticBlockExample(rule: CompleteRule, patch: GroupPatch) returns (lost: PolicyRule)
    requires rule
         == CompleteRule(RuleShape(RuleID("ns/p", "ingress.r"), "tier2", "work", Allow, Ingress, false, false,
           [AllPorts]),
                                  map["g" := 7], map[], map["x" := Item({"a"}, 1, {})], map["" := Nil])
    requires patch == GroupPatch("g", 7, map[], map["x" := Item({"a"}, 0, {})])
    ensures Patchable(rule, patch)
    ensures lost in ListRules(AfterPatch(rule, patch), "a")
    ensures lost !in Synced(ListRules(rule, "a"), OldPolicyRules(rule, "a", patch), NewPolicyRules(rule, "a", patch))
  {
    lost := GenerateRule(rule.shape, "x", "", Ingress, AllPorts);
    var srcs' := Patched(rule.srcGroups, rule.srcIPBlocks, patch);
    assert "x" in srcs';
    assert AllPorts in rule.shape.ports && AllPorts in DstPorts(AllPorts, Nil);
    assert ToSide(rule.shape, rule.dstIPBlocks, "a", lost) && Shaped(rule.shape, lost);
    ListedSplit(rule.shape, "a", srcs', rule.dstIPBlocks, lost);
    ListedSplit(rule.shape, "a", patch.del, rule.dstIPBlocks, lost);
    ListedSplit(rule.shape, "a", patch.add, rule.dstIPBlocks, lost);
  }

  /** On each side that holds the group, the touched addresses are the group's alone. */
  ghost predicate SoleSides(rule: CompleteRule, patch: GroupPatch) {
    && (AppliesTo(rule.srcGroups, patch) ==> Sole(rule.srcIPBlocks, patch))
    && (AppliesTo(rule.dstGroups, patch) ==> Sole(rule.dstIPBlocks, patch))
  }

  predicate OnBothSides(rule: CompleteRule, patch: GroupPatch) {
    AppliesTo(rule.srcGroups, patch) && AppliesTo(rule.dstGroups, patch)
  }

  /**
   One patch step: syncing the rules listed by GetPatchPolicyRules leaves exactly
   what ListRules says after ApplyPatch, unless the group is on both sides and
   the patch has a conflict; then, and only then, it does not.
   */
  lemma PatchStepExactIff(rule: CompleteRule, agent: string, patch: GroupPatch)
    requires SoleSides(rule, patch)
    ensures Synced(ListRules(rule, agent), OldPolicyRules(rule, agent, patch), NewPolicyRules(rule, agent, patch))
         == ListRules(AfterPatch(rule, patch), agent)
       <==> OnBothSides(rule, patch) ==> forall r :: !Conflict(rule.shape, agent, patch, r)
  {
    var srcs, dsts := rule.srcIPBlocks, rule.dstIPBlocks;
    if OnBothSides(rule, patch) {
      SoleUpdate(srcs, patch);
      SoleUpdate(dsts, patch);
      BothStepExactIff(rule.shape, agent, srcs, dsts, patch);
    } else {
      OneSideExact(rule, agent, patch);
    }
  }

  lemma OneSideExact(rule: CompleteRule, agent: string, patch: GroupPatch)
    requires SoleSides(rule, patch) && !OnBothSides(rule, patch)
    ensures Synced(ListRules(rule, agent), OldPolicyRules(rule, agent, patch), NewPolicyRules(rule, agent, patch))
         == ListRules(AfterPatch(rule, patch), agent)
  {
    var srcs, dsts := rule.srcIPBlocks, rule.dstIPBlocks;
    if AppliesTo(rule.srcGroups, patch) {
      SoleUpdate(srcs, patch);
      SrcStepExact(rule.shape, agent, srcs, dsts, patch);
    } else if AppliesTo(rule.dstGroups, patch) {
      SoleUpdate(dsts, patch);
      DstStepExact(rule.shape, agent, srcs, dsts, patch);
    }
  }

  lemma BothStepExactIff(rule: RuleShape, agent: string, srcs: IPBlockMap, dsts: IPBlockMap, patch: GroupPatch)
    requires Sole(srcs, patch) && Sole(dsts, patch)
    ensures var srcs', dsts' := Exchanged(srcs, patch), Exchanged(dsts, patch);
      Synced(GenerateRuleList(rule, agent, srcs, dsts),
             GenerateRuleList(rule, agent, patch.del, dsts) + GenerateRuleList(rule, agent, srcs', patch.del),
             GenerateRuleList(rule, agent, patch.add, dsts) + GenerateRuleList(rule, agent, srcs', patch.add))
        == GenerateRuleList(rule, agent, srcs', dsts')
      <==> forall r :: !Conflict(rule, agent, patch, r)
  {
    var srcs', dsts' := Exchanged(srcs, patch), Exchanged(dsts, patch);
    var result := Synced(GenerateRuleList(rule, agent, srcs, dsts),
                         GenerateRuleList(rule, agent, patch.del, dsts) +
                           GenerateRuleList(rule, agent, srcs', patch.del),
                         GenerateRuleList(rule, agent, patch.add, dsts) +
                           GenerateRuleList(rule, agent, srcs', patch.add));
    var want := GenerateRuleList(rule, agent, srcs', dsts');
    forall r: PolicyRule
      ensures (r in result <==> r in want) <==> !Conflict(rule, agent, patch, r)
    {
      BothStepAt(rule, agent, srcs, dsts, patch, r);
    }
    SameElements(result, want);
  }

  /** No address is both added and deleted: no conflict. */
  lemma DisjointNoConflict(rule: RuleShape, agent: string, patch: GroupPatch, r: PolicyRule)
    requires patch.add.Keys !! patch.del.Keys
    ensures !Conflict(rule, agent, patch, r)
  {
  }

  /**
   The conflict is real: when one endpoint of a group on both sides of a rule
   moves to another agent, keeping its address, while another endpoint leaves,
   the rule between the two stays installed.
   */
  lemma StaleRuleExample(rule: CompleteRule, patch: GroupPatch) returns (stale: PolicyRule)
    requires rule
         == CompleteRule(RuleShape(RuleID("ns/p", "ingress.r"), "tier2", "work", Allow, Ingress, false, false,
           [AllPorts]),
                                  map["g" := 7], map["g" := 7], patch.del, patch.del)
    requires patch
         == GroupPatch("g", 7, map["x" := Item({"b"}, 0, {})],
           map["x" := Item({"a"}, 0, {}), "y" := Item({"a"}, 0, {})])
    ensures SoleSides(rule, patch)
    ensures stale in Synced(ListRules(rule, "a"), OldPolicyRules(rule, "a", patch), NewPolicyRules(rule, "a", patch))
    ensures stale !in ListRules(AfterPatch(rule, patch), "a")
  {
    stale := GenerateRule(rule.shape, "x", "y", Ingress, AllPorts);
    assert "x" != "y";
    assert AllPorts in rule.shape.ports && AllPorts in DstPorts(AllPorts, patch.del["y"]);
    assert Ingress in Directions(rule.shape, "a", patch.del["x"], patch.del["y"]);
    assert Ingress in Directions(rule.shape, "a", patch.add["x"], patch.del["y"]);
    assert Emitted(rule.shape, "a", patch.add, patch.del, stale)
           && Emitted(rule.shape, "a", patch.del, patch.del, stale);
    SoleUpdate(rule.srcIPBlocks, patch);
    SoleUpdate(rule.dstIPBlocks, patch);
    BothStepAt(rule.shape, "a", rule.srcIPBlocks, rule.dstIPBlocks, patch, stale);
    Generated(rule.shape, "a", Exchanged(patch.del, patch), Exchanged(patch.del, patch), stale);
  }

  /** A cached CompleteRule, updated in place by group patches. */
  class RuleEntry {
    const shape: RuleShape
    var srcGroups: map<string, nat>
    var dstGroups: map<string, nat>
    var srcIPBlocks: IPBlockMap
    var dstIPBlocks: IPBlockMap

    function Value(): CompleteRule
      reads this
    {
      CompleteRule(shape, srcGroups, dstGroups, srcIPBlocks, dstIPBlocks)
    }

    constructor (rule: CompleteRule)
      ensures Value() == rule
    {
      shape := rule.shape;
      srcGroups, dstGroups := rule.srcGroups, rule.dstGroups;
      srcIPBlocks, dstIPBlocks := rule.srcIPBlocks, rule.dstIPBlocks;
    }

    /** Works on copies of the maps; the entry itself is not touched. */
    method GetPatchPolicyRules(agent: string, patch: GroupPatch)
      returns (newRules: set<PolicyRule>, oldRules: set<PolicyRule>)
      requires Patchable(Value(), patch)
      ensures newRules == NewPolicyRules(Value(), agent, patch) && oldRules == OldPolicyRules(Value(), agent, patch)
    {
      newRules, oldRules := {}, {};
      var srcIPs, dstIPs := srcIPBlocks, dstIPBlocks;
      if patch.groupName in srcGroups && srcGroups[patch.groupName] == patch.revision {
        srcIPs := ApplyCountMap(srcIPs, patch.add, patch.del);
        newRules := newRules + GenerateRuleList(shape, agent, patch.add, dstIPs);
        oldRules := oldRules + GenerateRuleList(shape, agent, patch.del, dstIPs);
      }
      if patch.groupName in dstGroups && dstGroups[patch.groupName] == patch.revision {
        newRules := newRules + GenerateRuleList(shape, agent, srcIPs, patch.add);
        oldRules := oldRules + GenerateRuleList(shape, agent, srcIPs, patch.del);
      }
    }

    method ApplyPatch(patch: GroupPatch)
      requires Patchable(Value(), patch)
      modifies this
      ensures Value() == AfterPatch(old(Value()), patch)
    {
      if patch.groupName in srcGroups && srcGroups[patch.groupName] == patch.revision {
        srcIPBlocks := ApplyCountMap(srcIPBlocks, patch.add, patch.del);
        srcGroups := srcGroups[patch.groupName := patch.revision + 1];
      }
      if patch.groupName in dstGroups && dstGroups[patch.groupName] == patch.revision {
        dstIPBlocks := ApplyCountMap(dstIPBlocks, patch.add, patch.del);
        dstGroups := dstGroups[patch.groupName := patch.revision + 1];
      }
    }
  }
}
