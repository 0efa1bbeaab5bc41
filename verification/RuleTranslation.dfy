/**
 From policy rules to datapath rules: names, flow keys, priorities and actions.
 */
module RuleTranslation {
  import opened Strings
  import opened PolicyRules
  import opened RuleCache
  import opened PolicySync
  import opened PolicyRuns
  import opened PolicyCompletion
  import GroupCache

  /** flowKeyFromRuleName: what follows the last dash. */
  function FlowKeyFromRuleName(ruleName: string): string {
    var keys := Split(ruleName, '-');
    keys[|keys| - 1]
  }

  const AllowRunes: string := "abcdefghijklmnopqrstuvwxyz1234567890"

  /** What HashName can return. */
  predicate IsHash(key: string) { forall i :: 0 <= i < |key| ==> key[i] in AllowRunes }

  function RuleNameString(ruleID: string, key: string): string { ruleID + "-" + key }

  /** The flow key comes back out of a rule name, whatever dashes the rule id has. */
  lemma FlowKeyRoundTrip(ruleID: string, key: string)
    requires IsHash(key)
    ensures FlowKeyFromRuleName(RuleNameString(ruleID, key)) == key
  {
    assert '-' !in AllowRunes;
    assert '-' !in key;
    SplitLast(ruleID, key, '-');
  }

  /** So rule names are as good as pairs of rule id and flow key. */
  lemma RuleNamesInjective(ruleID: string, key: string, ruleID': string, key': string)
    requires IsHash(key) && IsHash(key') && RuleNameString(ruleID, key) == RuleNameString(ruleID', key')
    ensures ruleID == ruleID' && key == key'
  {
    FlowKeyRoundTrip(ruleID, key);
    FlowKeyRoundTrip(ruleID', key');
    assert RuleNameString(ruleID, key)[..|ruleID|] == ruleID && RuleNameString(ruleID', key')[..|ruleID'|] == ruleID';
  }

  function PriorityOf(ruleType: RuleType): nat {
    match ruleType
    case DefaultRule => 70
    case GlobalDefaultRule => 40
    case NormalRule => 100
  }

  function ActionOf(action: Action): string { if action == Allow then "allow" else "deny" }

  /** toEveroutePolicyRule. */
  function ToEveroutePolicyRule(ruleID: string, r: PolicyRule): EveroutePolicyRule {
    EveroutePolicyRule(ruleID, PriorityOf(r.ruleType), r.src, r.dst, ProtocolToInt(r.port.protocol),
                       r.port.srcPort, r.port.srcPortMask, r.port.dstPort, r.port.dstPortMask, ActionOf(r.action))
  }

  datatype GlobalPolicy = GlobalPolicy(action: Action, mode: string)

  /** newGlobalPolicyRulePair. */
  function GlobalRule(g: GlobalPolicy, d: Direction): PolicyRule {
    PolicyRule(RuleID("/everoute-global-policy", if d == Ingress then "global.ingress/" else "global.egress/"),
               g.action, d, GlobalDefaultRule, "tier2", g.mode, "", "", AllPorts)
  }

  function GlobalRules(g: Option<GlobalPolicy>): set<PolicyRule> {
    if g.None? then {} else {GlobalRule(g.value, Ingress), GlobalRule(g.value, Egress)}
  }

  /** A complete rule of a policy either allows or is the policy's default drop. */
  predicate ProperShape(shape: RuleShape) { shape.action == if shape.defaultPolicyRule then Drop else Allow }

  lemma {:induction false} IngressShapes(p: SecurityPolicy, rules: seq<Rule>, flatten: Compiler)
    requires IngressAll(p, rules, flatten).Some?
    ensures forall spec :: spec in IngressAll(p, rules, flatten).value ==>
      ProperShape(spec.shape) && spec.shape.ruleID.policy == p.key
  {
    if rules != [] { IngressShapes(p, rules[..|rules| - 1], flatten); }
  }

  lemma {:induction false} EgressShapes(p: SecurityPolicy, rules: seq<Rule>, flatten: Compiler)
    requires EgressAll(p, rules, flatten).Some?
    ensures forall spec :: spec in EgressAll(p, rules, flatten).value ==>
      ProperShape(spec.shape) && spec.shape.ruleID.policy == p.key
  {
    if rules != [] { EgressShapes(p, rules[..|rules| - 1], flatten); }
  }

  lemma PolicyShapes(p: SecurityPolicy, flatten: Compiler)
    requires RuleSpecs(p, flatten).Some?
    ensures forall spec :: spec in RuleSpecs(p, flatten).value ==>
      ProperShape(spec.shape) && spec.shape.ruleID.policy == p.key
  {
    if IngressEnabled(p) { IngressShapes(p, p.ingressRules, flatten); }
    if EgressEnabled(p) { EgressShapes(p, p.egressRules, flatten); }
  }

  /** Whatever a policy lists reaches the datapath as an allow at 100 or a deny at 70. */
  lemma ListedPriorities(p: SecurityPolicy, flatten: Compiler, spec: RuleSpec, c: GroupCache.Cache, agent: string,
                         r: PolicyRule, ruleID: string)
    requires RuleSpecs(p, flatten).Some? && spec in RuleSpecs(p, flatten).value
    requires SpecResolves(spec, c) && r in ListRules(Complete(spec, c), agent)
    ensures var rule := ToEveroutePolicyRule(ruleID, r);
      (rule.priority == 100 && rule.action == "allow") || (rule.priority == 70 && rule.action == "deny")
  {
    PolicyShapes(p, flatten);
    var rule := Complete(spec, c);
    Generated(rule.shape, agent, rule.srcIPBlocks, rule.dstIPBlocks, r);
  }

  /** The policy's rules by id. */
  function SpecMap(specs: seq<RuleSpec>): map<RuleID, RuleSpec> {
    if specs == [] then map[]
    else SpecMap(specs[..|specs| - 1])[specs[|specs| - 1].shape.ruleID := specs[|specs| - 1]]
  }

  lemma {:induction false} SpecMapHas(specs: seq<RuleSpec>, id: RuleID)
    ensures id in SpecMap(specs) ==> SpecMap(specs)[id] in specs && SpecMap(specs)[id].shape.ruleID == id
  {
    if specs != [] && id != specs[|specs| - 1].shape.ruleID { SpecMapHas(specs[..|specs| - 1], id); }
  }

  lemma {:induction false} SpecMapKeeps(specs: seq<RuleSpec>, i: nat)
    requires i < |specs| && forall j :: i < j < |specs| ==> specs[j].shape.ruleID != specs[i].shape.ruleID
    ensures specs[i].shape.ruleID in SpecMap(specs) && SpecMap(specs)[specs[i].shape.ruleID] == specs[i]
  {
    if i < |specs| - 1 { SpecMapKeeps(specs[..|specs| - 1], i); }
  }

  /** An admitted policy without a name clash is a proper update: each of its rules has its own place in the cache. */
  lemma PolicyIsUpdate(p: SecurityPolicy, flatten: Compiler, s: State, world: World, agent: string)
    requires RuleSpecs(p, flatten).Some? && DistinctNames(p.ingressRules) && DistinctNames(p.egressRules)
    requires !(EgressEnabled(p) && Clash(p.egressRules))
    ensures var specs := RuleSpecs(p, flatten).value;
      && Enabled(s, UpdatePolicy(p.key, SpecMap(specs)), world, agent)
      && forall i :: 0 <= i < |specs| ==> specs[i].shape.ruleID in SpecMap(specs)
                                          && SpecMap(specs)[specs[i].shape.ruleID] == specs[i]
  {
    var specs := RuleSpecs(p, flatten).value;
    PolicyShapes(p, flatten);
    RuleIDsDistinctIff(p, flatten);
    forall id | id in SpecMap(specs)
      ensures id.policy == p.key && SpecMap(specs)[id].shape.ruleID == id
    {
      SpecMapHas(specs, id);
    }
    forall i | 0 <= i < |specs|
      ensures specs[i].shape.ruleID in SpecMap(specs) && SpecMap(specs)[specs[i].shape.ruleID] == specs[i]
    {
      forall j | i < j < |specs|
        ensures specs[j].shape.ruleID != specs[i].shape.ruleID
      {
        assert IDs(specs)[i] != IDs(specs)[j];
      }
      SpecMapKeeps(specs, i);
    }
  }
}
