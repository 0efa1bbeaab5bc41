/**
 From runs to packets: in every state that the agent reaches, a bridge that holds
 the flows of the datapath's database treats packets as the policies say.
 */
module Enforcement {
  import opened Strings
  import opened RuleCache
  import opened PolicySync
  import opened PolicyRuns
  import opened PolicyCompletion
  import opened RuleTranslation
  import opened DatapathMirror
  import opened DatapathRuns
  import opened PolicyMeaning
  import opened PolicySemantics
  import opened PortSemantics
  import opened PolicyIntent
  import DatapathSync
  import FlowTables
  import PolicyBridge
  import CtLabel

  function InstalledRules(installed: Installed): set<PolicyRule> { set n | n in installed :: installed[n] }

  /** What is installed by name is what the cached rules list. */
  lemma InstalledIsListed(s: State, world: World, agent: string)
    requires Inv(s, world, agent)
    ensures InstalledRules(s.installed) == AllListed(s.rules.Values, agent)
  {
    forall r
      ensures r in InstalledRules(s.installed) <==> Has(s.installed, r)
    {
      if r in InstalledRules(s.installed) {
        var n :| n in s.installed && s.installed[n] == r;
        assert NameOf(s.installed[n]) == n;
      }
    }
    forall r
      ensures r in AllListed(s.rules.Values, agent) <==> Has(s.installed, r)
    {
      ListedHas(s, world, agent, r);
    }
  }

  lemma ListedHas(s: State, world: World, agent: string, r: PolicyRule)
    requires Inv(s, world, agent)
    ensures r in AllListed(s.rules.Values, agent) <==> Has(s.installed, r)
  {
    if r in AllListed(s.rules.Values, agent) {
      var c :| c in s.rules.Values && r in ListRules(c, agent);
      var id :| id in s.rules && s.rules[id] == c;
      NamesUnique(c.shape, agent, c.srcIPBlocks, c.dstIPBlocks, r);
    }
    if Has(s.installed, r) {
      assert r.ruleID in s.rules && s.rules[r.ruleID] in s.rules.Values;
    }
  }

  /** The cached rules are recomputed ones, and proper. */
  lemma RulesRecomputed(s: State, world: World, agent: string)
    requires Inv(s, world, agent) && ProperSpecs(s.specs)
    ensures AllResolve(s.specs, s.cache) && s.rules == CompleteAll(s.specs, s.cache) && AllProper(s.rules.Values)
  {
    forall r | r in s.rules.Values
      ensures ProperShape(r.shape)
    {
      var id :| id in s.rules && s.rules[id] == r;
    }
  }

  lemma GlobalPart(installed: Installed, g: Option<GlobalPolicy>)
    requires PolicyOnly(installed)
    ensures InstalledRules(installed + GlobalInstalled(g)) == InstalledRules(installed) + GlobalRules(g)
  {
    GlobalLists(g);
    PartsOf(installed, GlobalInstalled(g), GlobalRules(g));
  }

  lemma PartsOf(m: Installed, m': Installed, rs: set<PolicyRule>)
    requires m.Keys !! m'.Keys && Lists(m', rs)
    ensures InstalledRules(m + m') == InstalledRules(m) + rs
  {
    forall r | r in InstalledRules(m) + rs
      ensures r in InstalledRules(m + m')
    {
      if r in rs {
        assert (m + m')[NameOf(r)] == r;
      } else {
        var n :| n in m && m[n] == r;
        assert (m + m')[n] == r;
      }
    }
    forall r | r in InstalledRules(m + m')
      ensures r in InstalledRules(m) + rs
    {
      var n :| n in m + m' && (m + m')[n] == r;
      if n in m' {
        var r' :| r' in rs && NameOf(r') == n;
      }
    }
  }

  /** How the datapath writes flow keys and flow ids, on one of its bridges. */
  datatype Encoding = Encoding(bridge: string, hash: FlowKey -> string, word: nat -> CtLabel.Word)

  function IDOf(d: RuleDatabase, enc: Encoding, k: Key): CtLabel.Word {
    if k in d.rules && enc.bridge in d.rules[k].flows then enc.word(d.rules[k].flows[enc.bridge]) else CtLabel.Zero
  }

  function StoredFlow(d: RuleDatabase, enc: Encoding, k: Key): PolicyBridge.PolicyFlow
    requires k in d.rules
  {
    match k
    case OfFlow(f) =>
      var action := d.rules[k].rule;
      var r := PolicyRule(RuleID("", ""), action, f.direction, f.ruleType, f.tier, f.mode, f.src, f.dst, f.port);
      PolicyBridge.PolicyFlow(BridgeDirection(r.direction), TierOf(r.tier), ModeOf(r.mode),
                              ToEveroutePolicyRule(enc.hash(f), r), IDOf(d, enc, k))
    case OfAddress(ip, direction) =>
      PolicyBridge.PolicyFlow(BridgeDirection(direction), PolicyBridge.Tier3, PolicyBridge.Work,
                              InternalRule(ip, direction), IDOf(d, enc, k))
  }

  /** The flows on the bridge: one for each stored rule, as long as the flow's id is known. */
  function OnBridge(d: RuleDatabase, enc: Encoding): set<PolicyBridge.PolicyFlow> {
    set k | k in d.rules && enc.bridge in d.rules[k].flows && d.rules[k].flows[enc.bridge] in d.flowIDToRules ::
      StoredFlow(d, enc, k)
  }

  function AllocationOf(d: RuleDatabase, enc: Encoding): Allocation {
    Allocation((r: PolicyRule) => enc.hash(FlowKeyOf(r)), (r: PolicyRule) => IDOf(d, enc, OfFlow(FlowKeyOf(r))),
               (ip: string, direction: Direction) => IDOf(d, enc, OfAddress(ip, direction)))
  }

  function OwnOf(internal: set<Address>): Own { set a | a in internal :: (a.ip, a.direction) }

  lemma RuleOnBridge(d: RuleDatabase, installed: Installed, internal: set<Address>, enc: Encoding, n: RuleName)
    requires Mirrors(d, installed, internal) && DatapathSync.Covers(d, enc.bridge) && n in installed
    ensures OfFlow(n.key) in d.rules && d.rules[OfFlow(n.key)].flows[enc.bridge] in d.flowIDToRules
    ensures StoredFlow(d, enc, OfFlow(n.key)) == FlowOf(installed[n], AllocationOf(d, enc))
  {
    DatapathSync.StaysInstalled(d, installed, internal, n);
    assert NameOf(installed[n]) == n;
  }

  lemma AddressOnBridge(d: RuleDatabase, installed: Installed, internal: set<Address>, enc: Encoding, a: Address)
    requires Mirrors(d, installed, internal) && DatapathSync.Covers(d, enc.bridge) && a in internal
    ensures var k := OfAddress(a.ip, a.direction);
      && k in d.rules && d.rules[k].flows[enc.bridge] in d.flowIDToRules
      && StoredFlow(d, enc, k) == InternalFlow(a.ip, a.direction, AllocationOf(d, enc))
  {
    assert IsReference(installed, internal, OfAddress(a.ip, a.direction), ByAddress(a.index));
  }

  lemma StoredIsInstalled(d: RuleDatabase, installed: Installed, internal: set<Address>, enc: Encoding, k: Key)
    requires Mirrors(d, installed, internal) && DatapathSync.Covers(d, enc.bridge) && k in d.rules
    ensures StoredFlow(d, enc, k) in BridgeFlows(InstalledRules(installed), OwnOf(internal), AllocationOf(d, enc))
  {
    var o := SomeReference(d, k);
    assert IsReference(installed, internal, k, o);
    if k.OfFlow? {
      RuleOnBridge(d, installed, internal, enc, o.name);
      assert installed[o.name] in InstalledRules(installed);
    } else {
      var a := Address(k.ip, k.direction, o.index);
      AddressOnBridge(d, installed, internal, enc, a);
      assert (a.ip, a.direction) in OwnOf(internal);
    }
  }

  /** A database that mirrors what is installed has exactly the flows of what is installed on the bridge. */
  lemma OnBridgeIs(d: RuleDatabase, installed: Installed, internal: set<Address>, enc: Encoding)
    requires Mirrors(d, installed, internal) && DatapathSync.Covers(d, enc.bridge)
    ensures OnBridge(d, enc) == BridgeFlows(InstalledRules(installed), OwnOf(internal), AllocationOf(d, enc))
  {
    var flows := BridgeFlows(InstalledRules(installed), OwnOf(internal), AllocationOf(d, enc));
    forall f | f in OnBridge(d, enc)
      ensures f in flows
    {
      var k :| k in d.rules && f == StoredFlow(d, enc, k);
      StoredIsInstalled(d, installed, internal, enc, k);
    }
    forall f | f in flows
      ensures f in OnBridge(d, enc)
    {
      if r :| r in InstalledRules(installed) && f == FlowOf(r, AllocationOf(d, enc)) {
        var n :| n in installed && installed[n] == r;
        RuleOnBridge(d, installed, internal, enc, n);
      } else {
        var p :| p in OwnOf(internal) && f == InternalFlow(p.0, p.1, AllocationOf(d, enc));
        var a :| a in internal && (a.ip, a.direction) == p;
        AddressOnBridge(d, installed, internal, enc, a);
      }
    }
  }

  function RulesByID(p: SecurityPolicy, flatten: Compiler): map<RuleID, RuleSpec> {
    if RuleSpecs(p, flatten).Some? then SpecMap(RuleSpecs(p, flatten).value) else map[]
  }

  /** Admitted, with ports that compile and without a name clash. */
  ghost predicate Sane(p: SecurityPolicy, flatten: Compiler) {
    && RuleSpecs(p, flatten).Some? && DistinctNames(p.ingressRules) && DistinctNames(p.egressRules)
    && !(EgressEnabled(p) && Clash(p.egressRules))
  }

  /** An update of policies carries the rules of a policy. */
  ghost predicate Carries(step: Step, p: SecurityPolicy, flatten: Compiler) {
    step.Reconcile? && step.e.UpdatePolicy? ==>
      Sane(p, flatten) && p.key == step.e.key && step.e.specs == RulesByID(p, flatten)
  }

  ghost predicate AllCarry(steps: seq<Step>, given: seq<SecurityPolicy>, flatten: Compiler) {
    |given| == |steps| && forall j :: 0 <= j < |steps| ==> Carries(steps[j], given[j], flatten)
  }

  /** The policies in force after an event: an update counts once all its peers resolve. */
  function InForceAfter(s: State, e: Event, p: SecurityPolicy, before: map<string, SecurityPolicy>)
    : map<string, SecurityPolicy>
  {
    match e
    case UpdatePolicy(key, specs) => if AllResolve(specs, s.cache) then before[key := p] else before
    case DeletePolicy(key) => before - {key}
    case _ => before
  }

  function InForceBy(a: Node, step: Step, p: SecurityPolicy, before: map<string, SecurityPolicy>)
    : map<string, SecurityPolicy>
  {
    if step.Reconcile? then InForceAfter(a.s, step.e, p, before) else before
  }

  function InForce(nodes: seq<Node>, steps: seq<Step>, given: seq<SecurityPolicy>, i: nat): map<string, SecurityPolicy>
    requires i <= |steps| == |given| && |nodes| == |steps| + 1
  {
    if i == 0 then map[]
    else InForceBy(nodes[i - 1], steps[i - 1], given[i - 1], InForce(nodes, steps, given, i - 1))
  }

  /** The cached specs are those of the policies in force. */
  ghost predicate Backed(specs: map<RuleID, RuleSpec>, policies: map<string, SecurityPolicy>, flatten: Compiler) {
    && (forall key :: key in policies ==> policies[key].key == key && Sane(policies[key], flatten))
    && forall id :: BackedAt(specs, policies, flatten, id)
  }

  ghost predicate BackedAt(specs: map<RuleID, RuleSpec>, policies: map<string, SecurityPolicy>, flatten: Compiler,
                           id: RuleID) {
    && (id in specs <==> id.policy in policies && id in RulesByID(policies[id.policy], flatten))
    && (id in specs ==> specs[id] == RulesByID(policies[id.policy], flatten)[id])
  }

  lemma UpdateBacked(s: State, key: string, p: SecurityPolicy, policies: map<string, SecurityPolicy>, flatten: Compiler,
                     world: World, agent: string, specs: map<RuleID, RuleSpec>)
    requires Inv(s, world, agent) && Backed(s.specs, policies, flatten) && Sane(p, flatten) && p.key == key
    requires specs == RulesByID(p, flatten) && forall id :: id in specs ==> id.policy == key
    ensures Backed((s.specs - OfPolicy(s.rules, key).Keys) + specs, policies[key := p], flatten)
  {
    var specs', policies' := (s.specs - OfPolicy(s.rules, key).Keys) + specs, policies[key := p];
    forall id
      ensures BackedAt(specs', policies', flatten, id)
    {
      assert BackedAt(s.specs, policies, flatten, id);
      ReplacedAt(s.specs, OfPolicy(s.rules, key).Keys, specs, policies, key, p, flatten, id);
    }
  }

  lemma ReplacedAt(specs: map<RuleID, RuleSpec>, gone: set<RuleID>, added: map<RuleID, RuleSpec>,
                   policies: map<string, SecurityPolicy>, key: string, p: SecurityPolicy, flatten: Compiler, id: RuleID)
    requires BackedAt(specs, policies, flatten, id) && added == RulesByID(p, flatten)
    requires id in gone <==> id in specs && id.policy == key
    requires id in added ==> id.policy == key
    ensures BackedAt((specs - gone) + added, policies[key := p], flatten, id)
  {
  }

  lemma DeleteBacked(s: State, key: string, policies: map<string, SecurityPolicy>, flatten: Compiler, world: World,
                     agent: string)
    requires Inv(s, world, agent) && Backed(s.specs, policies, flatten)
    ensures Backed((s.specs - OfPolicy(s.rules, key).Keys) + map[], policies - {key}, flatten)
  {
    var specs', policies' := (s.specs - OfPolicy(s.rules, key).Keys) + map[], policies - {key};
    forall id
      ensures BackedAt(specs', policies', flatten, id)
    {
      assert BackedAt(s.specs, policies, flatten, id);
    }
  }

  lemma BackedNext(s: State, e: Event, p: SecurityPolicy, policies: map<string, SecurityPolicy>, flatten: Compiler,
                   world: World, agent: string)
    requires Inv(s, world, agent) && Enabled(s, e, world, agent) && Carries(Reconcile(e), p, flatten)
    requires Safe(s, e) && Backed(s.specs, policies, flatten)
    ensures Backed(Next(s, e, world, agent).specs, InForceAfter(s, e, p, policies), flatten)
  {
    match e
    case UpdatePolicy(key, specs) =>
      if AllResolve(specs, s.cache) {
        UpdateBacked(s, key, p, policies, flatten, world, agent, specs);
        assert Next(s, e, world, agent).specs == (s.specs - OfPolicy(s.rules, key).Keys) + specs;
      }
    case DeletePolicy(key) =>
      DeleteBacked(s, key, policies, flatten, world, agent);
      assert Next(s, e, world, agent).specs == (s.specs - OfPolicy(s.rules, key).Keys) + map[];
    case _ =>
      assert Next(s, e, world, agent).specs == s.specs;
  }

  lemma BackedStep(a: Node, step: Step, b: Node, p: SecurityPolicy, policies: map<string, SecurityPolicy>,
                   flatten: Compiler, world: World, agent: string, bridge: string)
    requires Inv(a.s, world, agent) && StepTo(a, step, b, world, agent, bridge) && Carries(step, p, flatten)
    requires Backed(a.s.specs, policies, flatten)
    ensures Backed(b.s.specs, InForceBy(a, step, p, policies), flatten)
  {
    if step.Reconcile? {
      StepSafe(a.s, step.e, world, agent);
      BackedNext(a.s, step.e, p, policies, flatten, world, agent);
    }
  }

  /** The step keeps the specs those of the policies in force. */
  ghost predicate KeepsBacked(a: Node, step: Step, b: Node, p: SecurityPolicy, flatten: Compiler) {
    forall policies :: Backed(a.s.specs, policies, flatten) ==>
      Backed(b.s.specs, InForceBy(a, step, p, policies), flatten)
  }

  lemma RunStep(nodes: seq<Node>, steps: seq<Step>, given: seq<SecurityPolicy>, flatten: Compiler, world: World,
                agent: string, bridge: string, i: nat)
    requires NodeRun(nodes, steps, world, agent, bridge) && AllCarry(steps, given, flatten) && i < |steps|
    ensures KeepsBacked(nodes[i], steps[i], nodes[i + 1], given[i], flatten)
  {
    EveryDatabaseMirrors(nodes, steps, world, agent, bridge, i);
    StepKeepsBacked(nodes[i], steps[i], nodes[i + 1], given[i], flatten, world, agent, bridge);
  }

  lemma StepKeepsBacked(a: Node, step: Step, b: Node, p: SecurityPolicy, flatten: Compiler, world: World,
                        agent: string, bridge: string)
    requires Inv(a.s, world, agent) && StepTo(a, step, b, world, agent, bridge) && Carries(step, p, flatten)
    ensures KeepsBacked(a, step, b, p, flatten)
  {
    forall policies | Backed(a.s.specs, policies, flatten)
      ensures Backed(b.s.specs, InForceBy(a, step, p, policies), flatten)
    {
      BackedStep(a, step, b, p, policies, flatten, world, agent, bridge);
    }
  }

  lemma {:induction false} BackedAlong(nodes: seq<Node>, steps: seq<Step>, given: seq<SecurityPolicy>,
      flatten: Compiler, i: nat)
    requires i <= |steps| == |given| && |nodes| == |steps| + 1 && nodes[0].s.specs == map[]
    requires forall j :: 0 <= j < i ==> KeepsBacked(nodes[j], steps[j], nodes[j + 1], given[j], flatten)
    ensures Backed(nodes[i].s.specs, InForce(nodes, steps, given, i), flatten)
  {
    if i > 0 {
      BackedAlong(nodes, steps, given, flatten, i - 1);
      assert KeepsBacked(nodes[i - 1], steps[i - 1], nodes[i - 1 + 1], given[i - 1], flatten);
    }
  }

  lemma EveryStateBacked(nodes: seq<Node>, steps: seq<Step>, given: seq<SecurityPolicy>, flatten: Compiler,
                         world: World, agent: string, bridge: string, i: nat)
    requires NodeRun(nodes, steps, world, agent, bridge) && AllCarry(steps, given, flatten) && i < |nodes|
    ensures Backed(nodes[i].s.specs, InForce(nodes, steps, given, i), flatten)
  {
    forall j | 0 <= j < i
      ensures KeepsBacked(nodes[j], steps[j], nodes[j + 1], given[j], flatten)
    {
      RunStep(nodes, steps, given, flatten, world, agent, bridge, j);
    }
    BackedAlong(nodes, steps, given, flatten, i);
  }

  lemma SpecInCache(s: State, policies: map<string, SecurityPolicy>, flatten: Compiler, world: World, agent: string,
                    key: string, spec: RuleSpec)
    requires Inv(s, world, agent) && Backed(s.specs, policies, flatten) && key in policies
    requires spec in RuleSpecs(policies[key], flatten).value
    ensures spec.shape.ruleID in s.specs && s.specs[spec.shape.ruleID] == spec
  {
    var p := policies[key];
    PolicyIsUpdate(p, flatten, s, world, agent);
    PolicyShapes(p, flatten);
    assert BackedAt(s.specs, policies, flatten, spec.shape.ruleID);
  }

  lemma CacheIsSpec(s: State, policies: map<string, SecurityPolicy>, flatten: Compiler, id: RuleID)
    requires Backed(s.specs, policies, flatten) && id in s.specs
    ensures id.policy in policies && s.specs[id] in RuleSpecs(policies[id.policy], flatten).value
  {
    assert BackedAt(s.specs, policies, flatten, id);
    SpecMapHas(RuleSpecs(policies[id.policy], flatten).value, id);
  }

  lemma PolicyIsCached(s: State, policies: map<string, SecurityPolicy>, flatten: Compiler, world: World, agent: string,
                       p: SecurityPolicy, spec: RuleSpec)
    requires Inv(s, world, agent) && Backed(s.specs, policies, flatten) && AllResolve(s.specs, s.cache)
    requires p in policies.Values && RuleSpecs(p, flatten).Some? && spec in RuleSpecs(p, flatten).value
    ensures SpecResolves(spec, s.cache) && Complete(spec, s.cache) in CompleteAll(s.specs, s.cache).Values
  {
    var key :| key in policies && policies[key] == p;
    SpecInCache(s, policies, flatten, world, agent, key, spec);
    var rules := CompleteAll(s.specs, s.cache);
    assert rules[spec.shape.ruleID] in rules.Values;
  }

  lemma CachedIsPolicy(s: State, policies: map<string, SecurityPolicy>, flatten: Compiler, r: CompleteRule)
    returns (p: SecurityPolicy, spec: RuleSpec)
    requires Backed(s.specs, policies, flatten) && AllResolve(s.specs, s.cache)
    requires r in CompleteAll(s.specs, s.cache).Values
    ensures p in policies.Values && RuleSpecs(p, flatten).Some? && spec in RuleSpecs(p, flatten).value
    ensures SpecResolves(spec, s.cache) && r == Complete(spec, s.cache)
  {
    var rules := CompleteAll(s.specs, s.cache);
    var id :| id in rules && rules[id] == r;
    CacheIsSpec(s, policies, flatten, id);
    p, spec := policies[id.policy], s.specs[id];
  }

  lemma PoliciesComplete(s: State, policies: map<string, SecurityPolicy>, flatten: Compiler, world: World,
                         agent: string)
    requires Inv(s, world, agent) && Backed(s.specs, policies, flatten)
    ensures AllResolve(s.specs, s.cache) && Completes(policies.Values, flatten, s.cache)
  {
    forall p | p in policies.Values
      ensures RuleSpecs(p, flatten).Some?
      ensures forall spec :: spec in RuleSpecs(p, flatten).value ==> SpecResolves(spec, s.cache)
    {
      var key :| key in policies && policies[key] == p;
      forall spec | spec in RuleSpecs(p, flatten).value
        ensures SpecResolves(spec, s.cache)
      {
        SpecInCache(s, policies, flatten, world, agent, key, spec);
      }
    }
  }

  /** The rules recomputed from the cache are the completed policies in force. */
  lemma CompletedInForce(s: State, policies: map<string, SecurityPolicy>, flatten: Compiler, world: World,
                         agent: string)
    requires Inv(s, world, agent) && Backed(s.specs, policies, flatten)
    ensures AllResolve(s.specs, s.cache)
    ensures Completed(policies.Values, flatten, s.cache, CompleteAll(s.specs, s.cache).Values)
  {
    PoliciesComplete(s, policies, flatten, world, agent);
    forall r
      ensures r in CompleteAll(s.specs, s.cache).Values <==> OneCompleted(policies.Values, flatten, s.cache, r)
    {
      CompletedAt(s, policies, flatten, world, agent, r);
    }
  }

  lemma CompletedAt(s: State, policies: map<string, SecurityPolicy>, flatten: Compiler, world: World, agent: string,
                    r: CompleteRule)
    requires Inv(s, world, agent) && Backed(s.specs, policies, flatten)
    requires AllResolve(s.specs, s.cache) && Completes(policies.Values, flatten, s.cache)
    ensures r in CompleteAll(s.specs, s.cache).Values <==> OneCompleted(policies.Values, flatten, s.cache, r)
  {
    if r in CompleteAll(s.specs, s.cache).Values {
      var p, spec := CachedIsPolicy(s, policies, flatten, r);
    }
    if OneCompleted(policies.Values, flatten, s.cache, r) {
      var p, spec :| p in policies.Values && spec in RuleSpecs(p, flatten).value && r == Complete(spec, s.cache);
      PolicyIsCached(s, policies, flatten, world, agent, p, spec);
    }
  }

  /** In one state: what is on the bridge are the flows of the inventory that is recomputed from the cache. */
  lemma BridgeHoldsInventory(a: Node, world: World, agent: string, enc: Encoding)
    requires NodeInv(a, world, agent, enc.bridge)
    ensures AllResolve(a.s.specs, a.s.cache)
    ensures var inv := Inventory(CompleteAll(a.s.specs, a.s.cache).Values, a.global, OwnOf(a.internal));
      OnBridge(a.d, enc) == FlowsOf(inv, agent, AllocationOf(a.d, enc))
  {
    RulesRecomputed(a.s, world, agent);
    InstalledIsListed(a.s, world, agent);
    GlobalPart(a.s.installed, a.global);
    OnBridgeIs(a.d, a.s.installed + GlobalInstalled(a.global), a.internal, enc);
  }

  /**
   Over every run of the agent, with deliveries, patches, policy changes, changes
   of the global default and of the agent's addresses in any order, and for every
   tie-break: a new packet that meets a bridge with the flows that the datapath
   knows of at that moment is dropped iff the policies in force refuse it, as their
   fields, those of the cached members, the global default and the agent's own
   addresses say.
   */
  lemma EveryStateEnforces(
      nodes: seq<Node>, steps: seq<Step>, given: seq<SecurityPolicy>, flatten: Compiler, world: World, i: nat,
      enc: Encoding, tables: FlowTables.Tables, c: PolicyBridge.Config, tie: FlowTables.TieBreak, p: FlowTables.Packet,
      x: Sight)
    requires NodeRun(nodes, steps, world, x.agent, enc.bridge) && i < |nodes|
    requires IsFlatten(flatten) && AllCarry(steps, given, flatten)
    requires x.cache == nodes[i].s.cache
    requires PolicyBridge.IsConfig(c) && PolicyBridge.HasBase(tables, c)
    requires PolicyBridge.HasRules(tables, OnBridge(nodes[i].d, enc))
    requires FlowTables.Chooses(tie) && Arriving(p, c, x.d)
    ensures
      var policies := InForce(nodes, steps, given, i).Values;
      FlowTables.Exec(tables, tie, PolicyBridge.DirectionSelectionTable, p, HitsOf(x.matchIP, x.t)).output ==
      if Refuse(policies, nodes[i].global, OwnOf(nodes[i].internal), x) then None
      else Some(PolicyBridge.OtherPort(p, c))
  {
    EveryDatabaseMirrors(nodes, steps, world, x.agent, enc.bridge, i);
    EveryStateBacked(nodes, steps, given, flatten, world, x.agent, enc.bridge, i);
    NodeEnforces(nodes[i], InForce(nodes, steps, given, i), flatten, world, enc, tables, c, tie, p, x);
  }

  lemma NodeEnforces(
      a: Node, policies: map<string, SecurityPolicy>, flatten: Compiler, world: World,
      enc: Encoding, tables: FlowTables.Tables, c: PolicyBridge.Config, tie: FlowTables.TieBreak, p: FlowTables.Packet,
      x: Sight)
    requires NodeInv(a, world, x.agent, enc.bridge) && Backed(a.s.specs, policies, flatten) && IsFlatten(flatten)
    requires x.cache == a.s.cache
    requires PolicyBridge.IsConfig(c) && PolicyBridge.HasBase(tables, c)
    requires PolicyBridge.HasRules(tables, OnBridge(a.d, enc)) && FlowTables.Chooses(tie) && Arriving(p, c, x.d)
    ensures FlowTables.Exec(tables, tie, PolicyBridge.DirectionSelectionTable, p, HitsOf(x.matchIP, x.t)).output ==
      if Refuse(policies.Values, a.global, OwnOf(a.internal), x) then None else Some(PolicyBridge.OtherPort(p, c))
  {
    BridgeHoldsInventory(a, world, x.agent, enc);
    CompletedInForce(a.s, policies, flatten, world, x.agent);
    var inv := Inventory(CompleteAll(a.s.specs, a.s.cache).Values, a.global, OwnOf(a.internal));
    PoliciesMean(tables, c, tie, p, policies.Values, flatten, inv, AllocationOf(a.d, enc), x);
  }
}
