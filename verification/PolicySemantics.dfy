/**
 Security policies in their own terms: whom they protect, what their rules
 admit, and that this is what happens to packets.
 */
module PolicySemantics {
  import opened Strings
  import opened PolicyRules
  import opened IPBlocks
  import opened GroupCache
  import opened RuleCache
  import opened PolicySides
  import opened PolicySync
  import opened PolicyCompletion
  import opened RuleTranslation
  import opened FlattenPorts
  import opened FlowTables
  import opened PortSemantics
  import opened PolicyMeaning
  import PolicyBridge

  /** A packet in one direction on one agent, with the agent's group cache. */
  datatype Sight = Sight(cache: Cache, agent: string, d: Direction, matchIP: MatchIP, t: IPTuple)

  /** What completePolicy makes of a policy. */
  predicate IsSpec(p: SecurityPolicy, flatten: Compiler, spec: RuleSpec) {
    || (IngressEnabled(p) && (OfIngress(p, p.ingressRules, flatten, spec) || spec in DefaultIngress(p)))
    || (EgressEnabled(p) && (OfEgress(p, p.egressRules, flatten, spec) || spec in DefaultEgress(p)))
  }

  predicate OfIngress(p: SecurityPolicy, rules: seq<Rule>, flatten: Compiler, spec: RuleSpec) {
    exists rule :: rule in rules && IngressSpec(p, rule, flatten) == Some(spec)
  }

  predicate OneOfEgress(p: SecurityPolicy, rule: Rule, flatten: Compiler, spec: RuleSpec) {
    EgressSpecs(p, rule, flatten).Some? && spec in EgressSpecs(p, rule, flatten).value
  }

  predicate OfEgress(p: SecurityPolicy, rules: seq<Rule>, flatten: Compiler, spec: RuleSpec) {
    exists rule :: rule in rules && OneOfEgress(p, rule, flatten, spec)
  }

  lemma LastOrBefore<T>(s: seq<T>)
    requires s != []
    ensures forall x :: x in s <==> x in s[..|s| - 1] || x == s[|s| - 1]
  {
    assert s == s[..|s| - 1] + [s[|s| - 1]];
  }

  lemma {:induction false} IngressMembers(p: SecurityPolicy, rules: seq<Rule>, flatten: Compiler, spec: RuleSpec)
    requires IngressAll(p, rules, flatten).Some?
    ensures spec in IngressAll(p, rules, flatten).value <==> OfIngress(p, rules, flatten, spec)
  {
    if rules != [] {
      IngressMembers(p, rules[..|rules| - 1], flatten, spec);
      LastOrBefore(rules);
    }
  }

  lemma {:induction false} EgressMembers(p: SecurityPolicy, rules: seq<Rule>, flatten: Compiler, spec: RuleSpec)
    requires EgressAll(p, rules, flatten).Some?
    ensures spec in EgressAll(p, rules, flatten).value <==> OfEgress(p, rules, flatten, spec)
  {
    if rules != [] {
      var front, last := rules[..|rules| - 1], rules[|rules| - 1];
      EgressMembers(p, front, flatten, spec);
      LastOrBefore(rules);
      assert EgressAll(p, rules, flatten).value == EgressAll(p, front, flatten).value +
        EgressSpecs(p, last, flatten).value;
      assert OfEgress(p, rules, flatten, spec) <==> OfEgress(p, front, flatten, spec)
                                                    || OneOfEgress(p, last, flatten, spec);
    }
  }

  lemma SpecMembers(p: SecurityPolicy, flatten: Compiler, spec: RuleSpec)
    requires RuleSpecs(p, flatten).Some?
    ensures spec in RuleSpecs(p, flatten).value <==> IsSpec(p, flatten, spec)
  {
    if IngressEnabled(p) { IngressMembers(p, p.ingressRules, flatten, spec); }
    if EgressEnabled(p) { EgressMembers(p, p.egressRules, flatten, spec); }
  }

  /** A pair of addresses, one of each side, that matches the packet and is local on the side that enforces. */
  predicate Pair(src: Side, dst: Side, x: Sight, a: string, b: string)
    requires SideResolves(src, x.cache) && SideResolves(dst, x.cache)
  {
    && a in SideBlocks(src, x.cache) && b in SideBlocks(dst, x.cache) && !(a != "" && a == b)
    && AddressMatches(a, x.matchIP, x.t.srcIP) && AddressMatches(b, x.matchIP, x.t.dstIP)
    && HasLocalRule(if x.d == Ingress then SideBlocks(dst, x.cache)[b] else SideBlocks(src, x.cache)[a], x.agent)
  }

  /** The packet goes from one side to the other on one of the ports. */
  ghost predicate Between(src: Side, dst: Side, ports: seq<SecurityPolicyPort>, x: Sight) {
    && SideResolves(src, x.cache) && SideResolves(dst, x.cache)
    && exists a, b :: Pair(src, dst, x, a, b) && PortsAdmit(ports, SideBlocks(dst, x.cache)[b], x.t)
  }

  /**
   The endpoint that the direction is about, the destination of ingress and the
   source of egress, is one the policy applies to.
   */
  ghost predicate Guarded(p: SecurityPolicy, x: Sight) {
    && SideResolves(SideOf(p.appliedTo), x.cache)
    && exists b :: b in SideBlocks(SideOf(p.appliedTo), x.cache)
                   && HasLocalRule(SideBlocks(SideOf(p.appliedTo), x.cache)[b], x.agent)
                && AddressMatches(b, x.matchIP, if x.d == Ingress then x.t.dstIP else x.t.srcIP)
  }

  ghost predicate IngressAdmits(p: SecurityPolicy, rule: Rule, x: Sight) {
    Between(SideOf(rule.peers), SideOf(p.appliedTo), rule.ports, x)
  }

  /** Without peers, numbered ports go anywhere and named ports to the endpoints that have them. */
  ghost predicate EgressAdmits(p: SecurityPolicy, rule: Rule, x: Sight) {
    || (HasPlain(rule) && Between(SideOf(p.appliedTo), SideOf(rule.peers), PlainPorts(rule), x))
    || (HasNamed(rule) && Between(SideOf(p.appliedTo), NamedPortEndpoints, NamedPorts(rule.ports), x))
  }

  predicate DirectionEnabled(p: SecurityPolicy, d: Direction) {
    if d == Ingress then IngressEnabled(p) else EgressEnabled(p)
  }

  /** Some rule of the policy admits the packet; in symmetric mode the rules of the other direction do so as well. */
  ghost predicate Admits(p: SecurityPolicy, x: Sight) {
    || ((x.d == Ingress || p.symmetricMode) && IngressEnabled(p)
        && exists rule :: rule in p.ingressRules && IngressAdmits(p, rule, x))
    || ((x.d == Egress || p.symmetricMode) && EgressEnabled(p)
        && exists rule :: rule in p.egressRules && EgressAdmits(p, rule, x))
  }

  /** The policy covers the direction with a default drop and protects the endpoint. */
  ghost predicate Isolates(p: SecurityPolicy, x: Sight) { DirectionEnabled(p, x.d) && p.defaultDrop && Guarded(p, x) }

  /** The rule of a spec, completed, means the packet. */
  ghost predicate SpecMeans(spec: RuleSpec, x: Sight) {
    && SpecResolves(spec, x.cache) && (spec.shape.symmetricMode || spec.shape.direction == x.d)
    && exists a, b, port :: Pair(spec.src, spec.dst, x, a, b) && port in spec.shape.ports
                            && PortAdmits(port, SideBlocks(spec.dst, x.cache)[b], x.t)
  }

  lemma CompleteMeans(spec: RuleSpec, x: Sight)
    requires SpecResolves(spec, x.cache)
    ensures var r := Complete(spec, x.cache);
      Means(r.shape, x.agent, r.srcIPBlocks, r.dstIPBlocks, x.d, x.matchIP, x.t) <==> SpecMeans(spec, x)
  {
    var r := Complete(spec, x.cache);
    if SpecMeans(spec, x) {
      var a, b, port :| Pair(spec.src, spec.dst, x, a, b) && port in spec.shape.ports
                        && PortAdmits(port, SideBlocks(spec.dst, x.cache)[b], x.t);
      assert Enforced(r.shape, x.agent, r.srcIPBlocks[a], r.dstIPBlocks[b], x.d);
    }
    if Means(r.shape, x.agent, r.srcIPBlocks, r.dstIPBlocks, x.d, x.matchIP, x.t) {
      var a, b, port :|
        && a in r.srcIPBlocks && b in r.dstIPBlocks && port in r.shape.ports
        && AddressMatches(a, x.matchIP, x.t.srcIP) && AddressMatches(b, x.matchIP, x.t.dstIP) && !(a != "" && a == b)
        && Enforced(r.shape, x.agent, r.srcIPBlocks[a], r.dstIPBlocks[b], x.d)
           && PortAdmits(port, r.dstIPBlocks[b], x.t);
      assert Pair(spec.src, spec.dst, x, a, b);
    }
  }

  /** A spec with compiled ports means what lies between its sides on the written ports. */
  lemma CompiledMeans(spec: RuleSpec, ports: seq<SecurityPolicyPort>, x: Sight)
    requires Flattened(ports, spec.shape.ports) && (spec.shape.symmetricMode || spec.shape.direction == x.d)
    ensures SpecMeans(spec, x) <==> Between(spec.src, spec.dst, ports, x)
  {
    if SpecResolves(spec, x.cache) {
      forall b | b in SideBlocks(spec.dst, x.cache)
        ensures PortsAdmit(ports, SideBlocks(spec.dst, x.cache)[b], x.t) <==>
          exists port :: port in spec.shape.ports && PortAdmits(port, SideBlocks(spec.dst, x.cache)[b], x.t)
      {
        CompiledAdmits(ports, spec.shape.ports, SideBlocks(spec.dst, x.cache)[b], x.t);
      }
    }
  }

  lemma IngressMeans(p: SecurityPolicy, rule: Rule, flatten: Compiler, x: Sight)
    requires IsFlatten(flatten) && IngressSpec(p, rule, flatten).Some? && (x.d == Ingress || p.symmetricMode)
    ensures SpecMeans(IngressSpec(p, rule, flatten).value, x) <==> IngressAdmits(p, rule, x)
  {
    CompiledMeans(IngressSpec(p, rule, flatten).value, rule.ports, x);
  }

  function PlainSpec(p: SecurityPolicy, rule: Rule, ports: seq<RulePort>): RuleSpec {
    RuleSpec(Shape(p, PlainID(rule), Egress, ports), SideOf(p.appliedTo), SideOf(rule.peers))
  }

  function NamedSpec(p: SecurityPolicy, rule: Rule, ports: seq<RulePort>): RuleSpec {
    RuleSpec(Shape(p, NamedID(rule), Egress, ports), SideOf(p.appliedTo), NamedPortEndpoints)
  }

  /** The specs of one egress rule. */
  lemma EgressSpecsAre(p: SecurityPolicy, rule: Rule, flatten: Compiler, spec: RuleSpec)
    requires EgressSpecs(p, rule, flatten).Some?
    ensures spec in EgressSpecs(p, rule, flatten).value <==>
      || (HasPlain(rule) && flatten(PlainPorts(rule)).Some?
          && spec == PlainSpec(p, rule, flatten(PlainPorts(rule)).value))
      || (HasNamed(rule) && flatten(NamedPorts(rule.ports)).Some?
          && spec == NamedSpec(p, rule, flatten(NamedPorts(rule.ports)).value))
  {
  }

  lemma EgressMeans(p: SecurityPolicy, rule: Rule, flatten: Compiler, x: Sight)
    requires IsFlatten(flatten) && EgressSpecs(p, rule, flatten).Some? && (x.d == Egress || p.symmetricMode)
    ensures EgressAdmits(p, rule, x)
       <==> exists spec :: spec in EgressSpecs(p, rule, flatten).value && SpecMeans(spec, x)
  {
    if HasPlain(rule) {
      var spec := PlainSpec(p, rule, flatten(PlainPorts(rule)).value);
      EgressSpecsAre(p, rule, flatten, spec);
      CompiledMeans(spec, PlainPorts(rule), x);
    }
    if HasNamed(rule) {
      var spec := NamedSpec(p, rule, flatten(NamedPorts(rule.ports)).value);
      EgressSpecsAre(p, rule, flatten, spec);
      CompiledMeans(spec, NamedPorts(rule.ports), x);
    }
    forall spec | spec in EgressSpecs(p, rule, flatten).value
      ensures || (HasPlain(rule) && spec == PlainSpec(p, rule, flatten(PlainPorts(rule)).value))
              || (HasNamed(rule) && spec == NamedSpec(p, rule, flatten(NamedPorts(rule.ports)).value))
    {
      EgressSpecsAre(p, rule, flatten, spec);
    }
  }

  function DefaultOf(p: SecurityPolicy, d: Direction): seq<RuleSpec> {
    if d == Ingress then DefaultIngress(p) else DefaultEgress(p)
  }

  /** A default rule means every packet of a protected endpoint, in its own direction. */
  lemma DefaultMeans(p: SecurityPolicy, d: Direction, x: Sight)
    requires p.defaultDrop
    ensures SpecMeans(DefaultOf(p, d)[0], x) <==> d == x.d && Guarded(p, x)
  {
    var spec := DefaultOf(p, d)[0];
    assert "" in SideBlocks(Everything, x.cache) && AllPorts in spec.shape.ports;
    assert forall item: IPBlockItem :: PortAdmits(AllPorts, item, x.t);
    if d == x.d && Guarded(p, x) {
      var b :| b in SideBlocks(SideOf(p.appliedTo), x.cache)
               && HasLocalRule(SideBlocks(SideOf(p.appliedTo), x.cache)[b], x.agent)
            && AddressMatches(b, x.matchIP, if d == Ingress then x.t.dstIP else x.t.srcIP);
      assert if d == Ingress then Pair(spec.src, spec.dst, x, "", b) else Pair(spec.src, spec.dst, x, b, "");
    }
  }

  /**
   All rules of a policy share its tier and mode; only the defaults drop, one per
   direction, and they are never symmetric.
   */
  lemma SpecActions(p: SecurityPolicy, flatten: Compiler, spec: RuleSpec)
    requires IsSpec(p, flatten, spec)
    ensures spec.shape.tier == p.tier && spec.shape.mode == p.mode
    ensures spec.shape.action == Drop ==>
      DirectionEnabled(p, spec.shape.direction) && spec in DefaultOf(p, spec.shape.direction)
      && !spec.shape.symmetricMode
    ensures spec.shape.action == Allow ==>
      && spec.shape.symmetricMode == p.symmetricMode && DirectionEnabled(p, spec.shape.direction)
      && if spec.shape.direction == Ingress then OfIngress(p, p.ingressRules, flatten, spec)
        else OfEgress(p, p.egressRules, flatten, spec)
  {
    if OfEgress(p, p.egressRules, flatten, spec) {
      var rule :| rule in p.egressRules && OneOfEgress(p, rule, flatten, spec);
      EgressSpecsAre(p, rule, flatten, spec);
    }
  }

  lemma {:induction false} EgressCompiles(p: SecurityPolicy, rules: seq<Rule>, flatten: Compiler, rule: Rule)
    requires EgressAll(p, rules, flatten).Some? && rule in rules
    ensures EgressSpecs(p, rule, flatten).Some?
  {
    LastOrBefore(rules);
    if rule != rules[|rules| - 1] { EgressCompiles(p, rules[..|rules| - 1], flatten, rule); }
  }

  lemma {:induction false} IngressCompiles(p: SecurityPolicy, rules: seq<Rule>, flatten: Compiler, rule: Rule)
    requires IngressAll(p, rules, flatten).Some? && rule in rules
    ensures IngressSpec(p, rule, flatten).Some?
  {
    LastOrBefore(rules);
    if rule != rules[|rules| - 1] { IngressCompiles(p, rules[..|rules| - 1], flatten, rule); }
  }

  /** Some rule of the policy with the action means the packet. */
  ghost predicate PolicyMeans(p: SecurityPolicy, flatten: Compiler, action: Action, x: Sight) {
    exists spec :: IsSpec(p, flatten, spec) && spec.shape.action == action && SpecMeans(spec, x)
  }

  lemma PolicyDrops(p: SecurityPolicy, flatten: Compiler, x: Sight)
    ensures PolicyMeans(p, flatten, Drop, x) <==> Isolates(p, x)
  {
    if PolicyMeans(p, flatten, Drop, x) {
      var spec :| IsSpec(p, flatten, spec) && spec.shape.action == Drop && SpecMeans(spec, x);
      SpecActions(p, flatten, spec);
      DefaultMeans(p, spec.shape.direction, x);
    }
    if Isolates(p, x) {
      var spec := DefaultOf(p, x.d)[0];
      DefaultMeans(p, x.d, x);
      assert spec in DefaultOf(p, x.d) && IsSpec(p, flatten, spec);
    }
  }

  lemma AllowIsAdmitted(p: SecurityPolicy, flatten: Compiler, spec: RuleSpec, x: Sight)
    requires IsFlatten(flatten) && IsSpec(p, flatten, spec) && spec.shape.action == Allow && SpecMeans(spec, x)
    ensures Admits(p, x)
  {
    SpecActions(p, flatten, spec);
    if spec.shape.direction == Ingress {
      var rule :| rule in p.ingressRules && IngressSpec(p, rule, flatten) == Some(spec);
      IngressMeans(p, rule, flatten, x);
    } else {
      var rule :| rule in p.egressRules && OneOfEgress(p, rule, flatten, spec);
      EgressMeans(p, rule, flatten, x);
    }
  }

  lemma IngressAdmittedIsAllow(p: SecurityPolicy, flatten: Compiler, rule: Rule, x: Sight)
    requires IsFlatten(flatten) && RuleSpecs(p, flatten).Some?
    requires (x.d == Ingress || p.symmetricMode) && IngressEnabled(p)
    requires rule in p.ingressRules && IngressAdmits(p, rule, x)
    ensures PolicyMeans(p, flatten, Allow, x)
  {
    IngressCompiles(p, p.ingressRules, flatten, rule);
    IngressMeans(p, rule, flatten, x);
    var spec := IngressSpec(p, rule, flatten).value;
    assert OfIngress(p, p.ingressRules, flatten, spec) && IsSpec(p, flatten, spec);
  }

  lemma EgressAdmittedIsAllow(p: SecurityPolicy, flatten: Compiler, rule: Rule, x: Sight)
    requires IsFlatten(flatten) && RuleSpecs(p, flatten).Some? && (x.d == Egress || p.symmetricMode) && EgressEnabled(p)
    requires rule in p.egressRules && EgressAdmits(p, rule, x)
    ensures PolicyMeans(p, flatten, Allow, x)
  {
    EgressCompiles(p, p.egressRules, flatten, rule);
    EgressMeans(p, rule, flatten, x);
    var spec :| spec in EgressSpecs(p, rule, flatten).value && SpecMeans(spec, x);
    EgressSpecsAre(p, rule, flatten, spec);
    assert OneOfEgress(p, rule, flatten, spec) && IsSpec(p, flatten, spec);
  }

  lemma PolicyAllows(p: SecurityPolicy, flatten: Compiler, x: Sight)
    requires IsFlatten(flatten) && RuleSpecs(p, flatten).Some?
    ensures PolicyMeans(p, flatten, Allow, x) <==> Admits(p, x)
  {
    if PolicyMeans(p, flatten, Allow, x) {
      var spec :| IsSpec(p, flatten, spec) && spec.shape.action == Allow && SpecMeans(spec, x);
      AllowIsAdmitted(p, flatten, spec, x);
    }
    if Admits(p, x) {
      if (x.d == Ingress || p.symmetricMode) && IngressEnabled(p)
         && exists rule :: rule in p.ingressRules && IngressAdmits(p, rule, x) {
        var rule :| rule in p.ingressRules && IngressAdmits(p, rule, x);
        IngressAdmittedIsAllow(p, flatten, rule, x);
      } else {
        var rule :| rule in p.egressRules && EgressAdmits(p, rule, x);
        EgressAdmittedIsAllow(p, flatten, rule, x);
      }
    }
  }

  /** completePolicy succeeds for each policy. */
  ghost predicate Completes(policies: set<SecurityPolicy>, flatten: Compiler, c: Cache) {
    forall p :: p in policies ==>
      RuleSpecs(p, flatten).Some? && forall spec :: spec in RuleSpecs(p, flatten).value ==> SpecResolves(spec, c)
  }

  /** The rule is one of a policy, completed against the group cache. */
  ghost predicate OneCompleted(policies: set<SecurityPolicy>, flatten: Compiler, c: Cache, r: CompleteRule)
    requires Completes(policies, flatten, c)
  {
    exists p, spec :: p in policies && spec in RuleSpecs(p, flatten).value && r == Complete(spec, c)
  }

  /** The policies, completed against a group cache. */
  ghost predicate Completed(policies: set<SecurityPolicy>, flatten: Compiler, c: Cache, rules: set<CompleteRule>) {
    Completes(policies, flatten, c) && forall r :: r in rules <==> OneCompleted(policies, flatten, c, r)
  }

  predicate InTier(p: SecurityPolicy, tier: PolicyBridge.Tier) { Placed(p.tier, p.mode, tier) }

  /** What completed policies mean is what the policies mean. */
  lemma SomePolicyMeans(policies: set<SecurityPolicy>, flatten: Compiler, rules: set<CompleteRule>, action: Action,
                        tier: PolicyBridge.Tier, x: Sight)
    requires Completed(policies, flatten, x.cache, rules)
    ensures SomeMeans(rules, x.agent, action, tier, x.d, x.matchIP, x.t) <==>
      exists p :: p in policies && InTier(p, tier) && PolicyMeans(p, flatten, action, x)
  {
    if SomeMeans(rules, x.agent, action, tier, x.d, x.matchIP, x.t) {
      var r :| r in rules && r.shape.action == action && Placed(r.shape.tier, r.shape.mode, tier)
            && Means(r.shape, x.agent, r.srcIPBlocks, r.dstIPBlocks, x.d, x.matchIP, x.t);
      var p, spec :| p in policies && spec in RuleSpecs(p, flatten).value && r == Complete(spec, x.cache);
      SpecMembers(p, flatten, spec);
      SpecActions(p, flatten, spec);
      CompleteMeans(spec, x);
      assert PolicyMeans(p, flatten, action, x);
    }
    if p :| p in policies && InTier(p, tier) && PolicyMeans(p, flatten, action, x) {
      var spec :| IsSpec(p, flatten, spec) && spec.shape.action == action && SpecMeans(spec, x);
      SpecMembers(p, flatten, spec);
      SpecActions(p, flatten, spec);
      CompleteMeans(spec, x);
      assert Complete(spec, x.cache) in rules;
    }
  }

  ghost predicate SomeAdmits(policies: set<SecurityPolicy>, tier: PolicyBridge.Tier, x: Sight) {
    exists p :: p in policies && InTier(p, tier) && Admits(p, x)
  }

  ghost predicate SomeIsolates(policies: set<SecurityPolicy>, tier: PolicyBridge.Tier, x: Sight) {
    exists p :: p in policies && InTier(p, tier) && Isolates(p, x)
  }

  lemma TierMeans(policies: set<SecurityPolicy>, flatten: Compiler, rules: set<CompleteRule>, tier: PolicyBridge.Tier,
                  x: Sight)
    requires IsFlatten(flatten) && Completed(policies, flatten, x.cache, rules)
    ensures SomeMeans(rules, x.agent, Allow, tier, x.d, x.matchIP, x.t) <==> SomeAdmits(policies, tier, x)
    ensures SomeMeans(rules, x.agent, Drop, tier, x.d, x.matchIP, x.t) <==> SomeIsolates(policies, tier, x)
  {
    SomePolicyMeans(policies, flatten, rules, Allow, tier, x);
    SomePolicyMeans(policies, flatten, rules, Drop, tier, x);
    forall p | p in policies
      ensures PolicyMeans(p, flatten, Allow, x) <==> Admits(p, x)
      ensures PolicyMeans(p, flatten, Drop, x) <==> Isolates(p, x)
    {
      PolicyAllows(p, flatten, x);
      PolicyDrops(p, flatten, x);
    }
  }

  /**
   What a set of policies says about a packet, tier by tier: an admitting rule
   lets it pass, otherwise an isolating policy stops it. In the last tier the
   agent's own addresses pass first and the global default comes last.
   */
  ghost predicate Refused(policies: set<SecurityPolicy>, global: Option<GlobalPolicy>, internal: Own,
                          x: Sight) {
    if SomeAdmits(policies, PolicyBridge.Tier1, x) then false
    else if SomeIsolates(policies, PolicyBridge.Tier1, x) then true
    else if SomeAdmits(policies, PolicyBridge.Tier2, x) then false
    else if SomeIsolates(policies, PolicyBridge.Tier2, x) then true
    else if Whitelisted(internal, x.d, x.matchIP, x.t) || SomeAdmits(policies, PolicyBridge.Tier3, x) then false
    else SomeIsolates(policies, PolicyBridge.Tier3, x) || GlobalDrops(global)
  }

  lemma CompletedProper(policies: set<SecurityPolicy>, flatten: Compiler, c: Cache, rules: set<CompleteRule>)
    requires Completed(policies, flatten, c, rules)
    ensures AllProper(rules)
  {
    forall r | r in rules
      ensures ProperShape(r.shape)
    {
      var p, spec :| p in policies && spec in RuleSpecs(p, flatten).value && r == Complete(spec, c);
      PolicyShapes(p, flatten);
    }
  }

  lemma DeniedIsRefused(policies: set<SecurityPolicy>, flatten: Compiler, rules: set<CompleteRule>,
                        global: Option<GlobalPolicy>, internal: Own, x: Sight)
    requires IsFlatten(flatten) && Completed(policies, flatten, x.cache, rules)
    ensures DeniedBy(Inventory(rules, global, internal), x.agent, x.d, x.matchIP, x.t)
       <==> Refused(policies, global, internal, x)
  {
    TierMeans(policies, flatten, rules, PolicyBridge.Tier1, x);
    TierMeans(policies, flatten, rules, PolicyBridge.Tier2, x);
    TierMeans(policies, flatten, rules, PolicyBridge.Tier3, x);
  }

  /**
   From policies to packets: with any policies in tiers and modes that have a
   table, the agent's own addresses and the global default on the bridge, for
   every tie-break, a new packet is dropped iff the policies refuse it.
   */
  lemma PoliciesDecide(
      tables: Tables, c: PolicyBridge.Config, tie: TieBreak, p: Packet,
      policies: set<SecurityPolicy>, flatten: Compiler, inv: Inventory, al: Allocation, x: Sight)
    requires PolicyBridge.IsConfig(c) && PolicyBridge.HasBase(tables, c)
    requires PolicyBridge.HasRules(tables, FlowsOf(inv, x.agent, al))
    requires Chooses(tie) && Arriving(p, c, x.d)
    requires IsFlatten(flatten) && Completed(policies, flatten, x.cache, inv.rules)
    ensures Exec(tables, tie, PolicyBridge.DirectionSelectionTable, p, HitsOf(x.matchIP, x.t)).output ==
      if Refused(policies, inv.global, inv.internal, x) then None else Some(PolicyBridge.OtherPort(p, c))
  {
    CompletedProper(policies, flatten, x.cache, inv.rules);
    PoliciesEnforced(tables, c, tie, p, inv, x.agent, al, x.d, x.matchIP, x.t);
    DeniedIsRefused(policies, flatten, inv.rules, inv.global, inv.internal, x);
  }
}
