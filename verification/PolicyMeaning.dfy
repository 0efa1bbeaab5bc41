/**
 What a complete rule means for packets, and what the rules of a tier decide
 together.
 */
module PolicyMeaning {
  import opened Uint16
  import opened PolicyRules
  import opened Strings
  import opened IPBlocks
  import opened RuleCache
  import opened RuleTranslation
  import opened FlowTables
  import PolicyBridge
  import PolicyVerdict
  import CtLabel

  type MatchIP = (string, string) -> bool

  predicate AddressMatches(block: string, matchIP: MatchIP, ip: string) { block == "" || matchIP(block, ip) }

  predicate ProtocolMatches(protocol: Protocol, number: nat) {
    ProtocolToInt(protocol) == 0 || ProtocolToInt(protocol) == number
  }

  /** A numbered port by its mask; a named port by the numbers that the destination itself gives to the name. */
  predicate PortAdmits(port: RulePort, dstItem: IPBlockItem, t: IPTuple) {
    ProtocolMatches(port.protocol, t.protocol) &&
    if port.dstPortName == "" then
      && (port.srcPort == 0 || MatchPort(port.srcPortMask, port.srcPort, t.srcPort))
      && (port.dstPort == 0 || MatchPort(port.dstPortMask, port.dstPort, t.dstPort))
    else
      dstItem.Item? && exists n :: n in dstItem.ports && n.name == port.dstPortName && n.protocol == port.protocol
                                  && (n.port % Modulus == 0 || n.port % Modulus == t.dstPort)
  }

  /** The pair of addresses is enforced here: ingress where the destination is local, egress where the source is. */
  predicate Enforced(rule: RuleShape, agent: string, srcItem: IPBlockItem, dstItem: IPBlockItem, d: Direction) {
    && (rule.symmetricMode || rule.direction == d)
    && HasLocalRule(if d == Ingress then dstItem else srcItem, agent)
  }

  /** What the rule says about a packet in one direction, on this agent. */
  ghost predicate Means(rule: RuleShape, agent: string, srcs: IPBlockMap, dsts: IPBlockMap, d: Direction,
                        matchIP: MatchIP, t: IPTuple) {
    exists src, dst, port ::
      && src in srcs && dst in dsts && port in rule.ports
      && AddressMatches(src, matchIP, t.srcIP) && AddressMatches(dst, matchIP, t.dstIP) && !(src != "" && src == dst)
      && Enforced(rule, agent, srcs[src], dsts[dst], d) && PortAdmits(port, dsts[dst], t)
  }

  /** The listed rule matches the packet in the datapath. */
  predicate RuleHits(r: PolicyRule, d: Direction, matchIP: MatchIP, t: IPTuple) {
    r.direction == d && MatchIPTuple(ToEveroutePolicyRule("", r), matchIP, t)
  }

  lemma FullMask(p: uint16, q: uint16)
    ensures MatchPort(0xffff, p, q) <==> p == q
  {
    Pow2Values();
    BitAndAllOnes(p, 16);
    BitAndAllOnes(q, 16);
  }

  /** A port admits a packet iff one of the ports it resolves to matches. */
  lemma PortAdmitsIff(port: RulePort, dstItem: IPBlockItem, t: IPTuple)
    ensures PortAdmits(port, dstItem, t) <==>
      exists q :: q in DstPorts(port, dstItem) && ProtocolMatches(q.protocol, t.protocol)
               && (q.srcPort == 0 || MatchPort(q.srcPortMask, q.srcPort, t.srcPort))
               && (q.dstPort == 0 || MatchPort(q.dstPortMask, q.dstPort, t.dstPort))
  {
    if port.dstPortName != "" && dstItem.Item? {
      forall n | n in dstItem.ports
        ensures MatchPort(0xffff, n.port % Modulus, t.dstPort) <==> n.port % Modulus == t.dstPort
      {
        FullMask(n.port % Modulus, t.dstPort);
      }
      if PortAdmits(port, dstItem, t) {
        var n :| n in dstItem.ports && n.name == port.dstPortName && n.protocol == port.protocol
              && (n.port % Modulus == 0 || n.port % Modulus == t.dstPort);
        assert RulePort(0, n.port % Modulus, 0, 0xffff, "", "", port.protocol) in DstPorts(port, dstItem);
      }
    } else if port.dstPortName == "" {
      assert port in DstPorts(port, dstItem);
    }
  }

  lemma GeneratedHits(rule: RuleShape, src: string, dst: string, d: Direction, q: RulePort, matchIP: MatchIP,
                      t: IPTuple)
    ensures RuleHits(GenerateRule(rule, src, dst, d, q), d, matchIP, t) <==>
      && AddressMatches(src, matchIP, t.srcIP) && AddressMatches(dst, matchIP, t.dstIP)
         && ProtocolMatches(q.protocol, t.protocol)
      && (q.srcPort == 0 || MatchPort(q.srcPortMask, q.srcPort, t.srcPort))
      && (q.dstPort == 0 || MatchPort(q.dstPortMask, q.dstPort, t.dstPort))
  {
  }

  lemma EnforcedIff(rule: RuleShape, agent: string, srcItem: IPBlockItem, dstItem: IPBlockItem, d: Direction)
    ensures d in Directions(rule, agent, srcItem, dstItem) <==> Enforced(rule, agent, srcItem, dstItem, d)
  {
  }

  /** Some listed rule matches the packet iff the complete rule means it. */
  lemma ListedIffMeant(rule: RuleShape, agent: string, srcs: IPBlockMap, dsts: IPBlockMap, d: Direction,
                       matchIP: MatchIP, t: IPTuple)
    ensures (exists r :: r in GenerateRuleList(rule, agent, srcs, dsts) && RuleHits(r, d, matchIP, t))
       <==> Means(rule, agent, srcs, dsts, d, matchIP, t)
  {
    if exists r :: r in GenerateRuleList(rule, agent, srcs, dsts) && RuleHits(r, d, matchIP, t) {
      var r :| r in GenerateRuleList(rule, agent, srcs, dsts) && RuleHits(r, d, matchIP, t);
      HitIsMeant(rule, agent, srcs, dsts, d, matchIP, t, r);
    }
    if Means(rule, agent, srcs, dsts, d, matchIP, t) {
      var r := MeantIsListed(rule, agent, srcs, dsts, d, matchIP, t);
    }
  }

  lemma HitIsMeant(rule: RuleShape, agent: string, srcs: IPBlockMap, dsts: IPBlockMap, d: Direction, matchIP: MatchIP,
                   t: IPTuple, r: PolicyRule)
    requires r in GenerateRuleList(rule, agent, srcs, dsts) && RuleHits(r, d, matchIP, t)
    ensures Means(rule, agent, srcs, dsts, d, matchIP, t)
  {
    Generated(rule, agent, srcs, dsts, r);
    var src, dst := r.src, r.dst;
    var port, q, direction :| port in rule.ports && q in DstPorts(port, dsts[dst])
                              && direction in Directions(rule, agent, srcs[src], dsts[dst])
      && r == GenerateRule(rule, src, dst, direction, q);
    EnforcedIff(rule, agent, srcs[src], dsts[dst], d);
    GeneratedHits(rule, src, dst, d, q, matchIP, t);
    PortAdmitsIff(port, dsts[dst], t);
  }

  lemma MeantIsListed(rule: RuleShape, agent: string, srcs: IPBlockMap, dsts: IPBlockMap, d: Direction,
                      matchIP: MatchIP, t: IPTuple) returns (r: PolicyRule)
    requires Means(rule, agent, srcs, dsts, d, matchIP, t)
    ensures r in GenerateRuleList(rule, agent, srcs, dsts) && RuleHits(r, d, matchIP, t)
  {
    var src, dst, port :|
      && src in srcs && dst in dsts && port in rule.ports
      && AddressMatches(src, matchIP, t.srcIP) && AddressMatches(dst, matchIP, t.dstIP) && !(src != "" && src == dst)
      && Enforced(rule, agent, srcs[src], dsts[dst], d) && PortAdmits(port, dsts[dst], t);
    PortAdmitsIff(port, dsts[dst], t);
    var q :| q in DstPorts(port, dsts[dst]) && ProtocolMatches(q.protocol, t.protocol)
               && (q.srcPort == 0 || MatchPort(q.srcPortMask, q.srcPort, t.srcPort))
               && (q.dstPort == 0 || MatchPort(q.dstPortMask, q.dstPort, t.dstPort));
    EnforcedIff(rule, agent, srcs[src], dsts[dst], d);
    GeneratedHits(rule, src, dst, d, q, matchIP, t);
    r := GenerateRule(rule, src, dst, d, q);
    assert r in Emits(rule, agent, srcs[src], dsts[dst], src, dst);
    Generated(rule, agent, srcs, dsts, r);
  }

  /** getRuleDirection. */
  function BridgeDirection(d: Direction): PolicyBridge.Direction {
    if d == Ingress then PolicyBridge.In else PolicyBridge.Out
  }

  /** getRuleTier. */
  function TierOf(tier: string): PolicyBridge.Tier {
    if tier == "tier0" then PolicyBridge.Tier1 else if tier == "tier1" then PolicyBridge.Tier2 else PolicyBridge.Tier3
  }

  function ModeOf(mode: string): PolicyBridge.Mode {
    if mode == "monitor" then PolicyBridge.Monitor else PolicyBridge.Work
  }

  /** Everything that some complete rules list on this agent. */
  function AllListed(rules: set<CompleteRule>, agent: string): set<PolicyRule> {
    set c, r | c in rules && r in ListRules(c, agent) :: r
  }

  /** newInternalIngressRule and newInternalEgressRule. */
  function InternalRule(ip: string, d: Direction): EveroutePolicyRule {
    if d == Ingress then EveroutePolicyRule("internal.ingress." + ip, 120, "", ip, 0, 0, 0, 0, 0, "allow")
    else EveroutePolicyRule("internal.egress." + ip, 120, ip, "", 0, 0, 0, 0, 0, "allow")
  }

  /** The agent's own addresses, each with the direction of the rule that lets it pass. */
  type Own = set<(string, Direction)>

  /** What the agent puts on a policy bridge: complete rules, the global policy and its own addresses. */
  datatype Inventory = Inventory(rules: set<CompleteRule>, global: Option<GlobalPolicy>, internal: Own)

  /** Flow keys and flow ids are as they may be. */
  datatype Allocation = Allocation(key: PolicyRule -> string, id: PolicyRule -> CtLabel.Word,
                                   internalID: (string, Direction) -> CtLabel.Word)

  function FlowOf(r: PolicyRule, al: Allocation): PolicyBridge.PolicyFlow {
    PolicyBridge.PolicyFlow(BridgeDirection(r.direction), TierOf(r.tier), ModeOf(r.mode),
      ToEveroutePolicyRule(al.key(r), r), al.id(r))
  }

  function InternalFlow(ip: string, d: Direction, al: Allocation): PolicyBridge.PolicyFlow {
    PolicyBridge.PolicyFlow(BridgeDirection(d), PolicyBridge.Tier3, PolicyBridge.Work, InternalRule(ip, d),
      al.internalID(ip, d))
  }

  function PolicyRulesOf(inv: Inventory, agent: string): set<PolicyRule> {
    AllListed(inv.rules, agent) + GlobalRules(inv.global)
  }

  /** The flows of some rules and of the agent's own addresses. */
  function BridgeFlows(rs: set<PolicyRule>, internal: Own, al: Allocation): set<PolicyBridge.PolicyFlow> {
    (set r | r in rs :: FlowOf(r, al)) + (set a | a in internal :: InternalFlow(a.0, a.1, al))
  }

  function FlowsOf(inv: Inventory, agent: string, al: Allocation): set<PolicyBridge.PolicyFlow> {
    BridgeFlows(PolicyRulesOf(inv, agent), inv.internal, al)
  }

  /** The packet hits a datapath rule. */
  function HitsOf(matchIP: MatchIP, t: IPTuple): EveroutePolicyRule -> bool { rule => MatchIPTuple(rule, matchIP, t) }

  /** Precedence by name: tier0 comes first, then tier1, then the rest; and a rule in monitor mode decides nothing. */
  predicate Placed(tier: string, mode: string, place: PolicyBridge.Tier) {
    && mode != "monitor"
    && match place
       case Tier1 => tier == "tier0"
       case Tier2 => tier == "tier1"
       case Tier3 => tier != "tier0" && tier != "tier1"
  }

  /** Which table a rule's flow goes to, by the names of its direction, tier and mode. */
  lemma TableOf(r: PolicyRule, al: Allocation)
    ensures var f := FlowOf(r, al); var place := PolicyBridge.GetTierTable(f.direction, f.tier, f.mode);
      if r.mode == "monitor" && r.tier == "tier0" then place == None
      else
        place.Some? && place.value.0 ==
          (if r.direction == Ingress then 50 else 20)
          + (if r.tier == "tier0" then 0 else if r.tier == "tier1" then 5 else 10)
          - (if r.mode == "monitor" then 1 else 0)
  {
  }

  /** Some rule of the tier that is enforced and has the action means the packet. */
  ghost predicate SomeMeans(rules: set<CompleteRule>, agent: string, action: Action, tier: PolicyBridge.Tier,
                            d: Direction, matchIP: MatchIP, t: IPTuple) {
    exists c :: c in rules && c.shape.action == action && Placed(c.shape.tier, c.shape.mode, tier)
             && Means(c.shape, agent, c.srcIPBlocks, c.dstIPBlocks, d, matchIP, t)
  }

  /** The packet comes from or goes to an address of the agent itself. */
  predicate Whitelisted(internal: Own, d: Direction, matchIP: MatchIP, t: IPTuple) {
    exists a :: a in internal && a.1 == d && AddressMatches(a.0, matchIP, if d == Ingress then t.dstIP else t.srcIP)
  }

  predicate GlobalDrops(g: Option<GlobalPolicy>) {
    g.Some? && g.value.action == Drop && g.value.mode != "monitor"
  }

  /**
   What the rules mean together: the first two tiers decide by themselves if
   they say anything about the packet, an allow beating a default drop; in the
   third one the agent's own addresses come before everything else and the
   global default after it.
   */
  ghost predicate DeniedBy(inv: Inventory, agent: string, d: Direction, matchIP: MatchIP, t: IPTuple) {
    if SomeMeans(inv.rules, agent, Allow, PolicyBridge.Tier1, d, matchIP, t) then false
    else if SomeMeans(inv.rules, agent, Drop, PolicyBridge.Tier1, d, matchIP, t) then true
    else if SomeMeans(inv.rules, agent, Allow, PolicyBridge.Tier2, d, matchIP, t) then false
    else if SomeMeans(inv.rules, agent, Drop, PolicyBridge.Tier2, d, matchIP, t) then true
    else if Whitelisted(inv.internal, d, matchIP, t)
            || SomeMeans(inv.rules, agent, Allow, PolicyBridge.Tier3, d, matchIP, t) then false
    else SomeMeans(inv.rules, agent, Drop, PolicyBridge.Tier3, d, matchIP, t) || GlobalDrops(inv.global)
  }

  ghost predicate AllProper(rules: set<CompleteRule>) { forall c :: c in rules ==> ProperShape(c.shape) }

  lemma ListedFrom(rules: set<CompleteRule>, agent: string, r: PolicyRule) returns (c: CompleteRule)
    requires AllProper(rules) && r in AllListed(rules, agent)
    ensures c in rules && r in ListRules(c, agent)
    ensures r.action == c.shape.action && r.tier == c.shape.tier && r.mode == c.shape.mode
    ensures r.ruleType == if r.action == Allow then NormalRule else DefaultRule
  {
    c :| c in rules && r in ListRules(c, agent);
    Generated(c.shape, agent, c.srcIPBlocks, c.dstIPBlocks, r);
  }

  lemma ListedOf(c: CompleteRule, agent: string, r: PolicyRule)
    requires r in ListRules(c, agent)
    ensures r.action == c.shape.action && r.tier == c.shape.tier && r.mode == c.shape.mode
  {
    Generated(c.shape, agent, c.srcIPBlocks, c.dstIPBlocks, r);
  }

  /** The work flows of a tier that hit the packet. */
  function Hit(inv: Inventory, agent: string, al: Allocation, tier: PolicyBridge.Tier, d: Direction, matchIP: MatchIP,
               t: IPTuple): set<PolicyBridge.PolicyFlow> {
    PolicyBridge.WorkMatches(FlowsOf(inv, agent, al), BridgeDirection(d), tier, HitsOf(matchIP, t))
  }

  predicate HasRank(ws: set<PolicyBridge.PolicyFlow>, priority: nat, action: string) {
    exists f :: f in ws && f.rule.priority == priority && f.rule.action == action
  }

  lemma FlowHits(r: PolicyRule, al: Allocation, d: Direction, tier: PolicyBridge.Tier, matchIP: MatchIP, t: IPTuple)
    ensures var f := FlowOf(r, al);
      f.direction == BridgeDirection(d) && f.tier == tier && f.mode == PolicyBridge.Work && HitsOf(matchIP, t)(f.rule)
      <==> TierOf(r.tier) == tier && ModeOf(r.mode) == PolicyBridge.Work && RuleHits(r, d, matchIP, t)
  {
  }

  /** A listed rule that hits the packet becomes a flow that does. */
  lemma ListedHits(inv: Inventory, agent: string, al: Allocation, tier: PolicyBridge.Tier, d: Direction,
                   matchIP: MatchIP, t: IPTuple, r: PolicyRule)
    requires r in PolicyRulesOf(inv, agent) && TierOf(r.tier) == tier
    requires ModeOf(r.mode) == PolicyBridge.Work && RuleHits(r, d, matchIP, t)
    ensures HasRank(Hit(inv, agent, al, tier, d, matchIP, t), PriorityOf(r.ruleType), ActionOf(r.action))
  {
    FlowHits(r, al, d, tier, matchIP, t);
    assert FlowOf(r, al) in FlowsOf(inv, agent, al);
    assert FlowOf(r, al) in Hit(inv, agent, al, tier, d, matchIP, t);
  }

  /** A flow that hits the packet comes from a listed rule, the global pair or the agent's addresses. */
  lemma HitFrom(inv: Inventory, agent: string, al: Allocation, tier: PolicyBridge.Tier, d: Direction, matchIP: MatchIP,
                t: IPTuple, f: PolicyBridge.PolicyFlow)
    returns (r: Option<PolicyRule>)
    requires f in Hit(inv, agent, al, tier, d, matchIP, t)
    ensures r.Some? ==>
      && r.value in PolicyRulesOf(inv, agent) && f.rule.priority == PriorityOf(r.value.ruleType)
         && f.rule.action == ActionOf(r.value.action)
      && TierOf(r.value.tier) == tier && ModeOf(r.value.mode) == PolicyBridge.Work && RuleHits(r.value, d, matchIP, t)
    ensures r.None? ==>
      f.rule.priority == 120 && f.rule.action == "allow" && tier == PolicyBridge.Tier3
      && Whitelisted(inv.internal, d, matchIP, t)
  {
    if x :| x in PolicyRulesOf(inv, agent) && f == FlowOf(x, al) {
      FlowHits(x, al, d, tier, matchIP, t);
      r := Some(x);
    } else {
      var a :| a in inv.internal && f == InternalFlow(a.0, a.1, al);
      assert a.1 == d;
      r := None;
    }
  }

  lemma GlobalHits(g: GlobalPolicy, d: Direction, matchIP: MatchIP, t: IPTuple)
    ensures RuleHits(GlobalRule(g, d), d, matchIP, t)
  {
  }

  /** Which priorities the packet hits in a tier. */
  lemma HitPriorities(inv: Inventory, agent: string, al: Allocation, tier: PolicyBridge.Tier, d: Direction,
                      matchIP: MatchIP, t: IPTuple)
    requires AllProper(inv.rules)
    ensures HasRank(Hit(inv, agent, al, tier, d, matchIP, t), 100, "allow")
       <==> SomeMeans(inv.rules, agent, Allow, tier, d, matchIP, t)
    ensures HasRank(Hit(inv, agent, al, tier, d, matchIP, t), 70, "deny")
       <==> SomeMeans(inv.rules, agent, Drop, tier, d, matchIP, t)
    ensures HasRank(Hit(inv, agent, al, tier, d, matchIP, t), 120, "allow")
       <==> tier == PolicyBridge.Tier3 && Whitelisted(inv.internal, d, matchIP, t)
    ensures HasRank(Hit(inv, agent, al, tier, d, matchIP, t), 40, "deny")
       <==> tier == PolicyBridge.Tier3 && GlobalDrops(inv.global)
  {
    MeansHits(inv, agent, al, Allow, tier, d, matchIP, t);
    MeansHits(inv, agent, al, Drop, tier, d, matchIP, t);
    WhitelistHits(inv, agent, al, tier, d, matchIP, t);
    GlobalDropHits(inv, agent, al, tier, d, matchIP, t);
  }

  lemma MeansHits(inv: Inventory, agent: string, al: Allocation, action: Action, tier: PolicyBridge.Tier, d: Direction,
                  matchIP: MatchIP, t: IPTuple)
    requires AllProper(inv.rules)
    ensures
      HasRank(Hit(inv, agent, al, tier, d, matchIP, t), if action == Allow then 100 else 70, ActionOf(action)) <==>
      SomeMeans(inv.rules, agent, action, tier, d, matchIP, t)
  {
    if SomeMeans(inv.rules, agent, action, tier, d, matchIP, t) {
      var c :| c in inv.rules && c.shape.action == action && Placed(c.shape.tier, c.shape.mode, tier)
            && Means(c.shape, agent, c.srcIPBlocks, c.dstIPBlocks, d, matchIP, t);
      var r := MeantIsListed(c.shape, agent, c.srcIPBlocks, c.dstIPBlocks, d, matchIP, t);
      ListedOf(c, agent, r);
      assert r in AllListed(inv.rules, agent);
      var c' := ListedFrom(inv.rules, agent, r);
      ListedHits(inv, agent, al, tier, d, matchIP, t, r);
    }
    if HasRank(Hit(inv, agent, al, tier, d, matchIP, t), if action == Allow then 100 else 70, ActionOf(action)) {
      var f :| f in Hit(inv, agent, al, tier, d, matchIP, t)
            && f.rule.priority == (if action == Allow then 100 else 70) && f.rule.action == ActionOf(action);
      HitIsMeans(inv, agent, al, action, tier, d, matchIP, t, f);
    }
  }

  lemma HitIsMeans(inv: Inventory, agent: string, al: Allocation, action: Action, tier: PolicyBridge.Tier, d: Direction,
                   matchIP: MatchIP, t: IPTuple,
                   f: PolicyBridge.PolicyFlow)
    requires AllProper(inv.rules)
    requires f in Hit(inv, agent, al, tier, d, matchIP, t)
    requires f.rule.priority == (if action == Allow then 100 else 70) && f.rule.action == ActionOf(action)
    ensures SomeMeans(inv.rules, agent, action, tier, d, matchIP, t)
  {
    var r := HitFrom(inv, agent, al, tier, d, matchIP, t, f);
    assert r.Some? && r.value !in GlobalRules(inv.global);
    var c := ListedFrom(inv.rules, agent, r.value);
    HitIsMeant(c.shape, agent, c.srcIPBlocks, c.dstIPBlocks, d, matchIP, t, r.value);
  }

  lemma WhitelistHits(inv: Inventory, agent: string, al: Allocation, tier: PolicyBridge.Tier, d: Direction,
                      matchIP: MatchIP, t: IPTuple)
    ensures HasRank(Hit(inv, agent, al, tier, d, matchIP, t), 120, "allow")
       <==> tier == PolicyBridge.Tier3 && Whitelisted(inv.internal, d, matchIP, t)
  {
    if tier == PolicyBridge.Tier3 && Whitelisted(inv.internal, d, matchIP, t) {
      WhitelistedHits(inv, agent, al, d, matchIP, t);
    }
    if HasRank(Hit(inv, agent, al, tier, d, matchIP, t), 120, "allow") {
      var f :| f in Hit(inv, agent, al, tier, d, matchIP, t) && f.rule.priority == 120;
      HitWhitelisted(inv, agent, al, tier, d, matchIP, t, f);
    }
  }

  lemma HitWhitelisted(inv: Inventory, agent: string, al: Allocation, tier: PolicyBridge.Tier, d: Direction,
                       matchIP: MatchIP, t: IPTuple, f: PolicyBridge.PolicyFlow)
    requires f in Hit(inv, agent, al, tier, d, matchIP, t) && f.rule.priority == 120
    ensures tier == PolicyBridge.Tier3 && Whitelisted(inv.internal, d, matchIP, t)
  {
    var r := HitFrom(inv, agent, al, tier, d, matchIP, t, f);
  }

  lemma WhitelistedHits(inv: Inventory, agent: string, al: Allocation, d: Direction, matchIP: MatchIP, t: IPTuple)
    requires Whitelisted(inv.internal, d, matchIP, t)
    ensures HasRank(Hit(inv, agent, al, PolicyBridge.Tier3, d, matchIP, t), 120, "allow")
  {
    var a :| a in inv.internal && a.1 == d
             && AddressMatches(a.0, matchIP, if d == Ingress then t.dstIP else t.srcIP);
    var f := InternalFlow(a.0, d, al);
    assert f in FlowsOf(inv, agent, al);
    assert f in Hit(inv, agent, al, PolicyBridge.Tier3, d, matchIP, t);
  }

  lemma GlobalDropHits(inv: Inventory, agent: string, al: Allocation, tier: PolicyBridge.Tier, d: Direction,
                       matchIP: MatchIP, t: IPTuple)
    requires AllProper(inv.rules)
    ensures HasRank(Hit(inv, agent, al, tier, d, matchIP, t), 40, "deny")
       <==> tier == PolicyBridge.Tier3 && GlobalDrops(inv.global)
  {
    if tier == PolicyBridge.Tier3 && GlobalDrops(inv.global) {
      GlobalHits(inv.global.value, d, matchIP, t);
      ListedHits(inv, agent, al, tier, d, matchIP, t, GlobalRule(inv.global.value, d));
    }
    if HasRank(Hit(inv, agent, al, tier, d, matchIP, t), 40, "deny") {
      var f :| f in Hit(inv, agent, al, tier, d, matchIP, t)
            && f.rule.priority == 40 && f.rule.action == "deny";
      GlobalHitFrom(inv, agent, al, tier, d, matchIP, t, f);
    }
  }

  lemma GlobalHitFrom(inv: Inventory, agent: string, al: Allocation, tier: PolicyBridge.Tier, d: Direction,
                      matchIP: MatchIP, t: IPTuple,
                      f: PolicyBridge.PolicyFlow)
    requires AllProper(inv.rules) && f in Hit(inv, agent, al, tier, d, matchIP, t)
    requires f.rule.priority == 40 && f.rule.action == "deny"
    ensures tier == PolicyBridge.Tier3 && GlobalDrops(inv.global)
  {
    var r := HitFrom(inv, agent, al, tier, d, matchIP, t, f);
    assert r.value !in AllListed(inv.rules, agent) by {
      if r.value in AllListed(inv.rules, agent) { var c := ListedFrom(inv.rules, agent, r.value); }
    }
  }

  /**
   Among generated rules: the top one denies iff there is no allow and a default
   drop or, failing that, a global drop.
   */
  lemma TopOf(ws: set<PolicyBridge.PolicyFlow>)
    requires PolicyVerdict.AsGenerated(ws)
    ensures PolicyBridge.TopDenies(ws) <==>
      !HasRank(ws, 120, "allow") && !HasRank(ws, 100, "allow") && (HasRank(ws, 70, "deny") || HasRank(ws, 40, "deny"))
  {
    if PolicyBridge.TopDenies(ws) {
      var f :| f in ws && PolicyBridge.IsTop(f, ws) && PolicyBridge.Denies(f);
      assert f.rule.priority == 70 || f.rule.priority == 40;
    }
    if !HasRank(ws, 120, "allow") && !HasRank(ws, 100, "allow") {
      assert forall f :: f in ws ==> f.rule.priority <= 70;
      if f :| f in ws && f.rule.priority == 70 {
        assert PolicyBridge.IsTop(f, ws) && PolicyBridge.Denies(f);
      } else if f :| f in ws && f.rule.priority == 40 && f.rule.action == "deny" {
        assert PolicyBridge.IsTop(f, ws) && PolicyBridge.Denies(f);
      }
    }
  }

  predicate GeneratedRank(f: PolicyBridge.PolicyFlow, global: Option<GlobalPolicy>) {
    || ((f.rule.priority == 120 || f.rule.priority == 100) && f.rule.action == "allow")
    || (f.rule.priority == 70 && f.rule.action == "deny")
    || (f.rule.priority == 40 && global.Some? && f.rule.action == ActionOf(global.value.action))
  }

  lemma RuleRank(inv: Inventory, agent: string, al: Allocation, r: PolicyRule)
    requires AllProper(inv.rules) && r in PolicyRulesOf(inv, agent)
    ensures GeneratedRank(FlowOf(r, al), inv.global)
  {
    if r in AllListed(inv.rules, agent) { var c := ListedFrom(inv.rules, agent, r); }
  }

  lemma FlowsGenerated(inv: Inventory, agent: string, al: Allocation)
    requires AllProper(inv.rules)
    ensures PolicyVerdict.AsGenerated(FlowsOf(inv, agent, al))
  {
    forall f | f in FlowsOf(inv, agent, al)
      ensures GeneratedRank(f, inv.global)
    {
      if r :| r in PolicyRulesOf(inv, agent) && f == FlowOf(r, al) { RuleRank(inv, agent, al, r); }
    }
    RanksGenerated(FlowsOf(inv, agent, al), inv.global);
  }

  lemma RanksGenerated(fs: set<PolicyBridge.PolicyFlow>, global: Option<GlobalPolicy>)
    requires forall f :: f in fs ==> GeneratedRank(f, global)
    ensures PolicyVerdict.AsGenerated(fs)
  {
  }

  /** One tier's verdict in terms of what its rules mean. */
  lemma TierDenies(inv: Inventory, agent: string, al: Allocation, tier: PolicyBridge.Tier, d: Direction,
                   matchIP: MatchIP, t: IPTuple)
    requires AllProper(inv.rules)
    ensures PolicyBridge.TopDenies(Hit(inv, agent, al, tier, d, matchIP, t)) <==>
      && !(tier == PolicyBridge.Tier3 && Whitelisted(inv.internal, d, matchIP, t))
         && !SomeMeans(inv.rules, agent, Allow, tier, d, matchIP, t)
      && (SomeMeans(inv.rules, agent, Drop, tier, d, matchIP, t)
          || (tier == PolicyBridge.Tier3 && GlobalDrops(inv.global)))
  {
    FlowsGenerated(inv, agent, al);
    assert PolicyVerdict.AsGenerated(Hit(inv, agent, al, tier, d, matchIP, t));
    TopOf(Hit(inv, agent, al, tier, d, matchIP, t));
    HitPriorities(inv, agent, al, tier, d, matchIP, t);
  }

  /** The first two tiers say something iff one of their rules means the packet. */
  lemma TierDecides(inv: Inventory, agent: string, al: Allocation, tier: PolicyBridge.Tier, d: Direction,
                    matchIP: MatchIP, t: IPTuple)
    requires AllProper(inv.rules) && tier != PolicyBridge.Tier3
    ensures Hit(inv, agent, al, tier, d, matchIP, t) != {} <==>
      SomeMeans(inv.rules, agent, Allow, tier, d, matchIP, t) || SomeMeans(inv.rules, agent, Drop, tier, d, matchIP, t)
  {
    MeansHits(inv, agent, al, Allow, tier, d, matchIP, t);
    MeansHits(inv, agent, al, Drop, tier, d, matchIP, t);
    forall f | f in Hit(inv, agent, al, tier, d, matchIP, t)
      ensures (f.rule.priority == 100 && f.rule.action == "allow") || (f.rule.priority == 70 && f.rule.action == "deny")
    {
      var r := HitFrom(inv, agent, al, tier, d, matchIP, t, f);
      var c := ListedFrom(inv.rules, agent, r.value);
    }
  }

  /** Denied by the flows on the bridge iff denied by the rules behind them. */
  lemma PoliciesDeny(inv: Inventory, agent: string, al: Allocation, d: Direction, matchIP: MatchIP, t: IPTuple)
    requires AllProper(inv.rules)
    ensures PolicyVerdict.Denied(FlowsOf(inv, agent, al), BridgeDirection(d), HitsOf(matchIP, t))
       <==> DeniedBy(inv, agent, d, matchIP, t)
  {
    TierDecides(inv, agent, al, PolicyBridge.Tier1, d, matchIP, t);
    TierDecides(inv, agent, al, PolicyBridge.Tier2, d, matchIP, t);
    TierDenies(inv, agent, al, PolicyBridge.Tier1, d, matchIP, t);
    TierDenies(inv, agent, al, PolicyBridge.Tier2, d, matchIP, t);
    TierDenies(inv, agent, al, PolicyBridge.Tier3, d, matchIP, t);
  }

  /** A new packet that no verdict has been passed on, in one direction. */
  predicate Arriving(p: Packet, c: PolicyBridge.Config, d: Direction)
    requires PolicyBridge.IsConfig(c)
  {
    && PolicyBridge.Undecided(p, c) && PolicyBridge.IsNew(p) && !PolicyBridge.Labelled(p, c)
    && p.inPort == if d == Egress then c.localPort else c.clsPort
  }

  /**
   On the switch, for every tie-break: a new packet is dropped iff the rules deny
   it, and otherwise leaves through the other port.
   */
  lemma PoliciesEnforced(
      tables: Tables, c: PolicyBridge.Config, tie: TieBreak, p: Packet,
      inv: Inventory, agent: string, al: Allocation, d: Direction, matchIP: MatchIP, t: IPTuple)
    requires PolicyBridge.IsConfig(c) && PolicyBridge.HasBase(tables, c)
    requires PolicyBridge.HasRules(tables, FlowsOf(inv, agent, al))
    requires Chooses(tie) && AllProper(inv.rules) && Arriving(p, c, d)
    ensures Exec(tables, tie, PolicyBridge.DirectionSelectionTable, p, HitsOf(matchIP, t)).output ==
      if DeniedBy(inv, agent, d, matchIP, t) then None else Some(PolicyBridge.OtherPort(p, c))
  {
    FlowsGenerated(inv, agent, al);
    PolicyVerdict.NewPacketDroppedIff(tables, c, FlowsOf(inv, agent, al), tie, p, HitsOf(matchIP, t));
    PoliciesDeny(inv, agent, al, d, matchIP, t);
  }
}
