/**
 completePolicy: the complete rules that a security policy stands for, and when
 their rule ids, the keys of the rule cache, are distinct.
 */
module PolicyCompletion {
  import opened Strings
  import opened Groups
  import opened PolicyRules
  import opened FlattenPorts
  import opened RuleCache
  import opened PolicySides
  import opened PolicySync

  /** A rule of a policy: `peers` is From for ingress and To for egress. */
  datatype Rule = Rule(name: string, peers: seq<Peer>, ports: seq<SecurityPolicyPort>)

  datatype SecurityPolicy = SecurityPolicy(
    key: string, tier: string, mode: string, symmetricMode: bool, defaultDrop: bool, appliedTo: seq<Peer>,
    ingressRules: seq<Rule>, egressRules: seq<Rule>, ingressType: bool, egressType: bool)

  /** SecurityPolicy.IsEnable: without policy types, ingress always and egress if there are egress rules. */
  predicate IngressEnabled(p: SecurityPolicy) { p.ingressType || !p.egressType }

  predicate EgressEnabled(p: SecurityPolicy) { p.egressType || (!p.ingressType && |p.egressRules| != 0) }

  /** FlattenPorts, as a function of the written ports. */
  type Compiler = seq<SecurityPolicyPort> -> Option<seq<RulePort>>

  function SideOf(peers: seq<Peer>): Side { if |peers| == 0 then Everything else Peers(peers) }

  function Shape(p: SecurityPolicy, name: string, direction: Direction, ports: seq<RulePort>): RuleShape {
    RuleShape(RuleID(p.key, name), p.tier, p.mode, Allow, direction, p.symmetricMode, false, ports)
  }

  /** The default rule is never symmetric and matches all ports. */
  function DefaultShape(p: SecurityPolicy, name: string, direction: Direction): RuleShape {
    RuleShape(RuleID(p.key, name), p.tier, p.mode, Drop, direction, false, true, [AllPorts])
  }

  function IngressSpec(p: SecurityPolicy, rule: Rule, flatten: Compiler): Option<RuleSpec> {
    match flatten(rule.ports)
    case None => None
    case Some(ports) => Some(RuleSpec(Shape(p, "ingress." + rule.name, Ingress, ports), SideOf(rule.peers),
      SideOf(p.appliedTo)))
  }

  function NumberPorts(ports: seq<SecurityPolicyPort>): (r: seq<SecurityPolicyPort>)
  {
    if ports == [] then []
    else NumberPorts(ports[..|ports| - 1]) + (if ports[|ports| - 1].byName then [] else [ports[|ports| - 1]])
  }

  function NamedPorts(ports: seq<SecurityPolicyPort>): (r: seq<SecurityPolicyPort>)
  {
    if ports == [] then []
    else NamedPorts(ports[..|ports| - 1]) + (if ports[|ports| - 1].byName then [ports[|ports| - 1]] else [])
  }

  /** The rule gets a complete rule under its own name, and one for its named ports to all endpoints. */
  predicate HasPlain(rule: Rule) { |rule.peers| > 0 || |NumberPorts(rule.ports)| > 0 || |rule.ports| == 0 }

  predicate HasNamed(rule: Rule) { |rule.peers| == 0 && |NamedPorts(rule.ports)| > 0 }

  function PlainPorts(rule: Rule): seq<SecurityPolicyPort> {
    if |rule.peers| > 0 then rule.ports else NumberPorts(rule.ports)
  }

  /** Where the named ports of an egress rule without peers go. */
  const NamedPortEndpoints: Side := Peers([GroupPeer(AllEpWithNamedPort)])

  function EgressSpecs(p: SecurityPolicy, rule: Rule, flatten: Compiler): Option<seq<RuleSpec>> {
    var plain := if HasPlain(rule) then flatten(PlainPorts(rule)) else Some([]);
    var named := if HasNamed(rule) then flatten(NamedPorts(rule.ports)) else Some([]);
    if plain.None? || named.None? then None
    else
      Some(
        (if HasPlain(rule) then
           [RuleSpec(Shape(p, PlainID(rule), Egress, plain.value), SideOf(p.appliedTo), SideOf(rule.peers))] else []) +
        (if HasNamed(rule) then
           [RuleSpec(Shape(p, NamedID(rule), Egress, named.value), SideOf(p.appliedTo), NamedPortEndpoints)] else []))
  }

  function PlainID(rule: Rule): string { "egress." + rule.name }

  function NamedID(rule: Rule): string { "egress." + rule.name + ".namedport" }

  function IngressAll(p: SecurityPolicy, rules: seq<Rule>, flatten: Compiler): Option<seq<RuleSpec>> {
    if rules == [] then Some([])
    else
      var front, last := IngressAll(p, rules[..|rules| - 1], flatten), IngressSpec(p, rules[|rules| - 1], flatten);
      if front.None? || last.None? then None else Some(front.value + [last.value])
  }

  function EgressAll(p: SecurityPolicy, rules: seq<Rule>, flatten: Compiler): Option<seq<RuleSpec>> {
    if rules == [] then Some([])
    else
      var front, last := EgressAll(p, rules[..|rules| - 1], flatten), EgressSpecs(p, rules[|rules| - 1], flatten);
      if front.None? || last.None? then None else Some(front.value + last.value)
  }

  function DefaultIngress(p: SecurityPolicy): seq<RuleSpec> {
    if p.defaultDrop then [RuleSpec(DefaultShape(p, "default.ingress", Ingress), Everything, SideOf(p.appliedTo))]
    else []
  }

  function DefaultEgress(p: SecurityPolicy): seq<RuleSpec> {
    if p.defaultDrop then [RuleSpec(DefaultShape(p, "default.egress", Egress), SideOf(p.appliedTo), Everything)] else []
  }

  function IngressPart(p: SecurityPolicy, flatten: Compiler): Option<seq<RuleSpec>> {
    if !IngressEnabled(p) then Some([])
    else if IngressAll(p, p.ingressRules, flatten).None? then None
    else Some(IngressAll(p, p.ingressRules, flatten).value + DefaultIngress(p))
  }

  function EgressPart(p: SecurityPolicy, flatten: Compiler): Option<seq<RuleSpec>> {
    if !EgressEnabled(p) then Some([])
    else if EgressAll(p, p.egressRules, flatten).None? then None
    else Some(EgressAll(p, p.egressRules, flatten).value + DefaultEgress(p))
  }

  /** completePolicy up to resolving the peers; None when a port range does not compile. */
  function RuleSpecs(p: SecurityPolicy, flatten: Compiler): Option<seq<RuleSpec>> {
    if IngressPart(p, flatten).None? || EgressPart(p, flatten).None? then None
    else Some(IngressPart(p, flatten).value + EgressPart(p, flatten).value)
  }

  /** completePolicy's loops over the ingress and the egress rules. */
  method CompleteRules(p: SecurityPolicy, flatten: Compiler) returns (r: Option<seq<RuleSpec>>)
    ensures r == RuleSpecs(p, flatten)
  {
    var ingress: seq<RuleSpec> := [];
    var egress: seq<RuleSpec> := [];
    if IngressEnabled(p) {
      for i := 0 to |p.ingressRules|
        invariant IngressAll(p, p.ingressRules[..i], flatten) == Some(ingress)
      {
        var spec := IngressSpec(p, p.ingressRules[i], flatten);
        IngressStep(p, p.ingressRules, i, flatten);
        if spec.None? {
          IngressFails(p, p.ingressRules, i + 1, flatten);
          return None;
        }
        ingress := ingress + [spec.value];
      }
      assert p.ingressRules[..|p.ingressRules|] == p.ingressRules;
      ingress := ingress + DefaultIngress(p);
    }
    if EgressEnabled(p) {
      for i := 0 to |p.egressRules|
        invariant EgressAll(p, p.egressRules[..i], flatten) == Some(egress)
      {
        var specs := EgressSpecs(p, p.egressRules[i], flatten);
        EgressStep(p, p.egressRules, i, flatten);
        if specs.None? {
          EgressFails(p, p.egressRules, i + 1, flatten);
          return None;
        }
        egress := egress + specs.value;
      }
      assert p.egressRules[..|p.egressRules|] == p.egressRules;
      egress := egress + DefaultEgress(p);
    }
    r := Some(ingress + egress);
  }

  lemma IngressStep(p: SecurityPolicy, rules: seq<Rule>, i: nat, flatten: Compiler)
    requires i < |rules|
    ensures IngressAll(p, rules[..i + 1], flatten) ==
      if IngressAll(p, rules[..i], flatten).None? || IngressSpec(p, rules[i], flatten).None? then None
      else Some(IngressAll(p, rules[..i], flatten).value + [IngressSpec(p, rules[i], flatten).value])
  {
    assert rules[..i + 1][..i] == rules[..i];
  }

  lemma EgressStep(p: SecurityPolicy, rules: seq<Rule>, i: nat, flatten: Compiler)
    requires i < |rules|
    ensures EgressAll(p, rules[..i + 1], flatten) ==
      if EgressAll(p, rules[..i], flatten).None? || EgressSpecs(p, rules[i], flatten).None? then None
      else Some(EgressAll(p, rules[..i], flatten).value + EgressSpecs(p, rules[i], flatten).value)
  {
    assert rules[..i + 1][..i] == rules[..i];
  }

  /** A failure stays a failure when more rules follow. */
  lemma {:induction false} IngressFails(p: SecurityPolicy, rules: seq<Rule>, i: nat, flatten: Compiler)
    requires i <= |rules| && IngressAll(p, rules[..i], flatten).None?
    ensures IngressAll(p, rules, flatten).None?
    decreases |rules|
  {
    if i < |rules| {
      assert rules[..|rules| - 1][..i] == rules[..i];
      IngressFails(p, rules[..|rules| - 1], i, flatten);
    } else {
      assert rules[..i] == rules;
    }
  }

  lemma {:induction false} EgressFails(p: SecurityPolicy, rules: seq<Rule>, i: nat, flatten: Compiler)
    requires i <= |rules| && EgressAll(p, rules[..i], flatten).None?
    ensures EgressAll(p, rules, flatten).None?
    decreases |rules|
  {
    if i < |rules| {
      assert rules[..|rules| - 1][..i] == rules[..i];
      EgressFails(p, rules[..|rules| - 1], i, flatten);
    } else {
      assert rules[..i] == rules;
    }
  }

  /** The webhook admits a policy only if its rule names are distinct. */
  predicate DistinctNames(rules: seq<Rule>) { forall i, j :: 0 <= i < j < |rules| ==> rules[i].name != rules[j].name }

  function IDs(specs: seq<RuleSpec>): seq<string> {
    seq(|specs|, i requires 0 <= i < |specs| => specs[i].shape.ruleID.name)
  }

  predicate NoDuplicates<T(==)>(s: seq<T>) { forall i, j :: 0 <= i < j < |s| ==> s[i] != s[j] }

  /** Some egress rule is named like the named-port rule of another one. */
  predicate Clash(rules: seq<Rule>) {
    exists i, j :: 0 <= i < |rules| && 0 <= j < |rules| && HasNamed(rules[i]) && HasPlain(rules[j])
                   && rules[j].name == rules[i].name + ".namedport"
  }

  /** The ids of an egress rule, and of a list of them. */
  function EgressIDs(rule: Rule): seq<string> {
    (if HasPlain(rule) then [PlainID(rule)] else []) + (if HasNamed(rule) then [NamedID(rule)] else [])
  }

  function AllEgressIDs(rules: seq<Rule>): seq<string> {
    if rules == [] then [] else AllEgressIDs(rules[..|rules| - 1]) + EgressIDs(rules[|rules| - 1])
  }

  function IngressIDs(rules: seq<Rule>): seq<string> {
    seq(|rules|, i requires 0 <= i < |rules| => "ingress." + rules[i].name)
  }

  lemma {:induction false} EgressAllIDs(p: SecurityPolicy, rules: seq<Rule>, flatten: Compiler)
    requires EgressAll(p, rules, flatten).Some?
    ensures IDs(EgressAll(p, rules, flatten).value) == AllEgressIDs(rules)
  {
    if rules != [] {
      var front, last := rules[..|rules| - 1], rules[|rules| - 1];
      EgressAllIDs(p, front, flatten);
      assert IDs(EgressSpecs(p, last, flatten).value) == EgressIDs(last);
      assert IDs(EgressAll(p, rules, flatten).value) == IDs(EgressAll(p, front, flatten).value) +
        IDs(EgressSpecs(p, last, flatten).value);
    }
  }

  lemma {:induction false} IngressAllIDs(p: SecurityPolicy, rules: seq<Rule>, flatten: Compiler)
    requires IngressAll(p, rules, flatten).Some?
    ensures IDs(IngressAll(p, rules, flatten).value) == IngressIDs(rules)
  {
    if rules != [] {
      var front, last := rules[..|rules| - 1], rules[|rules| - 1];
      IngressAllIDs(p, front, flatten);
      assert IDs(IngressAll(p, rules, flatten).value) == IDs(IngressAll(p, front, flatten).value) +
        ["ingress." + last.name];
      assert IngressIDs(rules) == IngressIDs(front) + ["ingress." + last.name];
    }
  }

  lemma NoDuplicatesConcat<T>(xs: seq<T>, ys: seq<T>)
    ensures NoDuplicates(xs + ys) <==> NoDuplicates(xs) && NoDuplicates(ys) && forall x :: x in xs ==> x !in ys
  {
    var zs := xs + ys;
    if NoDuplicates(zs) {
      assert forall i :: 0 <= i < |xs| ==> zs[i] == xs[i];
      assert forall j :: 0 <= j < |ys| ==> zs[|xs| + j] == ys[j];
      forall i, j | 0 <= i < |xs| && 0 <= j < |ys|
        ensures xs[i] != ys[j]
      {
        assert zs[i] != zs[|xs| + j];
      }
    }
    if NoDuplicates(xs) && NoDuplicates(ys) && forall x :: x in xs ==> x !in ys {
      forall i, j | 0 <= i < j < |zs|
        ensures zs[i] != zs[j]
      {
        if i < |xs| <= j { assert zs[i] in xs && zs[j] in ys; }
        else if |xs| <= i { assert zs[i] == ys[i - |xs|] && zs[j] == ys[j - |xs|]; }
      }
    }
  }

  lemma SuffixesEqual(prefix: string, a: string, b: string)
    ensures prefix + a == prefix + b <==> a == b
  {
    assert (prefix + a)[|prefix|..] == a && (prefix + b)[|prefix|..] == b;
  }

  lemma PrefixesEqual(a: string, b: string, suffix: string)
    ensures a + suffix == b + suffix <==> a == b
  {
    assert (a + suffix)[..|a|] == a && (b + suffix)[..|b|] == b;
    if a + suffix == b + suffix { assert |a| == |b|; }
  }

  predicate PairClash(r: Rule, r': Rule) { HasNamed(r) && HasPlain(r') && r'.name == r.name + ".namedport" }

  /** Two rules of different names share an id iff they clash one way or the other. */
  lemma SharedID(r: Rule, r': Rule)
    requires r.name != r'.name
    ensures (exists x :: x in EgressIDs(r) && x in EgressIDs(r')) <==> PairClash(r, r') || PairClash(r', r)
  {
    SuffixesEqual("egress.", r.name, r'.name);
    SuffixesEqual("egress.", r'.name, r.name + ".namedport");
    SuffixesEqual("egress.", r.name, r'.name + ".namedport");
    PrefixesEqual("egress." + r.name, "egress." + r'.name, ".namedport");
    assert NamedID(r) == "egress." + (r.name + ".namedport") && NamedID(r') == "egress." + (r'.name + ".namedport");
    if PairClash(r, r') { assert NamedID(r) in EgressIDs(r) && NamedID(r) in EgressIDs(r'); }
    if PairClash(r', r) { assert NamedID(r') in EgressIDs(r) && NamedID(r') in EgressIDs(r'); }
  }

  lemma OwnIDsDiffer(r: Rule)
    ensures NoDuplicates(EgressIDs(r))
  {
  }

  lemma {:induction false} EgressIDsFrom(rules: seq<Rule>, x: string)
    ensures x in AllEgressIDs(rules) <==> exists i :: 0 <= i < |rules| && x in EgressIDs(rules[i])
  {
    if rules != [] {
      var front := rules[..|rules| - 1];
      EgressIDsFrom(front, x);
      assert forall i :: 0 <= i < |front| ==> front[i] == rules[i];
    }
  }

  /** The ids of the egress rules are distinct iff no rule is named like another one's named-port rule. */
  lemma {:induction false} EgressDistinctIff(rules: seq<Rule>)
    requires DistinctNames(rules)
    ensures NoDuplicates(AllEgressIDs(rules)) <==> !Clash(rules)
  {
    if rules != [] {
      var front, last := rules[..|rules| - 1], rules[|rules| - 1];
      EgressDistinctIff(front);
      OwnIDsDiffer(last);
      NoDuplicatesConcat(AllEgressIDs(front), EgressIDs(last));
      ClashStep(rules);
      forall i | 0 <= i < |front|
        ensures (exists x :: x in EgressIDs(front[i]) && x in EgressIDs(last))
           <==> PairClash(front[i], last) || PairClash(last, front[i])
      {
        SharedID(front[i], last);
      }
      if exists i :: 0 <= i < |front| && (PairClash(front[i], last) || PairClash(last, front[i])) {
        var i :| 0 <= i < |front| && (PairClash(front[i], last) || PairClash(last, front[i]));
        var x :| x in EgressIDs(front[i]) && x in EgressIDs(last);
        EgressIDsFrom(front, x);
      } else {
        forall x | x in AllEgressIDs(front)
          ensures x !in EgressIDs(last)
        {
          EgressIDsFrom(front, x);
        }
      }
    }
  }

  lemma ClashStep(rules: seq<Rule>)
    requires rules != []
    ensures var front, last := rules[..|rules| - 1], rules[|rules| - 1];
      Clash(rules) <==> Clash(front) || exists i :: 0 <= i < |front|
                                                    && (PairClash(front[i], last) || PairClash(last, front[i]))
  {
  }

  /** Every egress id starts with "e". */
  lemma EgressInitial(rules: seq<Rule>, x: string)
    requires x in AllEgressIDs(rules)
    ensures |x| > 0 && x[0] == 'e'
  {
  }

  lemma IngressDistinct(rules: seq<Rule>)
    requires DistinctNames(rules)
    ensures NoDuplicates(IngressIDs(rules)) && forall x :: x in IngressIDs(rules) ==> |x| > 0 && x[0] == 'i'
  {
    forall i, j | 0 <= i < j < |rules|
      ensures IngressIDs(rules)[i] != IngressIDs(rules)[j]
    {
      SuffixesEqual("ingress.", rules[i].name, rules[j].name);
    }
  }

  lemma IDsConcat(xs: seq<RuleSpec>, ys: seq<RuleSpec>)
    ensures IDs(xs + ys) == IDs(xs) + IDs(ys)
  {
  }

  /** Ingress ids are distinct and none of them starts with "e". */
  lemma IngressPartIDs(p: SecurityPolicy, flatten: Compiler)
    requires IngressPart(p, flatten).Some? && DistinctNames(p.ingressRules)
    ensures NoDuplicates(IDs(IngressPart(p, flatten).value))
    ensures forall x :: x in IDs(IngressPart(p, flatten).value) ==> |x| > 0 && (x[0] == 'i' || x == "default.ingress")
  {
    if IngressEnabled(p) {
      IngressAllIDs(p, p.ingressRules, flatten);
      IngressDistinct(p.ingressRules);
      IDsConcat(IngressAll(p, p.ingressRules, flatten).value, DefaultIngress(p));
      assert IDs(DefaultIngress(p)) == if p.defaultDrop then ["default.ingress"] else [];
      assert "default.ingress"[0] == 'd';
      NoDuplicatesConcat(IngressIDs(p.ingressRules), IDs(DefaultIngress(p)));
    }
  }

  lemma EgressPartIDs(p: SecurityPolicy, flatten: Compiler)
    requires EgressPart(p, flatten).Some? && DistinctNames(p.egressRules)
    ensures NoDuplicates(IDs(EgressPart(p, flatten).value)) <==> !(EgressEnabled(p) && Clash(p.egressRules))
    ensures forall x :: x in IDs(EgressPart(p, flatten).value) ==> |x| > 0 && (x[0] == 'e' || x == "default.egress")
  {
    if EgressEnabled(p) {
      EgressAllIDs(p, p.egressRules, flatten);
      EgressDistinctIff(p.egressRules);
      IDsConcat(EgressAll(p, p.egressRules, flatten).value, DefaultEgress(p));
      assert IDs(DefaultEgress(p)) == if p.defaultDrop then ["default.egress"] else [];
      forall x | x in AllEgressIDs(p.egressRules)
        ensures |x| > 0 && x[0] == 'e'
      {
        EgressInitial(p.egressRules, x);
      }
      assert "default.egress"[0] == 'd';
      NoDuplicatesConcat(AllEgressIDs(p.egressRules), IDs(DefaultEgress(p)));
    }
  }

  /** No id is both of the ingress part and of the egress part. */
  lemma PartsApart(p: SecurityPolicy, flatten: Compiler)
    requires IngressPart(p, flatten).Some? && EgressPart(p, flatten).Some?
    requires DistinctNames(p.ingressRules) && DistinctNames(p.egressRules)
    ensures forall x :: x in IDs(IngressPart(p, flatten).value) ==> x !in IDs(EgressPart(p, flatten).value)
  {
    IngressPartIDs(p, flatten);
    EgressPartIDs(p, flatten);
    forall x | x in IDs(IngressPart(p, flatten).value)
      ensures x !in IDs(EgressPart(p, flatten).value)
    {
      assert "default.ingress"[0] == 'd' && "default.egress"[0] == 'd' && |"default.ingress"| != |"default.egress"|;
    }
  }

  /**
   The rule cache keeps one complete rule per id. The ids of an admitted policy
   are distinct iff no egress rule is named like the named-port rule of another.
   */
  lemma RuleIDsDistinctIff(p: SecurityPolicy, flatten: Compiler)
    requires RuleSpecs(p, flatten).Some?
    requires DistinctNames(p.ingressRules) && DistinctNames(p.egressRules)
    ensures NoDuplicates(IDs(RuleSpecs(p, flatten).value)) <==> !(EgressEnabled(p) && Clash(p.egressRules))
  {
    IngressPartIDs(p, flatten);
    EgressPartIDs(p, flatten);
    var ingress, egress := IngressPart(p, flatten).value, EgressPart(p, flatten).value;
    IDsConcat(ingress, egress);
    PartsApart(p, flatten);
    NoDuplicatesConcat(IDs(ingress), IDs(egress));
  }

  /** Egress rules "x", to any endpoint by named port, and "x.namedport": one of the two complete rules is lost. */
  lemma LostRuleExample(p: SecurityPolicy, flatten: Compiler, port: SecurityPolicyPort, peer: Peer)
    requires port.byName && RuleSpecs(p, flatten).Some? && p.ingressRules == [] && p.egressType
    requires p.egressRules == [Rule("x", [], [port]), Rule("x.namedport", [peer], [])]
    ensures DistinctNames(p.ingressRules) && DistinctNames(p.egressRules)
    ensures !NoDuplicates(IDs(RuleSpecs(p, flatten).value))
  {
    var rules := p.egressRules;
    assert |"x"| != |"x.namedport"|;
    assert [port][..0] == [] && NamedPorts([port]) == NamedPorts([port][..0]) + [port];
    assert HasNamed(rules[0]) && HasPlain(rules[1]) && rules[1].name == rules[0].name + ".namedport";
    RuleIDsDistinctIff(p, flatten);
  }
}
