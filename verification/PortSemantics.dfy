/**
 What the ports of a policy rule mean for a packet, as they are written in the
 policy, and that their compiled form means the same.
 */
module PortSemantics {
  import opened Strings
  import opened Uint16
  import opened PolicyRules
  import opened IPBlocks
  import opened FlattenPorts
  import opened PolicyCompletion
  import PortRanges
  import opened PolicyMeaning

  /** The compiler keeps the contract of FlattenPorts.Flatten. */
  ghost predicate IsFlatten(flatten: Compiler) {
    forall ports :: (flatten(ports).None? <==> !AllReadable(ports))
                    && (flatten(ports).Some? ==> Flattened(ports, flatten(ports).value))
  }

  /** The port is written by this name, over a protocol that has ports. */
  predicate WritesName(port: SecurityPolicyPort, name: string) {
    port.byName && port.protocol != ICMP && name != "" && name in Split(port.portRange, ',')
  }

  /** The destination gives the name a number that matches the packet. */
  predicate Resolves(name: string, protocol: Protocol, dstItem: IPBlockItem, t: IPTuple) {
    && dstItem.Item? && ProtocolMatches(protocol, t.protocol)
    && exists n :: n in dstItem.ports && n.name == name && n.protocol == protocol
                   && (n.port % Modulus == 0 || n.port % Modulus == t.dstPort)
  }

  ghost predicate NamesAdmit(ports: seq<SecurityPolicyPort>, dstItem: IPBlockItem, t: IPTuple) {
    exists port, name :: port in ports && WritesName(port, name) && Resolves(name, port.protocol, dstItem, t)
  }

  /** What the policy says: no ports at all, a written number, ICMP, or a name that the destination resolves. */
  ghost predicate WrittenAdmits(ports: seq<SecurityPolicyPort>, dstItem: IPBlockItem, t: IPTuple) {
    || ports == []
    || (t.protocol == 6 && Written(ports, TCP, t.dstPort))
    || (t.protocol == 17 && Written(ports, UDP, t.dstPort))
    || (t.protocol == 1 && HasICMP(ports))
    || NamesAdmit(ports, dstItem, t)
  }

  /** No range includes port 0 and no name is empty. */
  ghost predicate Plain(ports: seq<SecurityPolicyPort>) {
    && !Written(ports, TCP, 0) && !Written(ports, UDP, 0)
    && forall port :: port in ports && port.byName ==> "" !in Split(port.portRange, ',')
  }

  /** Plain ports admit what is written; port 0 and empty names have their wildcard effect. */
  ghost predicate PortsAdmit(ports: seq<SecurityPolicyPort>, dstItem: IPBlockItem, t: IPTuple) {
    if Plain(ports) then WrittenAdmits(ports, dstItem, t)
    else Intended(ports, t.protocol, t.dstPort) || NamesAdmit(ports, dstItem, t)
  }

  lemma PlainIntended(ports: seq<SecurityPolicyPort>, dstItem: IPBlockItem, t: IPTuple)
    requires Plain(ports)
    ensures Intended(ports, t.protocol, t.dstPort) || NamesAdmit(ports, dstItem, t)
       <==> WrittenAdmits(ports, dstItem, t)
  {
    ExactIffZeroUnmarked(WrittenMap(ports, TCP));
    ExactIffZeroUnmarked(WrittenMap(ports, UDP));
    assert WrittenMap(ports, TCP)[t.dstPort] <==> Written(ports, TCP, t.dstPort);
    assert WrittenMap(ports, UDP)[t.dstPort] <==> Written(ports, UDP, t.dstPort);
    assert !EmptyName(ports, t.protocol);
  }

  function NameEntry(name: string, protocol: Protocol): RulePort {
    AllPorts.(dstPortName := name, protocol := protocol)
  }

  lemma {:induction false} NamedEntriesFrom(ports: seq<SecurityPolicyPort>, r: RulePort)
    requires r.dstPortName != ""
    ensures r in NamedEntries(ports)
       <==> exists port ::
              port in ports && WritesName(port, r.dstPortName) && r == NameEntry(r.dstPortName, port.protocol)
  {
    if ports != [] {
      var front, last := ports[..|ports| - 1], ports[|ports| - 1];
      assert ports == front + [last];
      NamedEntriesFrom(front, r);
      EntriesOf(Split(last.portRange, ','), last.protocol, r);
    }
  }

  lemma EntriesOf(names: seq<string>, protocol: Protocol, r: RulePort)
    ensures r in NameEntries(names, protocol) <==> r.dstPortName in names && r == NameEntry(r.dstPortName, protocol)
  {
    var rs := NameEntries(names, protocol);
    if r.dstPortName in names && r == NameEntry(r.dstPortName, protocol) {
      var i :| 0 <= i < |names| && names[i] == r.dstPortName;
      assert rs[i] == r;
    }
  }

  lemma NumbersAdmit(rs: seq<RulePort>, dstItem: IPBlockItem, t: IPTuple)
    requires forall r :: r in rs ==> r.srcPort == 0
    ensures ListCovers(rs, t.protocol, t.dstPort)
       <==> exists r :: r in rs && r.dstPortName == "" && PortAdmits(r, dstItem, t)
  {
    if r :| r in rs && r.dstPortName == "" && PortAdmits(r, dstItem, t) {
      var i :| 0 <= i < |rs| && rs[i] == r;
    }
    if ListCovers(rs, t.protocol, t.dstPort) {
      var i :| 0 <= i < |rs| && rs[i].dstPortName == "" && ProtocolCovers(rs[i].protocol, t.protocol)
               && PortRanges.PortMatches(rs[i], t.dstPort);
      assert rs[i] in rs && PortAdmits(rs[i], dstItem, t);
    }
  }

  lemma NamedAdmits(ports: seq<SecurityPolicyPort>, rs: seq<RulePort>, dstItem: IPBlockItem, t: IPTuple)
    requires forall r: RulePort :: r.dstPortName != "" ==> (r in rs <==> r in NamedEntries(ports))
    ensures NamesAdmit(ports, dstItem, t) <==> exists r :: r in rs && r.dstPortName != "" && PortAdmits(r, dstItem, t)
  {
    if NamesAdmit(ports, dstItem, t) {
      var port, name :| port in ports && WritesName(port, name) && Resolves(name, port.protocol, dstItem, t);
      var r := NameEntry(name, port.protocol);
      NamedEntriesFrom(ports, r);
      assert r in rs && PortAdmits(r, dstItem, t);
    }
    if r :| r in rs && r.dstPortName != "" && PortAdmits(r, dstItem, t) {
      NamedEntriesFrom(ports, r);
      var port :| port in ports && WritesName(port, r.dstPortName) && r == NameEntry(r.dstPortName, port.protocol);
      assert Resolves(r.dstPortName, port.protocol, dstItem, t);
    }
  }

  /** The compiled list admits a packet iff the written ports do. */
  lemma CompiledAdmits(ports: seq<SecurityPolicyPort>, rs: seq<RulePort>, dstItem: IPBlockItem, t: IPTuple)
    requires Flattened(ports, rs)
    ensures (exists r :: r in rs && PortAdmits(r, dstItem, t)) <==> PortsAdmit(ports, dstItem, t)
  {
    NumbersAdmit(rs, dstItem, t);
    NamedAdmits(ports, rs, dstItem, t);
    if Plain(ports) { PlainIntended(ports, dstItem, t); }
  }
}
