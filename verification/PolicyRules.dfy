/**
 The rule vocabulary shared by the policy controller and the datapath:
 RulePort, the datapath's EveroutePolicyRule and its packet-matching predicate.
 */
module PolicyRules {
  import opened Uint16

  datatype Protocol = TCP | UDP | ICMP | AnyProtocol

  datatype RulePort = RulePort(
    srcPort: uint16, dstPort: uint16, srcPortMask: uint16, dstPortMask: uint16,
    srcPortName: string, dstPortName: string, protocol: Protocol)

  /** RulePort{}: the zero value matches every protocol and port. */
  const AllPorts: RulePort := RulePort(0, 0, 0, 0, "", "", AnyProtocol)

  datatype EveroutePolicyRule = EveroutePolicyRule(
    ruleID: string, priority: nat, srcIPAddr: string, dstIPAddr: string, ipProtocol: nat,
    srcPort: uint16, srcPortMask: uint16, dstPort: uint16, dstPortMask: uint16, action: string)

  datatype IPTuple = IPTuple(protocol: nat, srcIP: string, dstIP: string, srcPort: uint16, dstPort: uint16)

  function ProtocolToInt(p: Protocol): nat {
    match p
    case ICMP => 1
    case TCP => 6
    case UDP => 17
    case AnyProtocol => 0
  }

  predicate MatchPort(mask: uint16, port1: uint16, port2: uint16) {
    if mask == 0 then port1 == port2
    else BitAnd(port1, mask) == BitAnd(port2, mask)
  }

  /** Address matching is a parameter: parsing addresses is net.ParseCIDR's business. */
  predicate MatchIPTuple(rule: EveroutePolicyRule, matchIP: (string, string) -> bool, t: IPTuple) {
    && (rule.ipProtocol == 0 || rule.ipProtocol == t.protocol)
    && (rule.srcIPAddr == "" || matchIP(rule.srcIPAddr, t.srcIP))
    && (rule.dstIPAddr == "" || matchIP(rule.dstIPAddr, t.dstIP))
    && (rule.srcPort == 0 || MatchPort(rule.srcPortMask, rule.srcPort, t.srcPort))
    && (rule.dstPort == 0 || MatchPort(rule.dstPortMask, rule.dstPort, t.dstPort))
  }
}
