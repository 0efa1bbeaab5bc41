/**
 What security policies say, read off their fields, the fields of the cached
 members and the packet, and nothing else: the reference for everything that the
 agent computes from them.
 */
module PolicyIntent {
  import opened Strings
  import opened Groups
  import opened GroupCache
  import opened IPBlocks
  import GroupBlocks
  import opened Uint16
  import opened PolicyRules
  import opened PortText
  import opened FlattenPorts
  import opened RuleCache
  import opened RuleTranslation
  import opened PolicySides
  import opened PolicyCompletion
  import opened PolicySemantics
  import FlowTables
  import PolicyBridge
  import PolicyMeaning
  import PortSemantics

  /** The member has the address. */
  ghost predicate At(m: GroupMember, a: string) { exists ip :: ip in m.ips && IsAddressOf(a, ip) }

  /** The member is one of the peer's, at the address. */
  ghost predicate OfPeer(peer: Peer, c: Cache, a: string, m: GroupMember) {
    && peer.GroupPeer? && peer.group in c.members && At(m, a)
    && exists r :: r in c.members[peer.group].endpoints && c.members[peer.group].endpoints[r] == m
  }

  ghost predicate MemberAt(peers: seq<Peer>, c: Cache, a: string, m: GroupMember) {
    exists peer :: peer in peers && OfPeer(peer, c, a, m)
  }

  /** One of the peers is a block with the network. */
  ghost predicate BlockAt(peers: seq<Peer>, a: string) {
    exists peer :: peer in peers && peer.BlockPeer? && a in peer.nets
  }

  /** The peers mean the address; no peers at all mean every address, written "". */
  ghost predicate Among(peers: seq<Peer>, c: Cache, a: string) {
    if peers == [] then a == "" else BlockAt(peers, a) || exists m :: MemberAt(peers, c, a, m)
  }

  /** The address is the agent's business: it is static, a member with it is on the agent, or none is on any agent. */
  ghost predicate LocalAt(peers: seq<Peer>, c: Cache, a: string, agent: string) {
    || peers == [] || BlockAt(peers, a)
    || (exists m :: MemberAt(peers, c, a, m) && agent in m.agents)
    || forall m :: MemberAt(peers, c, a, m) ==> m.agents == []
  }

  /** A member with the address has the named port. */
  ghost predicate NamedAt(peers: seq<Peer>, c: Cache, a: string, n: NamedPort) {
    exists m :: MemberAt(peers, c, a, m) && n in m.ports
  }

  /** Every group is cached and every block could be read. */
  ghost predicate Known(peers: seq<Peer>, c: Cache) {
    forall peer :: peer in peers ==> !peer.InvalidBlockPeer? && (peer.GroupPeer? ==> peer.group in c.members)
  }

  /** Which of the written ports are meant. */
  datatype Which = Each | Numbered | ByName

  predicate IsMeant(port: SecurityPolicyPort, which: Which) {
    match which
    case Each => true
    case Numbered => !port.byName
    case ByName => port.byName
  }

  predicate Speaks(protocol: Protocol, number: nat) {
    match protocol
    case TCP => number == 6
    case UDP => number == 17
    case ICMP => number == 1
    case AnyProtocol => true
  }

  /** One of the ranges covers the port. */
  ghost predicate Covered(ports: seq<SecurityPolicyPort>, which: Which, protocol: Protocol, p: nat) {
    exists port, piece, begin: uint16, end: uint16 ::
      && port in ports && IsMeant(port, which) && !port.byName && port.protocol == protocol
      && piece in Split(port.portRange, ',') && Reads(piece, begin, end) && begin <= p <= end
  }

  /** The ranges open the port; port 0 alone opens all, and an unbroken run from port 0 on opens nothing. */
  ghost predicate Opens(ports: seq<SecurityPolicyPort>, which: Which, protocol: Protocol, p: nat) {
    || (Covered(ports, which, protocol, 0) && !Covered(ports, which, protocol, 1))
    || (Covered(ports, which, protocol, p) && exists q: nat :: q <= p && !Covered(ports, which, protocol, q))
  }

  /** A port is given by this name, over a protocol that has ports. */
  ghost predicate GivesName(ports: seq<SecurityPolicyPort>, which: Which, protocol: Protocol, name: string) {
    exists port ::
      && port in ports && IsMeant(port, which) && port.byName && port.protocol == protocol != ICMP
      && name in Split(port.portRange, ',')
  }

  /** A named port of the address b is among the written names and matches the packet. */
  ghost predicate NameFits(ports: seq<SecurityPolicyPort>, which: Which, dst: seq<Peer>, b: string, x: Sight,
                           n: NamedPort) {
    && NamedAt(dst, x.cache, b, n) && n.name != "" && GivesName(ports, which, n.protocol, n.name)
    && Speaks(n.protocol, x.t.protocol) && (n.port % 65536 == 0 || n.port % 65536 == x.t.dstPort)
  }

  /** No ports at all, an open number, ICMP, or an empty name, which stands for all of its protocol. */
  ghost predicate NumbersSay(ports: seq<SecurityPolicyPort>, which: Which, number: nat, p: nat) {
    || (ports == [] && which == Each)
    || (number == 6 && Opens(ports, which, TCP, p))
    || (number == 17 && Opens(ports, which, UDP, p))
    || (number == 1 && exists port :: port in ports && IsMeant(port, which) && port.protocol == ICMP)
    || exists protocol :: GivesName(ports, which, protocol, "") && Speaks(protocol, number)
  }

  /** The written ports let the packet through to the address b of dst. */
  ghost predicate PortsSay(ports: seq<SecurityPolicyPort>, which: Which, dst: seq<Peer>, b: string, x: Sight) {
    || NumbersSay(ports, which, x.t.protocol, x.t.dstPort)
    || exists n :: NameFits(ports, which, dst, b, x, n)
  }

  /** The packet goes from an address of src to another one of dst; the side that enforces is local. */
  ghost predicate Meets(src: seq<Peer>, dst: seq<Peer>, x: Sight, a: string, b: string) {
    && Among(src, x.cache, a) && Among(dst, x.cache, b) && (a == "" || a != b)
    && (a == "" || x.matchIP(a, x.t.srcIP)) && (b == "" || x.matchIP(b, x.t.dstIP))
    && if x.d == Ingress then LocalAt(dst, x.cache, b, x.agent) else LocalAt(src, x.cache, a, x.agent)
  }

  ghost predicate Goes(src: seq<Peer>, dst: seq<Peer>, ports: seq<SecurityPolicyPort>, which: Which, x: Sight) {
    && Known(src, x.cache) && Known(dst, x.cache)
    && exists a, b :: Meets(src, dst, x, a, b) && PortsSay(ports, which, dst, b, x)
  }

  /** The directions of a policy: those it lists; if it lists none, ingress, and egress if it has egress rules. */
  predicate Directs(p: SecurityPolicy, d: Direction) {
    if !p.ingressType && !p.egressType then d == Ingress || p.egressRules != []
    else if d == Ingress then p.ingressType
    else p.egressType
  }

  /** An egress rule without peers: numbered ports are open to anyone, named ones to the endpoints that have them. */
  ghost predicate EgressSays(p: SecurityPolicy, rule: Rule, x: Sight) {
    if rule.peers != [] then Goes(p.appliedTo, rule.peers, rule.ports, Each, x)
    else
      || Goes(p.appliedTo, [], rule.ports, if rule.ports == [] then Each else Numbered, x)
      || Goes(p.appliedTo, [GroupPeer("all-endpoints-with-named-port")], rule.ports, ByName, x)
  }

  /** A rule of the policy lets the packet through; a symmetric policy's rules count in both directions. */
  ghost predicate Allows(p: SecurityPolicy, x: Sight) {
    || (&& Directs(p, Ingress) && (x.d == Ingress || p.symmetricMode)
        && exists rule :: rule in p.ingressRules && Goes(rule.peers, p.appliedTo, rule.ports, Each, x))
    || (&& Directs(p, Egress) && (x.d == Egress || p.symmetricMode)
        && exists rule :: rule in p.egressRules && EgressSays(p, rule, x))
  }

  /** The policy drops by default and the packet is to (ingress) or from (egress) an address it applies to. */
  ghost predicate Stops(p: SecurityPolicy, x: Sight) {
    && p.defaultDrop && Directs(p, x.d) && Known(p.appliedTo, x.cache)
    && exists b ::
         && Among(p.appliedTo, x.cache, b) && LocalAt(p.appliedTo, x.cache, b, x.agent)
         && (b == "" || x.matchIP(b, if x.d == Ingress then x.t.dstIP else x.t.srcIP))
  }

  predicate Tier0(p: SecurityPolicy) { p.tier == "tier0" && p.mode != "monitor" }

  predicate Tier1(p: SecurityPolicy) { p.tier == "tier1" && p.mode != "monitor" }

  predicate Tier2(p: SecurityPolicy) { p.tier != "tier0" && p.tier != "tier1" && p.mode != "monitor" }

  /**
   The policies refuse the packet. Tier by tier, an allowing policy ends the
   matter, and otherwise a stopping one does; in the last tier the agent's own
   addresses are let through before, and the global default applies after.
   */
  ghost predicate Refuse(policies: set<SecurityPolicy>, global: Option<GlobalPolicy>, own: set<(string, Direction)>,
                         x: Sight) {
    if exists p :: p in policies && Tier0(p) && Allows(p, x) then false
    else if exists p :: p in policies && Tier0(p) && Stops(p, x) then true
    else if exists p :: p in policies && Tier1(p) && Allows(p, x) then false
    else if exists p :: p in policies && Tier1(p) && Stops(p, x) then true
    else if exists a ::
      && a in own && a.1 == x.d
      && (a.0 == "" || x.matchIP(a.0, if x.d == Ingress then x.t.dstIP else x.t.srcIP)) then false
    else if exists p :: p in policies && Tier2(p) && Allows(p, x) then false
    else if exists p :: p in policies && Tier2(p) && Stops(p, x) then true
    else global.Some? && global.value.action == Drop && global.value.mode != "monitor"
  }

  // The address maps of the sides.

  /** What the item at an address tells about the peers. */
  ghost predicate Describes(blocks: IPBlockMap, peers: seq<Peer>, c: Cache, a: string) {
    && (a in blocks <==> BlockAt(peers, a) || exists m :: MemberAt(peers, c, a, m))
    && (a in blocks ==>
          && blocks[a].Item? && (blocks[a].staticCount > 0 <==> BlockAt(peers, a))
          && (forall agent :: agent in blocks[a].agentRef <==>
                              exists m :: MemberAt(peers, c, a, m) && agent in m.agents)
          && forall n :: n in blocks[a].ports <==> NamedAt(peers, c, a, n))
  }

  lemma AtIff(m: GroupMember, a: string)
    ensures At(m, a) <==> a in GroupBlocks.Cidrs(m)
  {
    forall ip
      ensures a == GetIPCidr(ip) <==> IsAddressOf(a, ip)
    {
      CidrIs(a, ip);
    }
  }

  lemma OfPeerIff(g: string, c: Cache, a: string, m: GroupMember)
    requires g in c.members
    ensures OfPeer(GroupPeer(g), c, a, m) <==>
      m in c.members[g].endpoints.Values && a in GroupBlocks.Cidrs(m)
  {
    AtIff(m, a);
  }

  lemma OnePeer(peer: Peer, c: Cache, a: string)
    requires PeerResolves(peer, c)
    ensures Describes(PeerBlocks(peer, c), [peer], c, a)
  {
    assert BlockAt([peer], a) <==> peer.BlockPeer? && a in peer.nets;
    assert forall m :: MemberAt([peer], c, a, m) <==> OfPeer(peer, c, a, m);
    match peer
    case BlockPeer(nets) => StaticCounts(nets, a);
    case GroupPeer(g) => OneGroup(g, c, a);
    case EmptyPeer =>
  }

  lemma OneGroup(g: string, c: Cache, a: string)
    requires g in c.members && forall m :: MemberAt([GroupPeer(g)], c, a, m) <==> OfPeer(GroupPeer(g), c, a, m)
    requires !BlockAt([GroupPeer(g)], a)
    ensures Describes(GroupBlocksOf(g, c), [GroupPeer(g)], c, a)
  {
    var ms := c.members[g].endpoints.Values;
    forall m
      ensures MemberAt([GroupPeer(g)], c, a, m) <==> m in ms && a in GroupBlocks.Cidrs(m)
    {
      OfPeerIff(g, c, a, m);
    }
  }

  lemma OneMorePeer(peers: seq<Peer>, c: Cache, a: string, m: GroupMember)
    requires peers != []
    ensures var front, last := peers[..|peers| - 1], peers[|peers| - 1];
      MemberAt(peers, c, a, m) <==> MemberAt(front, c, a, m) || MemberAt([last], c, a, m)
  {
    LastOrBefore(peers);
  }

  lemma OneMoreBlock(peers: seq<Peer>, a: string)
    requires peers != []
    ensures BlockAt(peers, a) <==> BlockAt(peers[..|peers| - 1], a) || BlockAt([peers[|peers| - 1]], a)
  {
    LastOrBefore(peers);
  }

  lemma DescribesMerge(x: IPBlockMap, y: IPBlockMap, peers: seq<Peer>, c: Cache, a: string)
    requires peers != [] && NoNil(x) && NoNil(y)
    requires Describes(x, peers[..|peers| - 1], c, a) && Describes(y, [peers[|peers| - 1]], c, a)
    ensures Describes(Merge(x, y), peers, c, a)
  {
    var front, last := peers[..|peers| - 1], peers[|peers| - 1];
    OneMoreBlock(peers, a);
    forall m
      ensures MemberAt(peers, c, a, m) <==> MemberAt(front, c, a, m) || MemberAt([last], c, a, m)
    {
      OneMorePeer(peers, c, a, m);
    }
  }

  /** The address map of some peers is what their blocks and members make it. */
  lemma {:induction false} PeersDescribed(peers: seq<Peer>, c: Cache, a: string)
    requires forall i :: 0 <= i < |peers| ==> PeerResolves(peers[i], c)
    ensures Describes(PeersBlocks(peers, c), peers, c, a)
  {
    if peers != [] {
      var front, last := peers[..|peers| - 1], peers[|peers| - 1];
      PeersDescribed(front, c, a);
      OnePeer(last, c, a);
      DescribesMerge(PeersBlocks(front, c), PeerBlocks(last, c), peers, c, a);
    }
  }

  lemma KnownIff(peers: seq<Peer>, c: Cache)
    ensures Known(peers, c) <==> SideResolves(SideOf(peers), c)
  {
    if Known(peers, c) {
      forall i | 0 <= i < |peers|
        ensures PeerResolves(peers[i], c)
      {
        assert peers[i] in peers;
      }
    }
  }

  /** Addresses, locality and named ports of a side. */
  lemma SideIs(peers: seq<Peer>, c: Cache, a: string, agent: string)
    requires SideResolves(SideOf(peers), c)
    ensures Among(peers, c, a) <==> a in SideBlocks(SideOf(peers), c)
    ensures Among(peers, c, a) ==>
      var item := SideBlocks(SideOf(peers), c)[a];
      && (HasLocalRule(item, agent) <==> LocalAt(peers, c, a, agent))
      && forall n :: item.Item? && n in item.ports <==> NamedAt(peers, c, a, n)
  {
    if peers != [] {
      PeersDescribed(peers, c, a);
      if a in PeersBlocks(peers, c) { LocalIff(PeersBlocks(peers, c), peers, c, a, agent); }
    }
  }

  lemma LocalIff(blocks: IPBlockMap, peers: seq<Peer>, c: Cache, a: string, agent: string)
    requires peers != [] && Describes(blocks, peers, c, a) && a in blocks
    ensures HasLocalRule(blocks[a], agent) <==> LocalAt(peers, c, a, agent)
  {
    if forall m :: MemberAt(peers, c, a, m) ==> m.agents == [] {
      assert blocks[a].agentRef == {};
    } else {
      var m :| MemberAt(peers, c, a, m) && m.agents != [];
      assert m.agents[0] in m.agents && m.agents[0] in blocks[a].agentRef;
    }
  }

  // The written ports.

  /** The list has the ports that are meant. */
  ghost predicate Selects(qs: seq<SecurityPolicyPort>, ports: seq<SecurityPolicyPort>, which: Which) {
    forall port :: port in qs <==> port in ports && IsMeant(port, which)
  }

  lemma TextCoversIff(pieces: seq<string>, p: uint16)
    ensures TextCovers(pieces, p) <==>
      exists piece, begin: uint16, end: uint16 :: piece in pieces && Reads(piece, begin, end) && begin <= p <= end
  {
    if TextCovers(pieces, p) {
      var i :| 0 <= i < |pieces| && UnmarshalPortRange(pieces[i]).Ok?
               && UnmarshalPortRange(pieces[i]).value.begin <= p <= UnmarshalPortRange(pieces[i]).value.end;
      var read := UnmarshalPortRange(pieces[i]).value;
      UnmarshalReads(pieces[i], read.begin, read.end);
      assert pieces[i] in pieces;
    }
    if piece, begin: uint16, end: uint16 :| piece in pieces && Reads(piece, begin, end) && begin <= p <= end {
      UnmarshalReads(piece, begin, end);
      var i :| 0 <= i < |pieces| && pieces[i] == piece;
    }
  }

  lemma CoveredIff(qs: seq<SecurityPolicyPort>, ports: seq<SecurityPolicyPort>, which: Which, protocol: Protocol,
                   p: uint16)
    requires Selects(qs, ports, which)
    ensures Written(qs, protocol, p) <==> Covered(ports, which, protocol, p)
  {
    if Written(qs, protocol, p) {
      var i :| 0 <= i < |qs| && qs[i].protocol == protocol && !qs[i].byName
               && TextCovers(Split(qs[i].portRange, ','), p);
      TextCoversIff(Split(qs[i].portRange, ','), p);
      assert qs[i] in qs;
    }
    if Covered(ports, which, protocol, p) {
      var port, piece, begin: uint16, end: uint16 :|
        && port in ports && IsMeant(port, which) && !port.byName && port.protocol == protocol
        && piece in Split(port.portRange, ',') && Reads(piece, begin, end) && begin <= p <= end;
      TextCoversIff(Split(port.portRange, ','), p);
      var i :| 0 <= i < |qs| && qs[i] == port;
    }
  }

  lemma OpensIff(qs: seq<SecurityPolicyPort>, ports: seq<SecurityPolicyPort>, which: Which, protocol: Protocol,
                 p: uint16)
    requires Selects(qs, ports, which)
    ensures Compiled(WrittenMap(qs, protocol), p) <==> Opens(ports, which, protocol, p)
  {
    var portMap := WrittenMap(qs, protocol);
    forall q: uint16
      ensures portMap[q] <==> Covered(ports, which, protocol, q)
    {
      CoveredIff(qs, ports, which, protocol, q);
      assert portMap[q] <==> Written(qs, protocol, q);
    }
    assert InZeroRun(portMap, p) <==> forall q: nat :: q <= p ==> Covered(ports, which, protocol, q) by {
      if forall q: nat :: q <= p ==> Covered(ports, which, protocol, q) {
        assert forall q: uint16 :: q <= p ==> portMap[q];
      }
      if InZeroRun(portMap, p) {
        forall q: nat | q <= p
          ensures Covered(ports, which, protocol, q)
        {
          var q': uint16 := q;
          assert portMap[q'];
        }
      }
    }
  }

  lemma EmptyNameIff(qs: seq<SecurityPolicyPort>, ports: seq<SecurityPolicyPort>, which: Which, number: nat)
    requires Selects(qs, ports, which)
    ensures EmptyName(qs, number)
       <==> exists protocol :: GivesName(ports, which, protocol, "") && Speaks(protocol, number)
  {
    if EmptyName(qs, number) {
      var i :| 0 <= i < |qs| && qs[i].byName && qs[i].protocol != ICMP
               && "" in Split(qs[i].portRange, ',') && ProtocolCovers(qs[i].protocol, number);
      assert qs[i] in qs;
      assert GivesName(ports, which, qs[i].protocol, "") && Speaks(qs[i].protocol, number);
    }
    if protocol :| GivesName(ports, which, protocol, "") && Speaks(protocol, number) {
      var port :| port in ports && IsMeant(port, which) && port.byName && port.protocol == protocol != ICMP
                  && "" in Split(port.portRange, ',');
      var i :| 0 <= i < |qs| && qs[i] == port;
    }
  }

  lemma ICMPIff(qs: seq<SecurityPolicyPort>, ports: seq<SecurityPolicyPort>, which: Which)
    requires Selects(qs, ports, which)
    ensures HasICMP(qs) <==> exists port :: port in ports && IsMeant(port, which) && port.protocol == ICMP
  {
    if i :| 0 <= i < |qs| && qs[i].protocol == ICMP { assert qs[i] in qs; }
    if port :| port in ports && IsMeant(port, which) && port.protocol == ICMP {
      var i :| 0 <= i < |qs| && qs[i] == port;
    }
  }

  lemma NamesIff(qs: seq<SecurityPolicyPort>, ports: seq<SecurityPolicyPort>, which: Which, dst: seq<Peer>, b: string,
                 x: Sight, item: IPBlockItem)
    requires Selects(qs, ports, which) && forall n :: item.Item? && n in item.ports <==> NamedAt(dst, x.cache, b, n)
    ensures PortSemantics.NamesAdmit(qs, item, x.t) <==> exists n :: NameFits(ports, which, dst, b, x, n)
  {
    if PortSemantics.NamesAdmit(qs, item, x.t) {
      var port, name :| port in qs && PortSemantics.WritesName(port, name)
                        && PortSemantics.Resolves(name, port.protocol, item, x.t);
      var n :| n in item.ports && n.name == name && n.protocol == port.protocol
               && (n.port % Modulus == 0 || n.port % Modulus == x.t.dstPort);
      assert NameFits(ports, which, dst, b, x, n);
    }
    if n :| NameFits(ports, which, dst, b, x, n) { FitsAdmit(qs, ports, which, dst, b, x, item, n); }
  }

  lemma FitsAdmit(qs: seq<SecurityPolicyPort>, ports: seq<SecurityPolicyPort>, which: Which, dst: seq<Peer>, b: string,
                  x: Sight, item: IPBlockItem, n: NamedPort)
    requires Selects(qs, ports, which) && item.Item? && n in item.ports && NameFits(ports, which, dst, b, x, n)
    ensures PortSemantics.NamesAdmit(qs, item, x.t)
  {
    var port :| port in ports && IsMeant(port, which) && port.byName && port.protocol == n.protocol != ICMP
                && n.name in Split(port.portRange, ',');
    assert port in qs && PortSemantics.WritesName(port, n.name);
    assert PortSemantics.Resolves(n.name, port.protocol, item, x.t);
  }

  lemma PortsSayIff(qs: seq<SecurityPolicyPort>, ports: seq<SecurityPolicyPort>, which: Which, dst: seq<Peer>,
                    b: string, x: Sight, item: IPBlockItem)
    requires Selects(qs, ports, which) && (qs == [] <==> ports == [] && which == Each)
    requires forall n :: item.Item? && n in item.ports <==> NamedAt(dst, x.cache, b, n)
    ensures PortSemantics.PortsAdmit(qs, item, x.t) <==> PortsSay(ports, which, dst, b, x)
  {
    if PortSemantics.Plain(qs) { PortSemantics.PlainIntended(qs, item, x.t); }
    NumbersSayIff(qs, ports, which, x.t.protocol, x.t.dstPort);
    NamesIff(qs, ports, which, dst, b, x, item);
  }

  lemma NumbersSayIff(qs: seq<SecurityPolicyPort>, ports: seq<SecurityPolicyPort>, which: Which, number: nat, p: uint16)
    requires Selects(qs, ports, which) && (qs == [] <==> ports == [] && which == Each)
    ensures Intended(qs, number, p) <==> NumbersSay(ports, which, number, p)
  {
    OpensIff(qs, ports, which, TCP, p);
    OpensIff(qs, ports, which, UDP, p);
    EmptyNameIff(qs, ports, which, number);
    ICMPIff(qs, ports, which);
  }

  lemma {:induction false} NumberPortsAre(ports: seq<SecurityPolicyPort>)
    ensures Selects(NumberPorts(ports), ports, Numbered)
  {
    if ports != [] {
      NumberPortsAre(ports[..|ports| - 1]);
      LastOrBefore(ports);
    }
  }

  lemma {:induction false} NamedPortsAre(ports: seq<SecurityPolicyPort>)
    ensures Selects(NamedPorts(ports), ports, ByName)
  {
    if ports != [] {
      NamedPortsAre(ports[..|ports| - 1]);
      LastOrBefore(ports);
    }
  }

  // Rules, policies and tiers.

  lemma MeetsIff(src: seq<Peer>, dst: seq<Peer>, x: Sight, a: string, b: string)
    requires Known(src, x.cache) && Known(dst, x.cache)
    ensures SideResolves(SideOf(src), x.cache) && SideResolves(SideOf(dst), x.cache)
    ensures Meets(src, dst, x, a, b) <==> Pair(SideOf(src), SideOf(dst), x, a, b)
  {
    KnownIff(src, x.cache);
    KnownIff(dst, x.cache);
    SideIs(src, x.cache, a, x.agent);
    SideIs(dst, x.cache, b, x.agent);
  }

  lemma GoesIff(src: seq<Peer>, dst: seq<Peer>, qs: seq<SecurityPolicyPort>, ports: seq<SecurityPolicyPort>,
                which: Which, x: Sight)
    requires Selects(qs, ports, which) && (qs == [] <==> ports == [] && which == Each)
    ensures Between(SideOf(src), SideOf(dst), qs, x) <==> Goes(src, dst, ports, which, x)
  {
    KnownIff(src, x.cache);
    KnownIff(dst, x.cache);
    if Known(src, x.cache) && Known(dst, x.cache) {
      forall a, b
        ensures Pair(SideOf(src), SideOf(dst), x, a, b)
                && PortSemantics.PortsAdmit(qs, SideBlocks(SideOf(dst), x.cache)[b], x.t)
           <==> Meets(src, dst, x, a, b) && PortsSay(ports, which, dst, b, x)
      {
        MeetsIff(src, dst, x, a, b);
        if Pair(SideOf(src), SideOf(dst), x, a, b) {
          SideIs(dst, x.cache, b, x.agent);
          PortsSayIff(qs, ports, which, dst, b, x, SideBlocks(SideOf(dst), x.cache)[b]);
        }
      }
    }
  }

  /** Ports of which none is meant let nothing through. */
  lemma NoneMeant(src: seq<Peer>, dst: seq<Peer>, ports: seq<SecurityPolicyPort>, which: Which, x: Sight)
    requires which != Each && forall port :: port in ports ==> !IsMeant(port, which)
    ensures !Goes(src, dst, ports, which, x)
  {
  }

  lemma EgressSaysIff(p: SecurityPolicy, rule: Rule, x: Sight)
    ensures EgressAdmits(p, rule, x) <==> EgressSays(p, rule, x)
  {
    var ports := rule.ports;
    if rule.peers != [] {
      GoesIff(p.appliedTo, rule.peers, ports, ports, Each, x);
    } else {
      NumbersGo(p, rule, x);
      NamesGo(p, rule, x);
    }
  }

  lemma NumbersGo(p: SecurityPolicy, rule: Rule, x: Sight)
    requires rule.peers == []
    ensures HasPlain(rule) && Between(SideOf(p.appliedTo), SideOf([]), PlainPorts(rule), x) <==>
      Goes(p.appliedTo, [], rule.ports, if rule.ports == [] then Each else Numbered, x)
  {
    NumberPortsAre(rule.ports);
    if rule.ports == [] {
      GoesIff(p.appliedTo, [], [], [], Each, x);
    } else if NumberPorts(rule.ports) != [] {
      GoesIff(p.appliedTo, [], NumberPorts(rule.ports), rule.ports, Numbered, x);
    } else {
      NoneMeant(p.appliedTo, [], rule.ports, Numbered, x);
    }
  }

  lemma NamesGo(p: SecurityPolicy, rule: Rule, x: Sight)
    requires rule.peers == []
    ensures HasNamed(rule) && Between(SideOf(p.appliedTo), NamedPortEndpoints, NamedPorts(rule.ports), x) <==>
      Goes(p.appliedTo, [GroupPeer("all-endpoints-with-named-port")], rule.ports, ByName, x)
  {
    var all := [GroupPeer("all-endpoints-with-named-port")];
    assert SideOf(all) == NamedPortEndpoints;
    NamedPortsAre(rule.ports);
    if NamedPorts(rule.ports) != [] {
      GoesIff(p.appliedTo, all, NamedPorts(rule.ports), rule.ports, ByName, x);
    } else {
      NoneMeant(p.appliedTo, all, rule.ports, ByName, x);
    }
  }

  lemma DirectsIff(p: SecurityPolicy)
    ensures Directs(p, Ingress) <==> IngressEnabled(p)
    ensures Directs(p, Egress) <==> EgressEnabled(p)
  {
  }

  lemma AllowsIff(p: SecurityPolicy, x: Sight)
    ensures Admits(p, x) <==> Allows(p, x)
  {
    DirectsIff(p);
    forall rule
      ensures IngressAdmits(p, rule, x) <==> Goes(rule.peers, p.appliedTo, rule.ports, Each, x)
      ensures EgressAdmits(p, rule, x) <==> EgressSays(p, rule, x)
    {
      GoesIff(rule.peers, p.appliedTo, rule.ports, rule.ports, Each, x);
      EgressSaysIff(p, rule, x);
    }
  }

  lemma StopsIff(p: SecurityPolicy, x: Sight)
    ensures Isolates(p, x) <==> Stops(p, x)
  {
    DirectsIff(p);
    KnownIff(p.appliedTo, x.cache);
    if Known(p.appliedTo, x.cache) {
      forall b
        ensures Among(p.appliedTo, x.cache, b) <==> b in SideBlocks(SideOf(p.appliedTo), x.cache)
        ensures Among(p.appliedTo, x.cache, b) ==>
          (HasLocalRule(SideBlocks(SideOf(p.appliedTo), x.cache)[b], x.agent) <==>
           LocalAt(p.appliedTo, x.cache, b, x.agent))
      {
        SideIs(p.appliedTo, x.cache, b, x.agent);
      }
    }
  }

  /** The policies refuse, read off their fields, what they refuse in terms of the agent's own notions. */
  lemma RefuseIff(policies: set<SecurityPolicy>, global: Option<GlobalPolicy>, own: set<(string, Direction)>, x: Sight)
    ensures Refused(policies, global, own, x) <==> Refuse(policies, global, own, x)
  {
    forall p
      ensures Admits(p, x) <==> Allows(p, x)
      ensures Isolates(p, x) <==> Stops(p, x)
    {
      AllowsIff(p, x);
      StopsIff(p, x);
    }
  }

  /** The text of the port can be read. */
  ghost predicate Legible(port: SecurityPolicyPort) {
    || port.protocol == ICMP || port.byName
    || forall piece :: piece in Split(port.portRange, ',') ==> exists begin, end :: Reads(piece, begin, end)
  }

  ghost predicate AllLegible(rules: seq<Rule>) {
    forall rule, port :: rule in rules && port in rule.ports ==> Legible(port)
  }

  lemma ReadableIff(piece: string)
    ensures UnmarshalPortRange(piece).Ok? <==> exists begin, end :: Reads(piece, begin, end)
  {
    if UnmarshalPortRange(piece).Ok? {
      var read := UnmarshalPortRange(piece).value;
      UnmarshalReads(piece, read.begin, read.end);
    }
    if begin, end :| Reads(piece, begin, end) { UnmarshalReads(piece, begin, end); }
  }

  lemma LegibleIff(port: SecurityPolicyPort)
    ensures Legible(port) <==> !Malformed(port)
  {
    var pieces := Split(port.portRange, ',');
    forall i | 0 <= i < |pieces|
      ensures UnmarshalPortRange(pieces[i]).Ok? <==> exists begin, end :: Reads(pieces[i], begin, end)
    {
      ReadableIff(pieces[i]);
    }
    if Malformed(port) {
      var i :| 0 <= i < |pieces| && UnmarshalPortRange(pieces[i]).Err?;
      assert pieces[i] in pieces;
    } else if port.protocol != ICMP && !port.byName {
      forall piece | piece in pieces
        ensures exists begin, end :: Reads(piece, begin, end)
      {
        var i :| 0 <= i < |pieces| && pieces[i] == piece;
        assert !UnmarshalPortRange(pieces[i]).Err?;
      }
    }
  }

  lemma FlattensIff(qs: seq<SecurityPolicyPort>, flatten: Compiler)
    requires PortSemantics.IsFlatten(flatten)
    ensures flatten(qs).Some? <==> forall port :: port in qs ==> Legible(port)
  {
    forall port
      ensures Legible(port) <==> !Malformed(port)
    {
      LegibleIff(port);
    }
    if AllReadable(qs) {
      forall port | port in qs
        ensures Legible(port)
      {
        var i :| 0 <= i < |qs| && qs[i] == port;
      }
    }
  }

  lemma EgressCompilesIff(p: SecurityPolicy, rule: Rule, flatten: Compiler)
    requires PortSemantics.IsFlatten(flatten)
    ensures EgressSpecs(p, rule, flatten).Some? <==> forall port :: port in rule.ports ==> Legible(port)
    ensures EgressSpecs(p, rule, flatten).Some? ==> EgressSpecs(p, rule, flatten).value != []
  {
    NumberPortsAre(rule.ports);
    NamedPortsAre(rule.ports);
    FlattensIff(rule.ports, flatten);
    FlattensIff(NumberPorts(rule.ports), flatten);
    FlattensIff(NamedPorts(rule.ports), flatten);
    if rule.ports != [] { assert rule.ports[0] in NumberPorts(rule.ports) || rule.ports[0] in NamedPorts(rule.ports); }
  }

  lemma {:induction false} IngressAllCompiles(p: SecurityPolicy, rules: seq<Rule>, flatten: Compiler)
    requires PortSemantics.IsFlatten(flatten)
    ensures IngressAll(p, rules, flatten).Some? <==> AllLegible(rules)
    ensures IngressAll(p, rules, flatten).Some? ==> (IngressAll(p, rules, flatten).value == [] <==> rules == [])
  {
    if rules != [] {
      IngressAllCompiles(p, rules[..|rules| - 1], flatten);
      FlattensIff(rules[|rules| - 1].ports, flatten);
      LastOrBefore(rules);
    }
  }

  lemma {:induction false} EgressAllCompiles(p: SecurityPolicy, rules: seq<Rule>, flatten: Compiler)
    requires PortSemantics.IsFlatten(flatten)
    ensures EgressAll(p, rules, flatten).Some? <==> AllLegible(rules)
    ensures EgressAll(p, rules, flatten).Some? ==> (EgressAll(p, rules, flatten).value == [] <==> rules == [])
  {
    if rules != [] {
      EgressAllCompiles(p, rules[..|rules| - 1], flatten);
      EgressCompilesIff(p, rules[|rules| - 1], flatten);
      LastOrBefore(rules);
    }
  }

  /** A policy can be completed iff the ports of the directions it is about can be read. */
  lemma CompletesIff(p: SecurityPolicy, flatten: Compiler)
    requires PortSemantics.IsFlatten(flatten)
    ensures RuleSpecs(p, flatten).Some? <==>
      (Directs(p, Ingress) ==> AllLegible(p.ingressRules)) && (Directs(p, Egress) ==> AllLegible(p.egressRules))
  {
    DirectsIff(p);
    IngressAllCompiles(p, p.ingressRules, flatten);
    EgressAllCompiles(p, p.egressRules, flatten);
  }

  /** A direction that the policy is about and has rules or a default drop for gets complete rules, and no other. */
  lemma DirectionsCompleted(p: SecurityPolicy, flatten: Compiler)
    requires PortSemantics.IsFlatten(flatten) && RuleSpecs(p, flatten).Some?
    ensures (exists spec :: spec in RuleSpecs(p, flatten).value && spec.shape.direction == Ingress)
       <==> Directs(p, Ingress) && (p.ingressRules != [] || p.defaultDrop)
    ensures (exists spec :: spec in RuleSpecs(p, flatten).value && spec.shape.direction == Egress)
       <==> Directs(p, Egress) && (p.egressRules != [] || p.defaultDrop)
  {
    DirectsIff(p);
    IngressAllCompiles(p, p.ingressRules, flatten);
    EgressAllCompiles(p, p.egressRules, flatten);
    var ingress, egress := IngressPart(p, flatten).value, EgressPart(p, flatten).value;
    PartDirections(p, flatten);
    if ingress != [] { assert ingress[0] in RuleSpecs(p, flatten).value; }
    if egress != [] { assert egress[0] in egress && egress[0] in RuleSpecs(p, flatten).value; }
  }

  lemma PartDirections(p: SecurityPolicy, flatten: Compiler)
    requires RuleSpecs(p, flatten).Some?
    ensures forall spec :: spec in IngressPart(p, flatten).value ==> spec.shape.direction == Ingress
    ensures forall spec :: spec in EgressPart(p, flatten).value ==> spec.shape.direction == Egress
  {
    forall spec | spec in IngressPart(p, flatten).value
      ensures spec.shape.direction == Ingress
    {
      IngressMembers(p, p.ingressRules, flatten, spec);
    }
    forall spec | spec in EgressPart(p, flatten).value
      ensures spec.shape.direction == Egress
    {
      EgressMembers(p, p.egressRules, flatten, spec);
      if OfEgress(p, p.egressRules, flatten, spec) {
        var rule :| rule in p.egressRules && OneOfEgress(p, rule, flatten, spec);
        EgressSpecsAre(p, rule, flatten, spec);
      }
    }
  }

  /**
   From policies to packets: with any policies in tiers and modes that have a
   table, the agent's own addresses and the global default on the bridge, for
   every tie-break, a new packet is dropped iff the policies refuse it, as their
   fields and those of the cached members say.
   */
  lemma PoliciesMean(
      tables: FlowTables.Tables, c: PolicyBridge.Config, tie: FlowTables.TieBreak, p: FlowTables.Packet,
      policies: set<SecurityPolicy>, flatten: Compiler, inv: PolicyMeaning.Inventory, al: PolicyMeaning.Allocation,
      x: Sight)
    requires PolicyBridge.IsConfig(c) && PolicyBridge.HasBase(tables, c)
    requires PolicyBridge.HasRules(tables, PolicyMeaning.FlowsOf(inv, x.agent, al))
    requires FlowTables.Chooses(tie) && PolicyMeaning.Arriving(p, c, x.d)
    requires PortSemantics.IsFlatten(flatten) && Completed(policies, flatten, x.cache, inv.rules)
    ensures FlowTables.Exec(tables, tie, PolicyBridge.DirectionSelectionTable, p,
                            PolicyMeaning.HitsOf(x.matchIP, x.t)).output ==
      if Refuse(policies, inv.global, inv.internal, x) then None else Some(PolicyBridge.OtherPort(p, c))
  {
    PoliciesDecide(tables, c, tie, p, policies, flatten, inv, al, x);
    RefuseIff(policies, inv.global, inv.internal, x);
  }

  /** Whatever the later tiers allow: a tier-0 policy that stops the packet, if no tier-0 policy allows it, decides. */
  lemma Tier0Decides(policies: set<SecurityPolicy>, global: Option<GlobalPolicy>, own: set<(string, Direction)>,
                     x: Sight, p: SecurityPolicy)
    requires p in policies && p.tier == "tier0" && p.mode != "monitor" && Stops(p, x)
    requires forall q :: q in policies && q.tier == "tier0" && q.mode != "monitor" ==> !Allows(q, x)
    ensures Refuse(policies, global, own, x)
  {
    assert Tier0(p);
  }
}
