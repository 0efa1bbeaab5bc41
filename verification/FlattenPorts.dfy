/**
 Port lists of a policy rule, compiled through a 65536-entry bitmap per protocol.
 */
module FlattenPorts {
  import opened Strings
  import opened Uint16
  import opened PolicyRules
  import opened PortText
  import opened PortRanges

  type PortMap = m: seq<bool> | |m| == Modulus witness seq(Modulus, _ => false)

  /** p lies in an unbroken run of marked ports that starts at 0. */
  ghost predicate InZeroRun(portMap: PortMap, p: uint16) {
    forall q: uint16 :: q <= p ==> portMap[q]
  }

  /**
   What the bitmap compiles to. Port 0 doubles as the wildcard: a lone port 0
   turns into "every port", and a longer run from 0 is lost.
   */
  ghost predicate Compiled(portMap: PortMap, p: uint16) {
    || (portMap[0] && !portMap[1])
    || (portMap[p] && !InZeroRun(portMap, p))
  }

  /** The compilation is exact precisely when port 0 is not marked. */
  lemma ExactIffZeroUnmarked(portMap: PortMap)
    ensures (forall p: uint16 :: Compiled(portMap, p) <==> portMap[p]) <==> !portMap[0]
  {
  }

  /** A lone port 0 compiles to port 80 as well, and of the ports 0 and 1 neither is compiled. */
  lemma PortZeroExample(lone: PortMap, pair: PortMap)
    requires lone == seq(Modulus, p => p == 0) && pair == seq(Modulus, p => p <= 1)
    ensures Compiled(lone, 80) && !lone[80]
    ensures !Compiled(pair, 0) && !Compiled(pair, 1) && pair[0] && pair[1]
  {
  }

  lemma SomeMatchesConcat(xs: seq<RulePort>, ys: seq<RulePort>, p: uint16)
    ensures SomeMatches(xs + ys, p) <==> SomeMatches(xs, p) || SomeMatches(ys, p)
  {
    var zs := xs + ys;
    if SomeMatches(xs, p) {
      var i :| 0 <= i < |xs| && PortMatches(xs[i], p);
      assert zs[i] == xs[i];
    }
    if SomeMatches(ys, p) {
      var i :| 0 <= i < |ys| && PortMatches(ys[i], p);
      assert zs[|xs| + i] == ys[i];
    }
  }

  /** What the first `n` ports of the bitmap have contributed. */
  ghost predicate CompiledBelow(portMap: PortMap, n: nat, p: uint16) {
    || (n >= 1 && portMap[0] && !portMap[1])
    || (p < n && portMap[p] && !InZeroRun(portMap, p))
  }

  /** A maximal run [begin, end] adds exactly what calPortRangeMask emits for it. */
  lemma RunCompiles(portMap: PortMap, begin: uint16, end: uint16, p: uint16, matched: bool)
    requires begin <= end && forall q: uint16 :: begin <= q <= end ==> portMap[q]
    requires begin > 0 ==> !portMap[begin - 1]
    requires end < 0xffff ==> !portMap[end + 1]
    requires begin >= 1 ==> (matched <==> begin <= p <= end)
    requires begin == 0 ==> (matched <==> end == 0)
    ensures CompiledBelow(portMap, end + 1, p) <==> CompiledBelow(portMap, begin, p) || matched
  {
  }

  method ProcessFlattenPorts(portMap: PortMap, protocol: Protocol) returns (rs: seq<RulePort>)
    ensures forall p: uint16 :: SomeMatches(rs, p) <==> Compiled(portMap, p)
    ensures forall i :: 0 <= i < |rs| ==> DestinationOnly(rs[i], protocol)
  {
    rs := [];
    var begin, end := -1, -1;
    for index := 0 to Modulus
      invariant end == -1 && -1 <= begin < index
      invariant begin != -1 ==> index < Modulus && forall q: uint16 :: begin <= q < index ==> portMap[q]
      invariant begin > 0 ==> !portMap[begin - 1]
      invariant begin == -1 && index > 0 ==> index == Modulus || !portMap[index - 1]
      invariant forall p: uint16 ::
        SomeMatches(rs, p) <==> CompiledBelow(portMap, if begin == -1 then index else begin, p)
      invariant forall i :: 0 <= i < |rs| ==> DestinationOnly(rs[i], protocol)
    {
      var port := portMap[index];
      if port && begin == -1 {
        begin := index;
      }
      if port && begin != -1 && index == |portMap| - 1 {
        end := index;
      }
      if !port && begin != -1 {
        end := index - 1;
      }
      if begin != -1 && end != -1 {
        var run := CalPortRangeMask(begin, end, protocol);
        forall p: uint16
          ensures SomeMatches(rs + run, p) <==> CompiledBelow(portMap, index + 1, p)
        {
          SomeMatchesConcat(rs, run, p);
          if begin == 0 && end == 0 { assert PortMatches(run[0], p); }
          RunCompiles(portMap, begin, end, p, SomeMatches(run, p));
        }
        rs := rs + run;
        begin, end := -1, -1;
      }
    }
  }

  datatype SecurityPolicyPort = SecurityPolicyPort(protocol: Protocol, portRange: string, byName: bool)

  /** Some comma-separated piece of the text covers p. */
  ghost predicate TextCovers(pieces: seq<string>, p: uint16) {
    exists i :: 0 <= i < |pieces| && UnmarshalPortRange(pieces[i]).Ok?
             && UnmarshalPortRange(pieces[i]).value.begin <= p <= UnmarshalPortRange(pieces[i]).value.end
  }

  predicate Unreadable(pieces: seq<string>) {
    exists i :: 0 <= i < |pieces| && UnmarshalPortRange(pieces[i]).Err?
  }

  predicate Malformed(port: SecurityPolicyPort) {
    port.protocol != ICMP && !port.byName && Unreadable(Split(port.portRange, ','))
  }

  /** p is in the union of the number ranges written for the protocol. */
  ghost predicate Written(ports: seq<SecurityPolicyPort>, protocol: Protocol, p: uint16) {
    exists i :: 0 <= i < |ports| && ports[i].protocol == protocol && !ports[i].byName
             && TextCovers(Split(ports[i].portRange, ','), p)
  }

  ghost function WrittenMap(ports: seq<SecurityPolicyPort>, protocol: Protocol): PortMap {
    seq(Modulus, p requires 0 <= p < Modulus => Written(ports, protocol, p))
  }

  predicate HasICMP(ports: seq<SecurityPolicyPort>) {
    exists i :: 0 <= i < |ports| && ports[i].protocol == ICMP
  }

  /** The entries for named ports, resolved later against each endpoint. */
  function NamedEntries(ports: seq<SecurityPolicyPort>): (rs: seq<RulePort>)
    ensures forall i :: 0 <= i < |rs| ==> rs[i].dstPort == 0 && rs[i].srcPort == 0
  {
    if ports == [] then []
    else
      var last := ports[|ports| - 1];
      var rest := NamedEntries(ports[..|ports| - 1]);
      if last.protocol == ICMP || !last.byName then rest
      else rest + NameEntries(Split(last.portRange, ','), last.protocol)
  }

  function NameEntries(names: seq<string>, protocol: Protocol): (rs: seq<RulePort>)
  {
    seq(|names|, i requires 0 <= i < |names| => AllPorts.(dstPortName := names[i], protocol := protocol))
  }

  /** Sets the ports begin..end of the bitmap. */
  method MarkRange(portMap: array<bool>, begin: uint16, end: uint16)
    requires portMap.Length == Modulus
    modifies portMap
    ensures forall p: uint16 :: portMap[p] <==> old(portMap[p]) || begin <= p <= end
  {
    var portNumber: int := begin;
    while portNumber <= end
      invariant begin <= portNumber && (portNumber <= end + 1 || portNumber == begin)
      invariant forall p: uint16 :: portMap[p] <==> old(portMap[p]) || begin <= p < portNumber
    {
      portMap[portNumber] := true;
      portNumber := portNumber + 1;
    }
  }

  /** Reads the pieces of one number range into the bitmap of its protocol. */
  method MarkPieces(pieces: seq<string>, protocol: Protocol, tcp: array<bool>, udp: array<bool>) returns (ok: bool)
    requires tcp != udp && tcp.Length == udp.Length == Modulus
    modifies tcp, udp
    ensures ok <==> !Unreadable(pieces)
    ensures ok ==> forall p: uint16 :: tcp[p] <==> old(tcp[p]) || (protocol == TCP && TextCovers(pieces, p))
    ensures ok ==> forall p: uint16 :: udp[p] <==> old(udp[p]) || (protocol == UDP && TextCovers(pieces, p))
  {
    for i := 0 to |pieces|
      invariant !Unreadable(pieces[..i])
      invariant forall p: uint16 :: tcp[p] <==> old(tcp[p]) || (protocol == TCP && TextCovers(pieces[..i], p))
      invariant forall p: uint16 :: udp[p] <==> old(udp[p]) || (protocol == UDP && TextCovers(pieces[..i], p))
    {
      var interval := UnmarshalPortRange(pieces[i]);
      CoverStep(pieces, i);
      if interval.Err? {
        return false;
      }
      if protocol == TCP {
        MarkRange(tcp, interval.value.begin, interval.value.end);
      }
      if protocol == UDP {
        MarkRange(udp, interval.value.begin, interval.value.end);
      }
    }
    assert pieces[..|pieces|] == pieces;
    return true;
  }

  lemma CoverStep(pieces: seq<string>, i: nat)
    requires i < |pieces|
    ensures Unreadable(pieces[..i + 1]) <==> Unreadable(pieces[..i]) || UnmarshalPortRange(pieces[i]).Err?
    ensures Unreadable(pieces[..i + 1]) ==> Unreadable(pieces)
    ensures UnmarshalPortRange(pieces[i]).Ok? ==>
      var interval := UnmarshalPortRange(pieces[i]).value;
      forall p: uint16 :: TextCovers(pieces[..i + 1], p) <==> TextCovers(pieces[..i], p)
                                                              || interval.begin <= p <= interval.end
  {
    var now, next := pieces[..i], pieces[..i + 1];
    assert next == now + [pieces[i]];
    if Unreadable(now) {
      var j :| 0 <= j < |now| && UnmarshalPortRange(now[j]).Err?;
      assert next[j] == now[j];
    }
    assert next[i] == pieces[i];
    if Unreadable(next) {
      var j :| 0 <= j < |next| && UnmarshalPortRange(next[j]).Err?;
      assert pieces[j] == next[j];
      assert j < i ==> now[j] == next[j];
    }
    forall p: uint16 | TextCovers(now, p)
      ensures TextCovers(next, p)
    {
      var j :| 0 <= j < |now| && UnmarshalPortRange(now[j]).Ok?
            && UnmarshalPortRange(now[j]).value.begin <= p <= UnmarshalPortRange(now[j]).value.end;
      assert next[j] == now[j];
    }
  }

  lemma WrittenStep(ports: seq<SecurityPolicyPort>, i: nat, protocol: Protocol)
    requires i < |ports|
    ensures forall p: uint16 :: Written(ports[..i + 1], protocol, p) <==>
      || Written(ports[..i], protocol, p)
      || (ports[i].protocol == protocol && !ports[i].byName && TextCovers(Split(ports[i].portRange, ','), p))
  {
    var now, next := ports[..i], ports[..i + 1];
    assert next == now + [ports[i]];
    assert next[i] == ports[i];
    forall p: uint16 | Written(now, protocol, p)
      ensures Written(next, protocol, p)
    {
      var j :| 0 <= j < |now| && now[j].protocol == protocol && !now[j].byName
               && TextCovers(Split(now[j].portRange, ','), p);
      assert next[j] == now[j];
    }
  }

  /** The packet (protocol number, destination port) is matched by an entry that needs no name. */
  predicate ListCovers(rs: seq<RulePort>, number: nat, p: uint16) {
    exists i :: 0 <= i < |rs| && rs[i].dstPortName == ""
             && ProtocolCovers(rs[i].protocol, number) && PortMatches(rs[i], p)
  }

  predicate ProtocolCovers(protocol: Protocol, number: nat) {
    ProtocolToInt(protocol) == 0 || ProtocolToInt(protocol) == number
  }

  /** An empty name among named ports is no name at all: it matches the whole protocol. */
  predicate EmptyName(ports: seq<SecurityPolicyPort>, number: nat) {
    exists i :: 0 <= i < |ports| && ports[i].byName && ports[i].protocol != ICMP
             && "" in Split(ports[i].portRange, ',') && ProtocolCovers(ports[i].protocol, number)
  }

  /** What the compiled list matches. */
  ghost predicate Intended(ports: seq<SecurityPolicyPort>, number: nat, p: uint16) {
    || ports == []
    || EmptyName(ports, number)
    || (number == 6 && Compiled(WrittenMap(ports, TCP), p))
    || (number == 17 && Compiled(WrittenMap(ports, UDP), p))
    || (number == 1 && HasICMP(ports))
  }

  lemma ListCoversConcat(xs: seq<RulePort>, ys: seq<RulePort>, number: nat, p: uint16)
    ensures ListCovers(xs + ys, number, p) <==> ListCovers(xs, number, p) || ListCovers(ys, number, p)
  {
    var zs := xs + ys;
    forall i | 0 <= i < |xs|
      ensures zs[i] == xs[i]
    {
    }
    forall i | 0 <= i < |ys|
      ensures zs[|xs| + i] == ys[i]
    {
    }
  }

  lemma OneProtocol(rs: seq<RulePort>, protocol: Protocol, number: nat, p: uint16)
    requires protocol != AnyProtocol
    requires forall i :: 0 <= i < |rs| ==> DestinationOnly(rs[i], protocol)
    ensures ListCovers(rs, number, p) <==> number == ProtocolToInt(protocol) && SomeMatches(rs, p)
  {
  }

  lemma NamesCover(names: seq<string>, protocol: Protocol, number: nat, p: uint16)
    ensures ListCovers(NameEntries(names, protocol), number, p) <==> "" in names && ProtocolCovers(protocol, number)
  {
    var rs := NameEntries(names, protocol);
    if "" in names && ProtocolCovers(protocol, number) {
      var i :| 0 <= i < |names| && names[i] == "";
      assert rs[i].dstPortName == "";
    }
  }

  lemma {:induction false} NamedCover(ports: seq<SecurityPolicyPort>, number: nat, p: uint16)
    ensures ListCovers(NamedEntries(ports), number, p) <==> EmptyName(ports, number)
  {
    if ports != [] {
      var last, front := ports[|ports| - 1], ports[..|ports| - 1];
      NamedCover(front, number, p);
      if EmptyName(front, number) {
        var i :| 0 <= i < |front| && front[i].byName && front[i].protocol != ICMP
              && "" in Split(front[i].portRange, ',') && ProtocolCovers(front[i].protocol, number);
        assert ports[i] == front[i];
      }
      var names := Split(last.portRange, ',');
      NamesCover(names, last.protocol, number, p);
      ListCoversConcat(NamedEntries(front), NameEntries(names, last.protocol), number, p);
    }
  }

  /** The four parts of the compiled list match what was written. */
  lemma Assembled(ports: seq<SecurityPolicyPort>, tcp: seq<RulePort>, udp: seq<RulePort>, icmp: seq<RulePort>,
                  number: nat, p: uint16)
    requires ports != []
    requires forall i :: 0 <= i < |tcp| ==> DestinationOnly(tcp[i], TCP)
    requires forall i :: 0 <= i < |udp| ==> DestinationOnly(udp[i], UDP)
    requires SomeMatches(tcp, p) <==> Compiled(WrittenMap(ports, TCP), p)
    requires SomeMatches(udp, p) <==> Compiled(WrittenMap(ports, UDP), p)
    requires icmp == if HasICMP(ports) then [AllPorts.(protocol := ICMP)] else []
    ensures ListCovers(NamedEntries(ports) + tcp + udp + icmp, number, p) <==> Intended(ports, number, p)
  {
    var named := NamedEntries(ports);
    ListCoversConcat(named + tcp + udp, icmp, number, p);
    ListCoversConcat(named + tcp, udp, number, p);
    ListCoversConcat(named, tcp, number, p);
    NamedCover(ports, number, p);
    OneProtocol(tcp, TCP, number, p);
    OneProtocol(udp, UDP, number, p);
    if HasICMP(ports) { assert PortMatches(icmp[0], p); }
    OneProtocol(icmp, ICMP, number, p);
  }

  /** The bitmaps hold exactly the ports written so far. */
  ghost predicate Marked(tcp: array<bool>, udp: array<bool>, ports: seq<SecurityPolicyPort>)
    reads tcp, udp
  {
    tcp[..] == WrittenMap(ports, TCP) && udp[..] == WrittenMap(ports, UDP)
  }

  lemma NamedStep(ports: seq<SecurityPolicyPort>, i: nat)
    requires i < |ports|
    ensures NamedEntries(ports[..i + 1]) == NamedEntries(ports[..i]) +
      if ports[i].protocol == ICMP || !ports[i].byName then []
      else NameEntries(Split(ports[i].portRange, ','), ports[i].protocol)
  {
    assert ports[..i + 1][..i] == ports[..i];
  }

  /** Marking the ports of the i-th entry extends what is marked by that entry. */
  method MarkPort(ports: seq<SecurityPolicyPort>, i: nat, tcp: array<bool>, udp: array<bool>) returns (ok: bool)
    requires i < |ports| && ports[i].protocol != ICMP && !ports[i].byName
    requires tcp != udp && Marked(tcp, udp, ports[..i])
    modifies tcp, udp
    ensures ok <==> !Malformed(ports[i])
    ensures ok ==> Marked(tcp, udp, ports[..i + 1])
  {
    WrittenStep(ports, i, TCP);
    WrittenStep(ports, i, UDP);
    assert tcp.Length == |tcp[..]| && udp.Length == |udp[..]|;
    assert forall p: uint16 :: tcp[p] == tcp[..][p] && udp[p] == udp[..][p];
    ok := MarkPieces(Split(ports[i].portRange, ','), ports[i].protocol, tcp, udp);
  }

  lemma NothingMarked(ports: seq<SecurityPolicyPort>, i: nat, tcp: array<bool>, udp: array<bool>)
    requires i < |ports| && (ports[i].protocol == ICMP || ports[i].byName)
    requires Marked(tcp, udp, ports[..i])
    ensures Marked(tcp, udp, ports[..i + 1])
  {
    WrittenStep(ports, i, TCP);
    WrittenStep(ports, i, UDP);
    assert WrittenMap(ports[..i + 1], TCP) == WrittenMap(ports[..i], TCP)
           && WrittenMap(ports[..i + 1], UDP) == WrittenMap(ports[..i], UDP);
  }

  /** The i-th written port: ICMP is noted, names are kept for later, ranges are marked. */
  method ReadPort(ports: seq<SecurityPolicyPort>, i: nat, tcp: array<bool>, udp: array<bool>, named: seq<RulePort>)
    returns (ok: bool, named': seq<RulePort>)
    requires i < |ports| && tcp != udp && Marked(tcp, udp, ports[..i]) && named == NamedEntries(ports[..i])
    modifies tcp, udp
    ensures ok <==> !Malformed(ports[i])
    ensures ok ==> Marked(tcp, udp, ports[..i + 1]) && named' == NamedEntries(ports[..i + 1])
  {
    NamedStep(ports, i);
    ok, named' := true, named;
    if ports[i].protocol == ICMP {
      // the port text is ignored when the protocol is ICMP
      NothingMarked(ports, i, tcp, udp);
    } else if ports[i].byName {
      NothingMarked(ports, i, tcp, udp);
      named' := named + NameEntries(Split(ports[i].portRange, ','), ports[i].protocol);
    } else {
      ok := MarkPort(ports, i, tcp, udp);
    }
  }

  predicate AllReadable(ports: seq<SecurityPolicyPort>) { forall i :: 0 <= i < |ports| ==> !Malformed(ports[i]) }

  lemma ReadableStep(ports: seq<SecurityPolicyPort>, i: nat)
    requires i < |ports|
    ensures AllReadable(ports[..i + 1]) <==> AllReadable(ports[..i]) && !Malformed(ports[i])
    ensures AllReadable(ports) ==> !Malformed(ports[i])
  {
  }

  lemma ICMPStep(ports: seq<SecurityPolicyPort>, i: nat)
    requires i < |ports|
    ensures HasICMP(ports[..i + 1]) <==> HasICMP(ports[..i]) || ports[i].protocol == ICMP
  {
    assert ports[..i + 1][i] == ports[i];
    assert forall j :: 0 <= j < i ==> ports[..i + 1][j] == ports[..i][j];
  }

  /** The loop of FlattenPorts over the written ports. */
  method ReadPorts(ports: seq<SecurityPolicyPort>, tcp: array<bool>, udp: array<bool>)
    returns (ok: bool, named: seq<RulePort>, hasICMP: bool)
    requires tcp != udp && Marked(tcp, udp, [])
    modifies tcp, udp
    ensures ok <==> AllReadable(ports)
    ensures ok ==> Marked(tcp, udp, ports) && named == NamedEntries(ports) && (hasICMP <==> HasICMP(ports))
  {
    named, hasICMP := [], false;
    for i := 0 to |ports|
      invariant AllReadable(ports[..i]) && named == NamedEntries(ports[..i])
      invariant hasICMP <==> HasICMP(ports[..i])
      invariant Marked(tcp, udp, ports[..i])
    {
      ReadableStep(ports, i);
      ICMPStep(ports, i);
      ok, named := ReadPort(ports, i, tcp, udp, named);
      if !ok {
        return;
      }
      hasICMP := hasICMP || ports[i].protocol == ICMP;
    }
    assert ports[..|ports|] == ports;
    ok := true;
  }

  /** The list matches what was written, and its named entries are the written names. */
  ghost predicate Flattened(ports: seq<SecurityPolicyPort>, rs: seq<RulePort>) {
    && (forall number, p: uint16 :: ListCovers(rs, number, p) <==> Intended(ports, number, p))
    && (forall r :: r in rs ==> r.srcPort == 0)
    && (forall r: RulePort :: r.dstPortName != "" ==> (r in rs <==> r in NamedEntries(ports)))
  }

  lemma NamesOnlyFirst(named: seq<RulePort>, tcp: seq<RulePort>, udp: seq<RulePort>, icmp: seq<RulePort>)
    requires forall i :: 0 <= i < |named| ==> named[i].srcPort == 0
    requires forall i :: 0 <= i < |tcp| ==> DestinationOnly(tcp[i], TCP)
    requires forall i :: 0 <= i < |udp| ==> DestinationOnly(udp[i], UDP)
    requires forall i :: 0 <= i < |icmp| ==> DestinationOnly(icmp[i], ICMP)
    ensures var rs := named + tcp + udp + icmp;
      && (forall r :: r in rs ==> r.srcPort == 0)
      && forall r: RulePort :: r.dstPortName != "" ==> (r in rs <==> r in named)
  {
  }

  /** FlattenPorts. */
  method Flatten(ports: seq<SecurityPolicyPort>) returns (r: Result<seq<RulePort>>)
    ensures r.Err? <==> !AllReadable(ports)
    ensures r.Ok? ==> Flattened(ports, r.value)
  {
    if |ports| == 0 {
      var all := [AllPorts];
      assert forall number, p: uint16 :: ListCovers(all, number, p) by { assert all[0] == AllPorts; }
      return Ok(all);
    }
    var tcp, udp := new bool[Modulus](_ => false), new bool[Modulus](_ => false);
    assert tcp[..] == WrittenMap([], TCP) && udp[..] == WrittenMap([], UDP);
    var ok, named, hasICMP := ReadPorts(ports, tcp, udp);
    if !ok {
      return Err("portrange unavailable");
    }
    var tcpRules := ProcessFlattenPorts(tcp[..], TCP);
    var udpRules := ProcessFlattenPorts(udp[..], UDP);
    var icmpRules := if hasICMP then [AllPorts.(protocol := ICMP)] else [];
    forall number, p: uint16
      ensures ListCovers(named + tcpRules + udpRules + icmpRules, number, p) <==> Intended(ports, number, p)
    {
      Assembled(ports, tcpRules, udpRules, icmpRules, number, p);
    }
    NamesOnlyFirst(named, tcpRules, udpRules, icmpRules);
    r := Ok(named + tcpRules + udpRules + icmpRules);
  }

  /** The datapath rule of a compiled port, before addresses are added. */
  function PortRule(r: RulePort): EveroutePolicyRule {
    EveroutePolicyRule("", 100, "", "", ProtocolToInt(r.protocol), r.srcPort, r.srcPortMask, r.dstPort, r.dstPortMask,
      "allow")
  }

  /** Some compiled rule that needs no name matches the packet. */
  predicate SomeRuleMatches(rs: seq<RulePort>, matchIP: (string, string) -> bool, t: IPTuple) {
    exists i :: 0 <= i < |rs| && rs[i].dstPortName == "" && MatchIPTuple(PortRule(rs[i]), matchIP, t)
  }

  lemma RulesCover(rs: seq<RulePort>, matchIP: (string, string) -> bool, t: IPTuple)
    requires forall i :: 0 <= i < |rs| ==> rs[i].srcPort == 0
    ensures SomeRuleMatches(rs, matchIP, t) <==> ListCovers(rs, t.protocol, t.dstPort)
  {
  }

  /** The rules for the protocol match exactly the packets whose port is written. */
  ghost predicate CompiledExactly(ports: seq<SecurityPolicyPort>, rs: seq<RulePort>, protocol: Protocol) {
    forall matchIP: (string, string) -> bool, t: IPTuple :: t.protocol == ProtocolToInt(protocol) ==>
      (SomeRuleMatches(rs, matchIP, t) <==> Written(ports, protocol, t.dstPort))
  }

  /**
   Port compilation preserves meaning: for number ranges over TCP or UDP the
   compiled rules match a packet iff its destination port is in the union of
   the written ranges, exactly when no range of that protocol includes port 0.
   `rs` is any list that satisfies the contract of Flatten.
   */
  lemma FlattenExactIff(ports: seq<SecurityPolicyPort>, rs: seq<RulePort>, protocol: Protocol)
    requires ports != [] && (forall i :: 0 <= i < |ports| ==> !ports[i].byName)
    requires protocol == TCP || protocol == UDP
    requires Flattened(ports, rs)
    ensures CompiledExactly(ports, rs, protocol) <==> !Written(ports, protocol, 0)
  {
    var portMap, number := WrittenMap(ports, protocol), ProtocolToInt(protocol);
    ExactIffZeroUnmarked(portMap);
    assert forall p: uint16 :: ListCovers(rs, number, p) <==> Compiled(portMap, p);
    assert forall p: uint16 :: portMap[p] <==> Written(ports, protocol, p);
    forall matchIP: (string, string) -> bool, t: IPTuple | t.protocol == number
      ensures SomeRuleMatches(rs, matchIP, t) <==> Compiled(portMap, t.dstPort)
    {
      RulesCover(rs, matchIP, t);
    }
    if CompiledExactly(ports, rs, protocol) {
      forall p: uint16
        ensures Compiled(portMap, p) <==> portMap[p]
      {
        var matchIP, t := (_, _) => true, IPTuple(number, "", "", 0, p);
        assert SomeRuleMatches(rs, matchIP, t) <==> Written(ports, protocol, t.dstPort);
      }
    }
  }
}
