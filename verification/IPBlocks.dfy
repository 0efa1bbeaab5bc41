/**
 Address maps: which agents, static references and named ports stand behind
 each address, and the incremental update applyCountMap.
 */
module IPBlocks {
  import opened Strings
  import opened PortText
  import opened Groups

  /** *IPBlockItem; a nil item stands for "applies everywhere". */
  datatype IPBlockItem = Nil | Item(agentRef: set<string>, staticCount: nat, ports: set<NamedPort>)

  type IPBlockMap = map<string, IPBlockItem>

  const NewItem: IPBlockItem := Item({}, 0, {})

  /** One decimal octet as the IPv4 regular expression has it: d, dd, 1dd, 2[0-4]d or 25[0-5]. */
  predicate IsOctet(s: string) {
    && 1 <= |s| <= 3 && (forall i :: 0 <= i < |s| ==> IsDigit(s[i]))
    && (|s| == 3 ==> s[0] == '1' || (s[0] == '2' && (s[1] <= '4' || (s[1] == '5' && s[2] <= '5'))))
  }

  predicate IsIPv4(ip: string) {
    var octets := Split(ip, '.');
    |octets| == 4 && forall i :: 0 <= i < 4 ==> IsOctet(octets[i])
  }

  function GetIPCidr(ip: string): string {
    if IsIPv4(ip) then ip + "/32" else ip + "/128"
  }

  /** A number from 0 to 255 in one, two or three digits, without a leading zero among three. */
  predicate Octet(s: string) {
    1 <= |s| <= 3 && AllNumerals(s) && PlaceValue(s) <= 255 && (|s| == 3 ==> PlaceValue(s) >= 100)
  }

  predicate Dotted(ip: string, a: string, b: string, c: string, d: string) {
    ip == a + "." + (b + "." + (c + "." + d)) && Octet(a) && Octet(b) && Octet(c) && Octet(d)
  }

  ghost predicate DottedQuad(ip: string) { exists a, b, c, d :: Dotted(ip, a, b, c, d) }

  lemma OctetIff(s: string)
    ensures IsOctet(s) <==> Octet(s)
  {
    if 1 <= |s| <= 3 && AllNumerals(s) { PlaceValueOfThree(s); }
  }

  lemma PlaceValueOfThree(s: string)
    requires 1 <= |s| <= 3 && AllNumerals(s)
    ensures |s| == 1 ==> PlaceValue(s) == DigitValue(s[0])
    ensures |s| == 2 ==> PlaceValue(s) == 10 * DigitValue(s[0]) + DigitValue(s[1])
    ensures |s| == 3 ==> PlaceValue(s) == 100 * DigitValue(s[0]) + 10 * DigitValue(s[1]) + DigitValue(s[2])
  {
    var rest := s[1..];
    assert Pow10(0) == 1 && Pow10(1) == 10 && Pow10(2) == 100;
    if |s| > 1 {
      assert AllNumerals(rest) && rest[0] == s[1];
      PlaceValueOfThree(rest);
    } else {
      assert rest == "";
    }
  }

  lemma NoDot(s: string)
    requires AllNumerals(s)
    ensures '.' !in s
  {
  }

  lemma SplitDotted(ip: string, a: string, b: string, c: string, d: string)
    requires Dotted(ip, a, b, c, d)
    ensures Split(ip, '.') == [a, b, c, d]
  {
    NoDot(a);
    NoDot(b);
    NoDot(c);
    NoDot(d);
    SplitFour(a, b, c, d, '.');
  }

  /** The IPv4 regular expression matches dotted quads. */
  lemma IPv4Iff(ip: string)
    ensures IsIPv4(ip) <==> DottedQuad(ip)
  {
    if IsIPv4(ip) {
      var o := Split(ip, '.');
      OctetIff(o[0]);
      OctetIff(o[1]);
      OctetIff(o[2]);
      OctetIff(o[3]);
      JoinSplit(ip, '.');
      JoinFour(o);
      assert Dotted(ip, o[0], o[1], o[2], o[3]);
    }
    if a, b, c, d :| Dotted(ip, a, b, c, d) {
      SplitDotted(ip, a, b, c, d);
      OctetIff(a);
      OctetIff(b);
      OctetIff(c);
      OctetIff(d);
    }
  }

  lemma JoinFour(o: seq<string>)
    requires |o| == 4
    ensures Join(o, ".") == o[0] + "." + (o[1] + "." + (o[2] + "." + o[3]))
  {
    assert o[1..][1..] == o[2..] && o[2..][1..] == o[3..];
    assert Join(o[3..], ".") == o[3];
    assert Join(o[2..], ".") == o[2] + "." + Join(o[3..], ".");
    assert Join(o[1..], ".") == o[1] + "." + Join(o[2..], ".");
  }

  /** A dotted quad is one address out of 32 bits, and everything else one out of 128. */
  ghost predicate IsAddressOf(cidr: string, ip: string) { cidr == ip + if DottedQuad(ip) then "/32" else "/128" }

  lemma CidrIs(cidr: string, ip: string)
    ensures cidr == GetIPCidr(ip) <==> IsAddressOf(cidr, ip)
  {
    IPv4Iff(ip);
  }

  /** Distinct addresses have distinct CIDRs. */
  lemma CidrInjective(ip: string, ip': string)
    requires GetIPCidr(ip) == GetIPCidr(ip')
    ensures ip == ip'
  {
    var c := GetIPCidr(ip);
    assert c[|c| - 1] == '2' || c[|c| - 1] == '8';
    assert c[..|ip|] == ip && c[..|ip'|] == ip';
  }

  /** Two contributions to the same address. */
  function Combine(x: IPBlockItem, y: IPBlockItem): IPBlockItem
    requires x.Item? && y.Item?
  {
    Item(x.agentRef + y.agentRef, x.staticCount + y.staticCount, x.ports + y.ports)
  }

  ghost predicate NoNil(m: IPBlockMap) { forall ip :: ip in m ==> m[ip].Item? }

  /** Address-wise combination of two maps. */
  function Merge(x: IPBlockMap, y: IPBlockMap): (r: IPBlockMap)
    requires NoNil(x) && NoNil(y)
    ensures NoNil(r) && r.Keys == x.Keys + y.Keys
  {
    map ip | ip in x.Keys + y.Keys ::
      if ip !in y then x[ip] else if ip !in x then y[ip] else Combine(x[ip], y[ip])
  }

  /** count[ip] after the deletion loop; the counts never go below zero. */
  function Subtract(x: IPBlockItem, del: IPBlockItem): IPBlockItem
    requires x.Item?
  {
    if del.Nil? then x
    else
      Item(x.agentRef - del.agentRef,
           if x.staticCount > del.staticCount then x.staticCount - del.staticCount else 0, x.ports)
  }

  predicate IsSpent(x: IPBlockItem) { x.Item? && x.staticCount == 0 && x.agentRef == {} }

  /** The deletion loop of applyCountMap. */
  function Deleted(count: IPBlockMap, deled: IPBlockMap): (r: IPBlockMap)
    requires NoNil(count)
    ensures NoNil(r)
  {
    map ip | ip in count && (ip in deled ==> !IsSpent(Subtract(count[ip], deled[ip]))) ::
      if ip in deled then Subtract(count[ip], deled[ip]) else count[ip]
  }

  function Plus(x: IPBlockItem, add: IPBlockItem): IPBlockItem
    requires x.Item?
  {
    if add.Nil? then x else Combine(x, add)
  }

  /** The insertion loop of applyCountMap. */
  function Added(count: IPBlockMap, added: IPBlockMap): (r: IPBlockMap)
    requires NoNil(count)
    ensures NoNil(r)
  {
    map ip | ip in count.Keys + added.Keys ::
      if ip !in added then count[ip] else Plus(if ip in count then count[ip] else NewItem, added[ip])
  }

  function ApplyCount(count: IPBlockMap, added: IPBlockMap, deled: IPBlockMap): (r: IPBlockMap)
    requires NoNil(count)
  {
    Added(Deleted(count, deled), added)
  }

  function Restrict(m: IPBlockMap, keys: set<string>): IPBlockMap { map k | k in m && k in keys :: m[k] }

  /** applyCountMap: the two loops over the maps, in any order. */
  method ApplyCountMap(count: IPBlockMap, added: IPBlockMap, deled: IPBlockMap) returns (result: IPBlockMap)
    requires NoNil(count)
    ensures result == ApplyCount(count, added, deled)
  {
    result := DeleteLoop(count, deled);
    result := AddLoop(result, added);
  }

  lemma DeleteOne(count: IPBlockMap, deled: IPBlockMap, done: set<string>, ip: string)
    requires NoNil(count) && ip in deled && ip !in done
    ensures var now := Deleted(count, Restrict(deled, done));
      Deleted(count, Restrict(deled, done + {ip})) ==
        if ip !in now then now
        else if IsSpent(Subtract(now[ip], deled[ip])) then now - {ip}
        else now[ip := Subtract(now[ip], deled[ip])]
  {
  }

  method DeleteLoop(count: IPBlockMap, deled: IPBlockMap) returns (result: IPBlockMap)
    requires NoNil(count)
    ensures result == Deleted(count, deled)
  {
    result := count;
    var todo := deled.Keys;
    while todo != {}
      invariant todo <= deled.Keys && NoNil(result)
      invariant result == Deleted(count, Restrict(deled, deled.Keys - todo))
      decreases todo
    {
      var ip :| ip in todo;
      DeleteOne(count, deled, deled.Keys - todo, ip);
      assert deled.Keys - (todo - {ip}) == (deled.Keys - todo) + {ip};
      todo := todo - {ip};
      if ip !in result {
        continue;
      }
      result := result[ip := Subtract(result[ip], deled[ip])];
      if result[ip].staticCount == 0 && result[ip].agentRef == {} {
        result := result - {ip};
      }
    }
    assert Restrict(deled, deled.Keys) == deled;
  }

  lemma AddOne(count: IPBlockMap, added: IPBlockMap, done: set<string>, ip: string)
    requires NoNil(count) && ip in added && ip !in done
    ensures var now := Added(count, Restrict(added, done));
      Added(count, Restrict(added, done + {ip})) == now[ip := Plus(if ip in now then now[ip] else NewItem, added[ip])]
  {
  }

  method AddLoop(count: IPBlockMap, added: IPBlockMap) returns (result: IPBlockMap)
    requires NoNil(count)
    ensures result == Added(count, added)
  {
    result := count;
    var todo := added.Keys;
    while todo != {}
      invariant todo <= added.Keys && NoNil(result)
      invariant result == Added(count, Restrict(added, added.Keys - todo))
      decreases todo
    {
      var ip :| ip in todo;
      AddOne(count, added, added.Keys - todo, ip);
      assert added.Keys - (todo - {ip}) == (added.Keys - todo) + {ip};
      todo := todo - {ip};
      result := result[ip := Plus(if ip in result then result[ip] else NewItem, added[ip])];
    }
    assert Restrict(added, added.Keys) == added;
  }

  /**
   When an address loses the contribution d, keeps k and gains a: the update
   gives k and a together iff k's agents and ports survive the subtraction of d.
   */
  predicate Clean(kept: IPBlockMap, deled: IPBlockMap, added: IPBlockMap, ip: string)
    requires NoNil(kept) && NoNil(deled) && NoNil(added)
  {
    ip in kept && ip in deled ==>
      var k, d := kept[ip], deled[ip];
      var a := if ip in added then added[ip] else NewItem;
      if k.staticCount == 0 && k.agentRef <= d.agentRef
      then ip in added && k.agentRef <= a.agentRef && k.ports <= a.ports
      else k.agentRef * d.agentRef <= a.agentRef && d.ports <= k.ports + a.ports
  }

  /** Group contributions never count static references. */
  ghost predicate NoStatic(m: IPBlockMap) { NoNil(m) && forall ip :: ip in m ==> m[ip].staticCount == 0 }

  lemma SurvivingElements<T>(k: set<T>, d: set<T>, a: set<T>)
    ensures (k + d) - d == k - d
    ensures (k - d) + a == k + a <==> k * d <= a
  {
  }

  lemma AbsorbedElements<T>(k: set<T>, d: set<T>, a: set<T>)
    ensures (k + d) + a == k + a <==> d <= k + a
    ensures a == k + a <==> k <= a
  {
  }

  /** ApplyCount at one address, in terms of what is kept, lost and gained there. */
  lemma ApplyCountItem(kept: IPBlockMap, deled: IPBlockMap, added: IPBlockMap, ip: string)
    requires NoNil(kept) && NoNil(deled) && NoNil(added)
    requires ip in kept && ip in deled
    ensures var r := ApplyCount(Merge(kept, deled), added, deled);
      var k, d := kept[ip], deled[ip];
      var a := if ip in added then added[ip] else NewItem;
      if k.staticCount == 0 && k.agentRef <= d.agentRef
      then (ip in r <==> ip in added) && (ip in r ==> r[ip] == a)
      else ip in r && r[ip] == Item((k.agentRef - d.agentRef) + a.agentRef, k.staticCount + a.staticCount,
        (k.ports + d.ports) + a.ports)
  {
    var k, d := kept[ip], deled[ip];
    var x := Merge(kept, deled)[ip];
    SurvivingElements(k.agentRef, d.agentRef, {});
    assert Subtract(x, d) == Item(k.agentRef - d.agentRef, k.staticCount, k.ports + d.ports);
    assert k.agentRef - d.agentRef == {} <==> k.agentRef <= d.agentRef by {
      if k.agentRef - d.agentRef == {} { assert forall y :: y in k.agentRef ==>
                                                            y in d.agentRef || y in k.agentRef - d.agentRef; }
    }
  }

  predicate SameAt(m: IPBlockMap, m': IPBlockMap, ip: string) {
    (ip in m <==> ip in m') && (ip in m ==> m[ip] == m'[ip])
  }

  lemma ApplyCountAt(kept: IPBlockMap, deled: IPBlockMap, added: IPBlockMap, ip: string)
    requires NoNil(kept) && NoNil(deled) && NoNil(added)
    ensures Clean(kept, deled, added, ip)
       <==> SameAt(ApplyCount(Merge(kept, deled), added, deled), Merge(kept, added), ip)
  {
    if ip in kept && ip in deled {
      ApplyCountItem(kept, deled, added, ip);
      var k, d := kept[ip], deled[ip];
      var a := if ip in added then added[ip] else NewItem;
      SurvivingElements(k.agentRef, d.agentRef, a.agentRef);
      AbsorbedElements(k.agentRef, d.agentRef, a.agentRef);
      AbsorbedElements(k.ports, d.ports, a.ports);
    } else {
      ApplyCountUnshared(kept, deled, added, ip);
    }
  }

  lemma ApplyCountUnshared(kept: IPBlockMap, deled: IPBlockMap, added: IPBlockMap, ip: string)
    requires NoNil(kept) && NoNil(deled) && NoNil(added)
    requires ip !in kept || ip !in deled
    ensures SameAt(ApplyCount(Merge(kept, deled), added, deled), Merge(kept, added), ip)
  {
    var before := Merge(kept, deled);
    var left := Deleted(before, deled);
    if ip in deled {
      assert before[ip] == deled[ip] && IsSpent(Subtract(deled[ip], deled[ip]));
      assert ip !in left;
    } else {
      assert ip in kept <==> ip in left;
      assert ip in kept ==> left[ip] == kept[ip];
    }
    if ip in added { CombineNew(added[ip]); }
  }

  lemma CombineNew(x: IPBlockItem)
    requires x.Item?
    ensures Combine(NewItem, x) == x
  {
  }

  /** The incremental update equals the recomputation iff every address is clean. */
  lemma ApplyCountExactIff(kept: IPBlockMap, deled: IPBlockMap, added: IPBlockMap)
    requires NoNil(kept) && NoNil(deled) && NoNil(added)
    ensures ApplyCount(Merge(kept, deled), added, deled) == Merge(kept, added)
       <==> forall ip :: ip in kept ==> Clean(kept, deled, added, ip)
  {
    var r, want := ApplyCount(Merge(kept, deled), added, deled), Merge(kept, added);
    forall ip: string
      ensures Clean(kept, deled, added, ip) <==> SameAt(r, want, ip)
    {
      ApplyCountAt(kept, deled, added, ip);
    }
    SameEverywhere(r, want);
  }

  lemma SameEverywhere(m: IPBlockMap, m': IPBlockMap)
    ensures m == m' <==> forall ip: string :: SameAt(m, m', ip)
  {
    if forall ip: string :: SameAt(m, m', ip) {
      assert forall ip :: ip in m.Keys <==> ip in m'.Keys by {
        forall ip: string ensures ip in m.Keys <==> ip in m'.Keys { assert SameAt(m, m', ip); }
      }
      forall ip | ip in m
        ensures m[ip] == m'[ip]
      {
        assert SameAt(m, m', ip);
      }
    }
  }

  lemma MergeAssociative(x: IPBlockMap, y: IPBlockMap, z: IPBlockMap)
    requires NoNil(x) && NoNil(y) && NoNil(z)
    ensures Merge(Merge(x, y), z) == Merge(x, Merge(y, z))
  {
    var l, r := Merge(Merge(x, y), z), Merge(x, Merge(y, z));
    assert l.Keys == r.Keys;
    forall ip | ip in l
      ensures l[ip] == r[ip]
    {
      if ip in x && ip in y && ip in z { CombineAssociative(x[ip], y[ip], z[ip]); }
    }
  }

  lemma CombineAssociative(x: IPBlockItem, y: IPBlockItem, z: IPBlockItem)
    requires x.Item? && y.Item? && z.Item?
    ensures Combine(Combine(x, y), z) == Combine(x, Combine(y, z))
  {
  }

  lemma MergeEmpty(x: IPBlockMap)
    requires NoNil(x)
    ensures Merge(x, map[]) == x && Merge(map[], x) == x
  {
  }
}
