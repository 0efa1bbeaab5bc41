/**
 Flattening a membership to addresses, and flattening a patch to the addresses
 it adds and deletes.
 */
module GroupBlocks {
  import opened Groups
  import opened IPBlocks

  function Cidrs(m: GroupMember): set<string> { set ip | ip in m.ips :: GetIPCidr(ip) }

  function AllCidrs(ms: set<GroupMember>): set<string> { set m, c | m in ms && c in Cidrs(m) :: c }

  function AgentsAt(ms: set<GroupMember>, c: string): set<string> {
    set m, a | m in ms && c in Cidrs(m) && a in m.agents :: a
  }

  function PortsAt(ms: set<GroupMember>, c: string): set<NamedPort> {
    set m, p | m in ms && c in Cidrs(m) && p in m.ports :: p
  }

  /** The addresses of some members, each with the agents and ports behind it. */
  function Flatten(ms: set<GroupMember>): (r: IPBlockMap)
    ensures NoStatic(r)
  {
    map c | c in AllCidrs(ms) :: Item(AgentsAt(ms, c), 0, PortsAt(ms, c))
  }

  lemma UnionParts(xs: set<GroupMember>, ys: set<GroupMember>, c: string)
    ensures AgentsAt(xs + ys, c) == AgentsAt(xs, c) + AgentsAt(ys, c)
    ensures PortsAt(xs + ys, c) == PortsAt(xs, c) + PortsAt(ys, c)
    ensures c in AllCidrs(xs + ys) <==> c in AllCidrs(xs) || c in AllCidrs(ys)
  {
  }

  lemma AbsentParts(ms: set<GroupMember>, c: string)
    requires c !in AllCidrs(ms)
    ensures AgentsAt(ms, c) == {} && PortsAt(ms, c) == {}
  {
  }

  lemma FlattenUnionAt(xs: set<GroupMember>, ys: set<GroupMember>, c: string)
    ensures SameAt(Flatten(xs + ys), Merge(Flatten(xs), Flatten(ys)), c)
  {
    UnionParts(xs, ys, c);
    if c !in AllCidrs(xs) { AbsentParts(xs, c); }
    if c !in AllCidrs(ys) { AbsentParts(ys, c); }
  }

  /** Flattening a union merges the flattened parts. */
  lemma FlattenUnion(xs: set<GroupMember>, ys: set<GroupMember>)
    ensures Flatten(xs + ys) == Merge(Flatten(xs), Flatten(ys))
  {
    forall c: string
      ensures SameAt(Flatten(xs + ys), Merge(Flatten(xs), Flatten(ys)), c)
    {
      FlattenUnionAt(xs, ys, c);
    }
    SameEverywhere(Flatten(xs + ys), Merge(Flatten(xs), Flatten(ys)));
  }

  lemma SameMemberParts(m: GroupMember, m': GroupMember)
    requires SameMember(m, m')
    ensures Cidrs(m) == Cidrs(m') && Elements(m.agents) == Elements(m'.agents)
  {
    assert forall ip :: ip in m.ips <==> ip in Elements(m.ips);
    assert forall ip :: ip in m'.ips <==> ip in Elements(m'.ips);
    assert forall x :: x in m.agents <==> x in multiset(m.agents);
    assert forall x :: x in m'.agents <==> x in multiset(m'.agents);
  }

  lemma AgreeParts(m: Membership, m': Membership, c: string)
    requires Agree(m, m')
    ensures c in AllCidrs(m.Values) ==> c in AllCidrs(m'.Values)
    ensures AgentsAt(m.Values, c) <= AgentsAt(m'.Values, c)
  {
    forall x | x in m.Values && c in Cidrs(x)
      ensures c in AllCidrs(m'.Values) && forall a :: a in x.agents ==> a in AgentsAt(m'.Values, c)
    {
      var r :| r in m && m[r] == x;
      SameMemberParts(m[r], m'[r]);
      assert m'[r] in m'.Values;
      assert forall a :: a in x.agents <==> a in Elements(x.agents);
    }
  }

  /** Memberships that the diff does not tell apart flatten to the same addresses with the same agents. */
  lemma AgreeFlattens(m: Membership, m': Membership)
    requires Agree(m, m')
    ensures Flatten(m.Values).Keys == Flatten(m'.Values).Keys
    ensures forall c :: c in Flatten(m.Values) ==> Flatten(m.Values)[c].agentRef == Flatten(m'.Values)[c].agentRef
  {
    AgreeSymmetric(m, m');
    forall c: string
      ensures c in AllCidrs(m.Values) <==> c in AllCidrs(m'.Values)
      ensures AgentsAt(m.Values, c) == AgentsAt(m'.Values, c)
    {
      AgreeParts(m, m', c);
      AgreeParts(m', m, c);
    }
  }

  /** Equal addresses, agents and ports, whatever their order. */
  predicate SameContent(m: GroupMember, m': GroupMember) {
    Elements(m.ips) == Elements(m'.ips) && Elements(m.agents) == Elements(m'.agents)
    && Elements(m.ports) == Elements(m'.ports)
  }

  ghost predicate Matched(m: GroupMember, ms: set<GroupMember>) {
    exists m' :: m' in ms && SameContent(m, m')
  }

  /** Every member of one set has a counterpart with the same content in the other. */
  ghost predicate Covers(ms: set<GroupMember>, ms': set<GroupMember>) {
    forall m :: m in ms ==> Matched(m, ms')
  }

  lemma SameContentCidrs(m: GroupMember, m': GroupMember)
    requires SameContent(m, m')
    ensures Cidrs(m) == Cidrs(m')
  {
    assert forall ip :: ip in m.ips <==> ip in Elements(m.ips);
    assert forall ip :: ip in m'.ips <==> ip in Elements(m'.ips);
  }

  lemma CoveredMember(m: GroupMember, ms: set<GroupMember>, c: string)
    requires Matched(m, ms) && c in Cidrs(m)
    ensures c in AllCidrs(ms)
    ensures Elements(m.agents) <= AgentsAt(ms, c) && Elements(m.ports) <= PortsAt(ms, c)
  {
    var m' :| m' in ms && SameContent(m, m');
    SameContentCidrs(m, m');
    assert forall a :: a in Elements(m'.agents) ==> a in m'.agents;
    assert forall p :: p in Elements(m'.ports) ==> p in m'.ports;
  }

  lemma CoveredParts(ms: set<GroupMember>, ms': set<GroupMember>, c: string)
    requires Covers(ms, ms')
    ensures AgentsAt(ms, c) <= AgentsAt(ms', c) && PortsAt(ms, c) <= PortsAt(ms', c)
    ensures c in AllCidrs(ms) ==> c in AllCidrs(ms')
  {
    forall m | m in ms && c in Cidrs(m)
      ensures c in AllCidrs(ms') && Elements(m.agents) <= AgentsAt(ms', c) && Elements(m.ports) <= PortsAt(ms', c)
    {
      CoveredMember(m, ms', c);
    }
    assert forall a :: a in AgentsAt(ms, c) ==> exists m :: m in ms && c in Cidrs(m) && a in Elements(m.agents);
    assert forall p :: p in PortsAt(ms, c) ==> exists m :: m in ms && c in Cidrs(m) && p in Elements(m.ports);
  }

  lemma SameParts(ms: set<GroupMember>, ms': set<GroupMember>, c: string)
    requires AgentsAt(ms, c) == AgentsAt(ms', c) && PortsAt(ms, c) == PortsAt(ms', c)
    requires (c in AllCidrs(ms) <==> c in AllCidrs(ms'))
    ensures SameAt(Flatten(ms), Flatten(ms'), c)
  {
  }

  lemma SameContentAt(ms: set<GroupMember>, ms': set<GroupMember>, c: string)
    requires Covers(ms, ms') && Covers(ms', ms)
    ensures SameAt(Flatten(ms), Flatten(ms'), c)
  {
    CoveredParts(ms, ms', c);
    CoveredParts(ms', ms, c);
    SameParts(ms, ms', c);
  }

  lemma FlattenSameContent(ms: set<GroupMember>, ms': set<GroupMember>)
    requires Covers(ms, ms') && Covers(ms', ms)
    ensures Flatten(ms) == Flatten(ms')
  {
    forall c: string
      ensures SameAt(Flatten(ms), Flatten(ms'), c)
    {
      SameContentAt(ms, ms', c);
    }
    SameEverywhere(Flatten(ms), Flatten(ms'));
  }

  /** The stored members that the updated ones replace. */
  function Replaced(m: Membership, updated: seq<GroupMember>): set<GroupMember> {
    set u | u in updated && u.ref in m :: m[u.ref]
  }

  /** GroupPatch.Add and GroupPatch.Del of NextPatch. */
  function AddBlocks(p: GroupMembersPatch): (r: IPBlockMap)
    ensures NoStatic(r)
  {
    Flatten(Elements(p.added) + Elements(p.updated))
  }

  function DelBlocks(m: Membership, p: GroupMembersPatch): (r: IPBlockMap)
    ensures NoStatic(r)
  {
    Flatten(Replaced(m, p.updated) + Elements(p.removed))
  }

  /** The members that the patch does not touch. */
  function Kept(m: Membership, p: GroupMembersPatch): set<GroupMember> {
    set r | r in m && r !in References(p.updated) && r !in References(p.removed) :: m[r]
  }

  /** A patch made for this membership: references listed once, added ones new, removed ones as stored. */
  predicate Fits(m: Membership, p: GroupMembersPatch) {
    && DistinctReferences(p.added + p.updated + p.removed)
    && (forall i :: 0 <= i < |p.added| ==> p.added[i].ref !in m)
    && (forall i :: 0 <= i < |p.removed| ==> p.removed[i].ref in m && SameContent(p.removed[i], m[p.removed[i].ref]))
  }

  function Gone(m: Membership, p: GroupMembersPatch): set<GroupMember> {
    set r | r in m && r in References(p.removed) :: m[r]
  }

  lemma RemovedAsStored(m: Membership, p: GroupMembersPatch)
    requires Fits(m, p)
    ensures Flatten(Replaced(m, p.updated) + Gone(m, p)) == DelBlocks(m, p)
  {
    var stored, listed := Gone(m, p), Elements(p.removed);
    forall g | g in stored
      ensures Matched(g, listed)
    {
      var i :| 0 <= i < |p.removed| && p.removed[i].ref in m && m[p.removed[i].ref] == g;
      assert p.removed[i] in listed && SameContent(g, p.removed[i]);
    }
    forall g | g in listed
      ensures Matched(g, stored)
    {
      var i :| 0 <= i < |p.removed| && p.removed[i] == g;
      assert g.ref in References(p.removed);
      assert m[g.ref] in stored;
    }
    FlattenSameContent(stored, listed);
    FlattenUnion(Replaced(m, p.updated), stored);
    FlattenUnion(Replaced(m, p.updated), listed);
  }

  /** Before the patch: what is kept and what the patch deletes. */
  lemma SplitBefore(m: Membership, p: GroupMembersPatch)
    requires Fits(m, p)
    ensures Flatten(m.Values) == Merge(Flatten(Kept(m, p)), DelBlocks(m, p))
  {
    var replaced := Replaced(m, p.updated);
    RemovedAsStored(m, p);
    FlattenUnion(Kept(m, p), replaced + Gone(m, p));
    forall x | x in m.Values
      ensures x in Kept(m, p) + (replaced + Gone(m, p))
    {
      var r :| r in m && m[r] == x;
      if r in References(p.updated) {
        var i :| 0 <= i < |p.updated| && p.updated[i].ref == r;
        assert p.updated[i] in p.updated;
      }
    }
    assert m.Values == Kept(m, p) + (replaced + Gone(m, p));
  }

  lemma ValueFrom(m: Membership, p: GroupMembersPatch, r: EndpointReference)
    requires Fits(m, p) && r in ApplyPatch(m, p)
    ensures ApplyPatch(m, p)[r] in Kept(m, p) + (Elements(p.added) + Elements(p.updated))
  {
    ByReferenceKeys(p.added); ByReferenceKeys(p.updated); ByReferenceKeys(p.removed);
    if r in ByReference(p.updated) { ByReferenceFrom(p.updated, r); }
    else if r in ByReference(p.added) { ByReferenceFrom(p.added, r); }
  }

  lemma KeptStays(m: Membership, p: GroupMembersPatch, r: EndpointReference)
    requires Fits(m, p) && r in m && r !in References(p.updated) && r !in References(p.removed)
    ensures r in ApplyPatch(m, p) && ApplyPatch(m, p)[r] == m[r]
  {
    ByReferenceKeys(p.added); ByReferenceKeys(p.updated); ByReferenceKeys(p.removed);
  }

  lemma AddedArrives(m: Membership, p: GroupMembersPatch, i: nat)
    requires Fits(m, p) && i < |p.added|
    ensures p.added[i].ref in ApplyPatch(m, p) && ApplyPatch(m, p)[p.added[i].ref] == p.added[i]
  {
    PartsDistinct(p);
    ByReferenceKeys(p.added); ByReferenceKeys(p.updated); ByReferenceKeys(p.removed);
    ByReferenceAt(p.added, i);
    AddedSurvives(p, i);
  }

  lemma UpdatedArrives(m: Membership, p: GroupMembersPatch, i: nat)
    requires Fits(m, p) && i < |p.updated|
    ensures p.updated[i].ref in ApplyPatch(m, p) && ApplyPatch(m, p)[p.updated[i].ref] == p.updated[i]
  {
    PartsDistinct(p);
    ByReferenceKeys(p.added); ByReferenceKeys(p.updated); ByReferenceKeys(p.removed);
    ByReferenceAt(p.updated, i);
    UpdatedSurvives(p, i);
  }

  lemma ValuesAfter(m: Membership, p: GroupMembersPatch)
    requires Fits(m, p)
    ensures ApplyPatch(m, p).Values == Kept(m, p) + (Elements(p.added) + Elements(p.updated))
  {
    var after := ApplyPatch(m, p);
    forall x | x in after.Values
      ensures x in Kept(m, p) + (Elements(p.added) + Elements(p.updated))
    {
      var r :| r in after && after[r] == x;
      ValueFrom(m, p, r);
    }
    forall x | x in Kept(m, p) + (Elements(p.added) + Elements(p.updated))
      ensures x in after.Values
    {
      if x in p.added {
        var i :| 0 <= i < |p.added| && p.added[i] == x;
        AddedArrives(m, p, i);
      } else if x in p.updated {
        var i :| 0 <= i < |p.updated| && p.updated[i] == x;
        UpdatedArrives(m, p, i);
      } else {
        var r :| r in m && r !in References(p.updated) && r !in References(p.removed) && m[r] == x;
        KeptStays(m, p, r);
      }
    }
  }

  lemma PartsDistinct(p: GroupMembersPatch)
    requires DistinctReferences(p.added + p.updated + p.removed)
    ensures DistinctReferences(p.added) && DistinctReferences(p.updated) && DistinctReferences(p.removed)
  {
    var all := p.added + p.updated + p.removed;
    assert forall i :: 0 <= i < |p.added| ==> all[i] == p.added[i];
    assert forall i :: 0 <= i < |p.updated| ==> all[|p.added| + i] == p.updated[i];
    assert forall i :: 0 <= i < |p.removed| ==> all[|p.added| + |p.updated| + i] == p.removed[i];
  }

  lemma AddedSurvives(p: GroupMembersPatch, i: nat)
    requires DistinctReferences(p.added + p.updated + p.removed) && i < |p.added|
    ensures p.added[i].ref !in References(p.updated) && p.added[i].ref !in References(p.removed)
  {
    var all := p.added + p.updated + p.removed;
    assert all[i] == p.added[i];
    assert forall j :: 0 <= j < |p.updated| ==> all[|p.added| + j] == p.updated[j];
    assert forall j :: 0 <= j < |p.removed| ==> all[|p.added| + |p.updated| + j] == p.removed[j];
  }

  lemma UpdatedSurvives(p: GroupMembersPatch, i: nat)
    requires DistinctReferences(p.added + p.updated + p.removed) && i < |p.updated|
    ensures p.updated[i].ref !in References(p.removed)
  {
    var all := p.added + p.updated + p.removed;
    assert all[|p.added| + i] == p.updated[i];
    assert forall j :: 0 <= j < |p.removed| ==> all[|p.added| + |p.updated| + j] == p.removed[j];
  }

  /** After the patch: what is kept and what the patch adds. */
  lemma SplitAfter(m: Membership, p: GroupMembersPatch)
    requires Fits(m, p)
    ensures Flatten(ApplyPatch(m, p).Values) == Merge(Flatten(Kept(m, p)), AddBlocks(p))
  {
    ValuesAfter(m, p);
    FlattenUnion(Kept(m, p), Elements(p.added) + Elements(p.updated));
  }

  /**
   Flattening commutes with patching iff at every address that an untouched
   member shares with a deleted one, the subtraction leaves the untouched
   member's agents and ports in place.
   */
  lemma FlattenCommutesIff(m: Membership, p: GroupMembersPatch)
    requires Fits(m, p)
    ensures ApplyCount(Flatten(m.Values), AddBlocks(p), DelBlocks(m, p)) == Flatten(ApplyPatch(m, p).Values)
       <==> forall c :: c in Flatten(Kept(m, p)) ==> Clean(Flatten(Kept(m, p)), DelBlocks(m, p), AddBlocks(p), c)
  {
    SplitBefore(m, p);
    SplitAfter(m, p);
    ApplyCountExactIff(Flatten(Kept(m, p)), DelBlocks(m, p), AddBlocks(p));
  }

  /** No address belongs to two members. */
  predicate Unshared(m: Membership) {
    forall r, r' :: r in m && r' in m && r != r' ==> Cidrs(m[r]) !! Cidrs(m[r'])
  }

  /** In particular it commutes when no address is shared, even if one moves between members. */
  lemma FlattenCommutes(m: Membership, p: GroupMembersPatch)
    requires Fits(m, p) && Unshared(m)
    ensures ApplyCount(Flatten(m.Values), AddBlocks(p), DelBlocks(m, p)) == Flatten(ApplyPatch(m, p).Values)
  {
    RemovedAsStored(m, p);
    forall c | c in AllCidrs(Kept(m, p))
      ensures c !in AllCidrs(Replaced(m, p.updated) + Gone(m, p))
    {
      KeptApart(m, p, c);
    }
    FlattenCommutesIff(m, p);
  }

  lemma KeptApart(m: Membership, p: GroupMembersPatch, c: string)
    requires Unshared(m) && c in AllCidrs(Kept(m, p))
    ensures c !in AllCidrs(Replaced(m, p.updated) + Gone(m, p))
  {
  }

  lemma OneLeaves(m: Membership, p: GroupMembersPatch, x: GroupMember, y: GroupMember)
    requires x.ref != y.ref && m == map[x.ref := x, y.ref := y] && p == GroupMembersPatch([], [], [y])
    ensures Fits(m, p) && Kept(m, p) == {x} && DelBlocks(m, p) == Flatten({y})
  {
    assert p.added + p.updated + p.removed == [y];
    forall r
      ensures r in References(p.removed) <==> r == y.ref
    {
      assert p.removed[0] == y;
    }
    assert x.ref !in References(p.updated) && m[x.ref] == x;
    assert Kept(m, p) == {x} by {
      assert forall z :: z in Kept(m, p) ==> z == x;
      assert x in Kept(m, p);
    }
    assert forall z :: z in Elements(p.removed) <==> z == y;
    assert Replaced(m, p.updated) + Elements(p.removed) == {y};
  }

  /** A member called `name` at 10.0.0.1 on agent "a". */
  function Neighbour(name: string): GroupMember { GroupMember(EndpointReference("id", name), ["a"], ["10.0.0.1"], []) }

  /** Two members share an address and an agent, and one of them leaves: the update loses the address of the other. */
  lemma SharedAddressExample(m: Membership, p: GroupMembersPatch)
    requires m == map[Neighbour("x").ref := Neighbour("x"), Neighbour("y").ref := Neighbour("y")]
    requires p == GroupMembersPatch([], [], [Neighbour("y")])
    ensures Fits(m, p)
    ensures ApplyCount(Flatten(m.Values), AddBlocks(p), DelBlocks(m, p)) != Flatten(ApplyPatch(m, p).Values)
  {
    var x, y, c := Neighbour("x"), Neighbour("y"), GetIPCidr("10.0.0.1");
    assert x.ref != y.ref by { assert "x"[0] != "y"[0]; }
    OneLeaves(m, p, x, y);
    assert "10.0.0.1" in x.ips && "10.0.0.1" in y.ips;
    LoneItem(x, c);
    LoneItem(y, c);
    NotAdded(p, c);
    assert !Clean(Flatten({x}), Flatten({y}), AddBlocks(p), c);
    FlattenCommutesIff(m, p);
  }

  lemma LoneItem(m: GroupMember, c: string)
    requires c in Cidrs(m)
    ensures c in Flatten({m}) && Flatten({m})[c] == Item(Elements(m.agents), 0, Elements(m.ports))
  {
    assert AgentsAt({m}, c) == Elements(m.agents) && PortsAt({m}, c) == Elements(m.ports);
  }

  lemma NotAdded(p: GroupMembersPatch, c: string)
    requires p.added == [] && p.updated == []
    ensures c !in AddBlocks(p)
  {
  }
}
