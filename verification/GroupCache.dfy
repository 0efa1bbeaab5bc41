/**
 The agent's cache of group memberships and of patches waiting to be applied.
 */
module GroupCache {
  import opened Strings
  import opened Groups
  import opened IPBlocks
  import opened GroupBlocks
  import opened GroupHistory

  /** groupMembership: the members of a group at a revision. */
  datatype Group = Group(revision: nat, endpoints: Membership)

  datatype Cache = Cache(members: map<string, Group>, patches: map<string, map<nat, GroupMembersPatch>>)

  datatype GroupPatch = GroupPatch(groupName: string, revision: nat, add: IPBlockMap, del: IPBlockMap)

  function PatchesOf(c: Cache, g: string): map<nat, GroupMembersPatch> {
    if g in c.patches then c.patches[g] else map[]
  }

  /** The patch with the revision of the cached membership, if it has arrived. */
  predicate HasNext(c: Cache, g: string) {
    g in c.members && c.members[g].revision in PatchesOf(c, g)
  }

  function NextSource(c: Cache, g: string): GroupMembersPatch
    requires HasNext(c, g)
  {
    PatchesOf(c, g)[c.members[g].revision]
  }

  function NextPatchOf(c: Cache, g: string): Option<GroupPatch> {
    if HasNext(c, g) then
      Some(GroupPatch(g, c.members[g].revision, AddBlocks(NextSource(c, g)),
        DelBlocks(c.members[g].endpoints, NextSource(c, g))))
    else None
  }

  function AfterAddPatch(c: Cache, g: string, revision: nat, p: GroupMembersPatch): Cache {
    if g in c.members && revision < c.members[g].revision then c
    else c.(patches := c.patches[g := PatchesOf(c, g)[revision := p]])
  }

  function AfterApplyPatch(c: Cache, g: string): Cache
    requires HasNext(c, g)
  {
    var group := c.members[g];
    Cache(c.members[g := Group(group.revision + 1, ApplyPatch(group.endpoints, NextSource(c, g)))],
          c.patches[g := PatchesOf(c, g) - {group.revision}])
  }

  function AfterAddMembership(c: Cache, g: string, gm: GroupMembers): Cache {
    if g in c.members then c
    else Cache(c.members[g := Group(gm.revision, ByReference(gm.members))],
               c.patches[g := map r | r in PatchesOf(c, g) && r >= gm.revision :: PatchesOf(c, g)[r]])
  }

  function AfterDelMembership(c: Cache, g: string): Cache { Cache(c.members - {g}, c.patches - {g}) }

  /** Inserts agents and ports at an address, which is created if it is missing. */
  function Contribute(blocks: IPBlockMap, cidr: string, agents: set<string>, ports: set<NamedPort>): (r: IPBlockMap)
    requires NoNil(blocks)
    ensures NoNil(r)
  {
    var x := if cidr in blocks then blocks[cidr] else NewItem;
    blocks[cidr := Item(x.agentRef + agents, x.staticCount, x.ports + ports)]
  }

  /** Adds the addresses of one member to a map. */
  method AccumulateMember(start: IPBlockMap, m: GroupMember) returns (blocks: IPBlockMap)
    requires NoNil(start)
    ensures blocks == Merge(start, Flatten({m}))
  {
    blocks := start;
    EmptyMember(start, m);
    for i := 0 to |m.ips|
      invariant NoNil(blocks) && blocks == Merge(start, Flatten({m.(ips := m.ips[..i])}))
    {
      var cidr := GetIPCidr(m.ips[i]);
      AddAddress(start, m, i);
      blocks := Contribute(blocks, cidr, Elements(m.agents), Elements(m.ports));
    }
    assert m.(ips := m.ips[..|m.ips|]) == m;
  }

  lemma EmptyMember(start: IPBlockMap, m: GroupMember)
    requires NoNil(start)
    ensures Merge(start, Flatten({m.(ips := m.ips[..0])})) == start
  {
  }

  /** The same item at every key. */
  function Uniform(keys: set<string>, agents: set<string>, ports: set<NamedPort>): (r: IPBlockMap)
    ensures NoStatic(r)
  {
    map k | k in keys :: Item(agents, 0, ports)
  }

  lemma FlattenMember(m: GroupMember)
    ensures Flatten({m}) == Uniform(Cidrs(m), Elements(m.agents), Elements(m.ports))
  {
    assert AllCidrs({m}) == Cidrs(m);
    forall c | c in Cidrs(m)
      ensures AgentsAt({m}, c) == Elements(m.agents) && PortsAt({m}, c) == Elements(m.ports)
    {
    }
  }

  lemma MergeUniform(start: IPBlockMap, keys: set<string>, c: string, agents: set<string>, ports: set<NamedPort>)
    requires NoNil(start)
    ensures Merge(start, Uniform(keys + {c}, agents, ports))
         == Contribute(Merge(start, Uniform(keys, agents, ports)), c, agents, ports)
  {
    var before, after := Merge(start, Uniform(keys, agents, ports)), Merge(start, Uniform(keys + {c}, agents, ports));
    var want := Contribute(before, c, agents, ports);
    assert after.Keys == want.Keys;
    assert after[c].agentRef == want[c].agentRef && after[c].ports == want[c].ports;
  }

  /** One more address of a member. */
  lemma AddAddress(start: IPBlockMap, m: GroupMember, i: nat)
    requires NoNil(start) && i < |m.ips|
    ensures Merge(start, Flatten({m.(ips := m.ips[..i + 1])})) ==
      Contribute(Merge(start, Flatten({m.(ips := m.ips[..i])})), GetIPCidr(m.ips[i]), Elements(m.agents),
        Elements(m.ports))
  {
    var m0, m1 := m.(ips := m.ips[..i]), m.(ips := m.ips[..i + 1]);
    var c := GetIPCidr(m.ips[i]);
    assert m1.ips == m0.ips + [m.ips[i]];
    assert Cidrs(m1) == Cidrs(m0) + {c};
    FlattenMember(m0);
    FlattenMember(m1);
    MergeUniform(start, Cidrs(m0), c, Elements(m.agents), Elements(m.ports));
  }

  lemma {:induction false} FlattenMore(start: IPBlockMap, ms: set<GroupMember>, m: GroupMember)
    requires NoNil(start)
    ensures Merge(Merge(start, Flatten(ms)), Flatten({m})) == Merge(start, Flatten(ms + {m}))
  {
    MergeAssociative(start, Flatten(ms), Flatten({m}));
    FlattenUnion(ms, {m});
  }

  lemma ElementsStep<T>(s: seq<T>, i: nat)
    requires i < |s|
    ensures Elements(s[..i + 1]) == Elements(s[..i]) + {s[i]}
  {
  }

  lemma FlattenNothing(start: IPBlockMap)
    requires NoNil(start)
    ensures Merge(start, Flatten({})) == start
  {
  }

  method AccumulateMembers(start: IPBlockMap, ms: seq<GroupMember>) returns (blocks: IPBlockMap)
    requires NoNil(start)
    ensures blocks == Merge(start, Flatten(Elements(ms)))
  {
    blocks := start;
    FlattenNothing(start);
    assert Elements(ms[..0]) == {};
    for i := 0 to |ms|
      invariant NoNil(blocks) && blocks == Merge(start, Flatten(Elements(ms[..i])))
    {
      FlattenMore(start, Elements(ms[..i]), ms[i]);
      ElementsStep(ms, i);
      blocks := AccumulateMember(blocks, ms[i]);
    }
    assert ms[..|ms|] == ms;
  }

  lemma ReplacedStep(m: Membership, updated: seq<GroupMember>, i: nat)
    requires i < |updated|
    ensures Replaced(m, updated[..i + 1])
         == Replaced(m, updated[..i]) + (if updated[i].ref in m then {m[updated[i].ref]} else {})
  {
  }

  /** The stored members behind the updated ones; a missing one has no addresses. */
  method AccumulateReplaced(m: Membership, updated: seq<GroupMember>) returns (blocks: IPBlockMap)
    ensures blocks == Flatten(Replaced(m, updated))
  {
    blocks := map[];
    assert Replaced(m, updated[..0]) == {};
    FlattenNothing(map[]);
    MergeEmpty(Flatten({}));
    for i := 0 to |updated|
      invariant blocks == Flatten(Replaced(m, updated[..i]))
    {
      ReplacedStep(m, updated, i);
      if updated[i].ref in m {
        var oldMember := m[updated[i].ref];
        FlattenUnion(Replaced(m, updated[..i]), {oldMember});
        blocks := AccumulateMember(blocks, oldMember);
      } else {
        assert Replaced(m, updated[..i + 1]) == Replaced(m, updated[..i]);
      }
    }
    assert updated[..|updated|] == updated;
  }

  class GroupCache {
    var members: map<string, Group>
    var patches: map<string, map<nat, GroupMembersPatch>>

    function State(): Cache
      reads this
    {
      Cache(members, patches)
    }

    constructor ()
      ensures State() == Cache(map[], map[])
    {
      members, patches := map[], map[];
    }

    method AddPatch(groupName: string, revision: nat, patch: GroupMembersPatch)
      modifies this`patches
      ensures State() == AfterAddPatch(old(State()), groupName, revision, patch)
    {
      if groupName in members && revision < members[groupName].revision {
        return;
      }
      if groupName !in patches {
        // a patch may arrive before its group does
        patches := patches[groupName := map[]];
      }
      var pending: Patches := patches[groupName];
      patches := patches[groupName := pending[revision := patch]];
    }

    method NextPatch(groupName: string) returns (next: Option<GroupPatch>)
      ensures next == NextPatchOf(State(), groupName)
    {
      if groupName !in members {
        return None;
      }
      var membership := members[groupName];
      if groupName !in patches || membership.revision !in patches[groupName] {
        return None;
      }
      var source := patches[groupName][membership.revision];
      FlattenUnion(Elements(source.added), Elements(source.updated));
      FlattenUnion(Replaced(membership.endpoints, source.updated), Elements(source.removed));
      MergeEmpty(Flatten(Elements(source.added)));
      var add := AccumulateMembers(map[], source.added);
      add := AccumulateMembers(add, source.updated);
      var del := AccumulateReplaced(membership.endpoints, source.updated);
      del := AccumulateMembers(del, source.removed);
      next := Some(GroupPatch(groupName, membership.revision, add, del));
    }

    /** `fatal` stands for the klog.Fatalf on a revision mismatch. */
    method ApplyPatch(patch: GroupPatch) returns (fatal: bool)
      modifies this
      ensures fatal <==> patch.groupName in old(members) && patch.revision != old(members)[patch.groupName].revision
      ensures State() == if !fatal && HasNext(old(State()), patch.groupName)
        then AfterApplyPatch(old(State()), patch.groupName) else old(State())
    {
      var groupName := patch.groupName;
      if groupName !in members {
        return false;
      }
      var membership := members[groupName];
      if patch.revision != membership.revision {
        return true;
      }
      if groupName !in patches || patch.revision !in patches[groupName] {
        // the patch has been applied
        return false;
      }
      var endpoints := ApplySource(membership.endpoints, patches[groupName][patch.revision]);
      members := members[groupName := Group(patch.revision + 1, endpoints)];
      patches := patches[groupName := patches[groupName] - {patch.revision}];
      fatal := false;
    }

    method AddGroupMembership(groupName: string, gm: GroupMembers)
      modifies this
      ensures State() == AfterAddMembership(old(State()), groupName, gm)
    {
      if groupName in members {
        return;
      }
      var endpoints := IndexMembers(gm.members);
      var pending := DropOldPatches(if groupName in patches then patches[groupName] else map[], gm.revision);
      patches := patches[groupName := pending];
      members := members[groupName := Group(gm.revision, endpoints)];
    }

    method DelGroupMembership(groupName: string)
      modifies this
      ensures State() == AfterDelMembership(old(State()), groupName)
    {
      patches := patches - {groupName};
      members := members - {groupName};
    }

    method ListGroupIPBlocks(groupName: string) returns (revision: nat, ipBlocks: IPBlockMap, exist: bool)
      ensures exist <==> groupName in members
      ensures exist ==>
        revision == members[groupName].revision && ipBlocks == Flatten(members[groupName].endpoints.Values)
    {
      if groupName !in members {
        return 0, map[], false;
      }
      var membership := members[groupName];
      ipBlocks := AccumulateEndpoints(membership.endpoints);
      return membership.revision, ipBlocks, true;
    }

    /** Applying patches until none is due replays everything that has been delivered. */
    method Drain(groupName: string)
      requires groupName in members
      modifies this
      ensures members.Keys == old(members).Keys
      ensures (members[groupName].endpoints, members[groupName].revision)
           == Replay(old(members)[groupName].endpoints, old(members)[groupName].revision,
             old(PatchesOf(State(), groupName)))
      ensures !HasNext(State(), groupName)
    {
      var next := NextPatch(groupName);
      while next.Some?
        invariant members.Keys == old(members).Keys && next == NextPatchOf(State(), groupName)
        invariant Replay(members[groupName].endpoints, members[groupName].revision, PatchesOf(State(), groupName))
               == Replay(old(members)[groupName].endpoints, old(members)[groupName].revision,
                 old(PatchesOf(State(), groupName)))
        decreases |PatchesOf(State(), groupName)|
      {
        DrainStep(State(), groupName);
        var _ := ApplyPatch(next.value);
        next := NextPatch(groupName);
      }
    }
  }

  /** Removes the patches that were created before the membership. */
  method DropOldPatches(start: Patches, revision: nat) returns (pending: Patches)
    ensures pending == map r | r in start && r >= revision :: start[r]
  {
    pending := start;
    var todo := start.Keys;
    while todo != {}
      invariant todo <= start.Keys
      invariant pending == map r | r in start && (r in todo || r >= revision) :: start[r]
      decreases todo
    {
      var r :| r in todo;
      todo := todo - {r};
      if r < revision {
        pending := pending - {r};
      }
    }
  }

  lemma RemoveShrinks(patches: Patches, r: nat)
    requires r in patches
    ensures |patches - {r}| < |patches|
  {
  }

  lemma DrainStep(c: Cache, g: string)
    requires HasNext(c, g)
    ensures var c' := AfterApplyPatch(c, g);
      && |PatchesOf(c', g)| < |PatchesOf(c, g)|
      && Replay(c'.members[g].endpoints, c'.members[g].revision, PatchesOf(c', g))
         == Replay(c.members[g].endpoints, c.members[g].revision, PatchesOf(c, g))
  {
    var c', r := AfterApplyPatch(c, g), c.members[g].revision;
    var ps := PatchesOf(c, g);
    RemoveShrinks(ps, r);
    ReplayForgets(c'.members[g].endpoints, r + 1, ps, r);
  }

  /** Patches below the revision do not matter. */
  lemma {:induction false} ReplayForgets(m: Membership, revision: nat, patches: Patches, r: nat)
    requires r < revision
    ensures Replay(m, revision, patches - {r}) == Replay(m, revision, patches)
    decreases |Ahead(patches, revision)|
  {
    if revision in patches {
      assert Ahead(patches, revision) == Ahead(patches, revision + 1) + {revision};
      ReplayForgets(Groups.ApplyPatch(m, patches[revision]), revision + 1, patches, r);
    }
  }

  /** The loops of GroupCache.ApplyPatch over added, updated and removed members. */
  method ApplySource(start: Membership, source: GroupMembersPatch) returns (endpoints: Membership)
    ensures endpoints == Groups.ApplyPatch(start, source)
  {
    var added := IndexMembers(source.added);
    var updated := IndexMembers(source.updated);
    endpoints := start + added + updated;
    for i := 0 to |source.removed|
      invariant endpoints == start + added + updated - References(source.removed[..i])
    {
      assert References(source.removed[..i + 1]) == References(source.removed[..i]) + {source.removed[i].ref};
      endpoints := endpoints - {source.removed[i].ref};
    }
    assert source.removed[..|source.removed|] == source.removed;
  }

  method AccumulateEndpoints(endpoints: Membership) returns (blocks: IPBlockMap)
    ensures blocks == Flatten(endpoints.Values)
  {
    blocks := map[];
    var todo := endpoints.Keys;
    ghost var done: set<GroupMember> := {};
    FlattenNothing(map[]);
    MergeEmpty(Flatten({}));
    while todo != {}
      invariant todo <= endpoints.Keys
      invariant done == set r | r in endpoints && r !in todo :: endpoints[r]
      invariant blocks == Flatten(done)
      decreases todo
    {
      var r :| r in todo;
      FlattenUnion(done, {endpoints[r]});
      blocks := AccumulateMember(blocks, endpoints[r]);
      todo := todo - {r};
      done := done + {endpoints[r]};
    }
    assert done == endpoints.Values;
  }
}
