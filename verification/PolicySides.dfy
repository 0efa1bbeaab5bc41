/**
 The two sides of a policy rule: the peers it names, resolved against the group
 cache to revisions and address maps, and kept up to date by group patches.
 */
module PolicySides {
  import opened IPBlocks
  import opened GroupBlocks
  import opened GroupCache

  /** A peer of a rule: an IP block with its networks, a group, or nothing usable. */
  datatype Peer = BlockPeer(nets: seq<string>) | InvalidBlockPeer | GroupPeer(group: string) | EmptyPeer

  /** An absent peer list matches everything; its map is {"": nil}. */
  datatype Side = Everything | Peers(peers: seq<Peer>)

  predicate PeerResolves(peer: Peer, c: Cache) {
    match peer
    case BlockPeer(_) => true
    case InvalidBlockPeer => false
    case GroupPeer(g) => g in c.members
    case EmptyPeer => true
  }

  predicate SideResolves(side: Side, c: Cache) {
    side.Peers? ==> forall i :: 0 <= i < |side.peers| ==> PeerResolves(side.peers[i], c)
  }

  /** One more static reference to a network. */
  function Bump(blocks: IPBlockMap, net: string): (r: IPBlockMap)
    requires NoNil(blocks)
    ensures NoNil(r)
  {
    var x := if net in blocks then blocks[net] else NewItem;
    blocks[net := x.(staticCount := x.staticCount + 1)]
  }

  /** Every occurrence of a network counts. */
  function StaticBlocks(nets: seq<string>): (r: IPBlockMap)
    ensures NoNil(r)
  {
    if nets == [] then map[] else Bump(StaticBlocks(nets[..|nets| - 1]), nets[|nets| - 1])
  }

  lemma {:induction false} StaticCounts(nets: seq<string>, net: string)
    ensures net in StaticBlocks(nets) <==> net in nets
    ensures net in nets ==> StaticBlocks(nets)[net] == Item({}, multiset(nets)[net], {})
  {
    if nets != [] {
      var front, last := nets[..|nets| - 1], nets[|nets| - 1];
      assert nets == front + [last];
      StaticCounts(front, net);
    }
  }

  function GroupBlocksOf(g: string, c: Cache): (r: IPBlockMap)
    requires g in c.members
    ensures NoStatic(r)
  {
    Flatten(c.members[g].endpoints.Values)
  }

  function PeerBlocks(peer: Peer, c: Cache): (r: IPBlockMap)
    requires PeerResolves(peer, c)
    ensures NoNil(r)
  {
    match peer
    case BlockPeer(nets) => StaticBlocks(nets)
    case GroupPeer(g) => GroupBlocksOf(g, c)
    case EmptyPeer => map[]
  }

  function PeersBlocks(peers: seq<Peer>, c: Cache): (r: IPBlockMap)
    requires forall i :: 0 <= i < |peers| ==> PeerResolves(peers[i], c)
    ensures NoNil(r)
  {
    if peers == [] then map[]
    else Merge(PeersBlocks(peers[..|peers| - 1], c), PeerBlocks(peers[|peers| - 1], c))
  }

  function GroupsOf(side: Side): set<string> {
    if side.Everything? then {} else set i | 0 <= i < |side.peers| && side.peers[i].GroupPeer? :: side.peers[i].group
  }

  lemma GroupsCached(side: Side, c: Cache)
    requires SideResolves(side, c)
    ensures forall g :: g in GroupsOf(side) ==> g in c.members
  {
  }

  /** A fresh computation of one side from the group cache: the revisions it rests on and its addresses. */
  function SideRevisions(side: Side, c: Cache): map<string, nat>
    requires SideResolves(side, c)
  {
    GroupsCached(side, c);
    map g | g in GroupsOf(side) :: c.members[g].revision
  }

  function SideBlocks(side: Side, c: Cache): IPBlockMap
    requires SideResolves(side, c)
  {
    if side.Everything? then map["" := Nil] else PeersBlocks(side.peers, c)
  }

  lemma MergeCommutes(x: IPBlockMap, y: IPBlockMap)
    requires NoNil(x) && NoNil(y)
    ensures Merge(x, y) == Merge(y, x)
  {
    forall ip | ip in x && ip in y
      ensures Combine(x[ip], y[ip]) == Combine(y[ip], x[ip])
    {
      assert x[ip].agentRef + y[ip].agentRef == y[ip].agentRef + x[ip].agentRef;
      assert x[ip].ports + y[ip].ports == y[ip].ports + x[ip].ports;
    }
  }

  lemma MergeIdempotent(x: IPBlockMap)
    requires NoStatic(x)
    ensures Merge(x, x) == x
  {
    forall ip | ip in x
      ensures Combine(x[ip], x[ip]) == x[ip]
    {
      assert x[ip].agentRef + x[ip].agentRef == x[ip].agentRef && x[ip].ports + x[ip].ports == x[ip].ports;
    }
  }

  /** The peers other than the group. */
  function Without(peers: seq<Peer>, g: string): seq<Peer> {
    if peers == [] then []
    else
      var front, last := Without(peers[..|peers| - 1], g), peers[|peers| - 1];
      if last == GroupPeer(g) then front else front + [last]
  }

  lemma {:induction false} WithoutResolves(peers: seq<Peer>, g: string, c: Cache)
    requires forall i :: 0 <= i < |peers| ==> PeerResolves(peers[i], c)
    ensures forall i :: 0 <= i < |Without(peers, g)| ==>
      PeerResolves(Without(peers, g)[i], c) && Without(peers, g)[i] != GroupPeer(g)
  {
    if peers != [] { WithoutResolves(peers[..|peers| - 1], g, c); }
  }

  /** What a side owes to everything but the group. */
  function OtherBlocks(peers: seq<Peer>, g: string, c: Cache): (r: IPBlockMap)
    requires forall i :: 0 <= i < |peers| ==> PeerResolves(peers[i], c)
    ensures NoNil(r)
  {
    WithoutResolves(peers, g, c);
    PeersBlocks(Without(peers, g), c)
  }

  lemma {:induction false} WithoutAbsent(peers: seq<Peer>, g: string)
    requires GroupPeer(g) !in peers
    ensures Without(peers, g) == peers
  {
    if peers != [] {
      WithoutAbsent(peers[..|peers| - 1], g);
      assert peers == peers[..|peers| - 1] + [peers[|peers| - 1]];
    }
  }

  lemma PeersBlocksAppend(peers: seq<Peer>, peer: Peer, c: Cache)
    requires forall i :: 0 <= i < |peers| ==> PeerResolves(peers[i], c)
    requires PeerResolves(peer, c)
    ensures PeersBlocks(peers + [peer], c) == Merge(PeersBlocks(peers, c), PeerBlocks(peer, c))
  {
  }

  /** However often a group is named, it contributes once. */
  lemma {:induction false} GroupOnce(peers: seq<Peer>, g: string, c: Cache)
    requires forall i :: 0 <= i < |peers| ==> PeerResolves(peers[i], c)
    requires GroupPeer(g) in peers
    ensures g in c.members
    ensures PeersBlocks(peers, c) == Merge(OtherBlocks(peers, g, c), GroupBlocksOf(g, c))
  {
    var front, last := peers[..|peers| - 1], peers[|peers| - 1];
    WithoutResolves(front, g, c);
    var others := PeersBlocks(Without(front, g), c);
    if last == GroupPeer(g) {
      var gb := GroupBlocksOf(g, c);
      if GroupPeer(g) in front {
        GroupOnce(front, g, c);
        MergeAssociative(others, gb, gb);
        MergeIdempotent(gb);
      } else {
        WithoutAbsent(front, g);
      }
    } else {
      assert peers == front + [last];
      assert GroupPeer(g) in front;
      GroupOnce(front, g, c);
      PeersBlocksAppend(Without(front, g), last, c);
      Rotate(others, GroupBlocksOf(g, c), PeerBlocks(last, c));
    }
  }

  lemma Rotate(x: IPBlockMap, y: IPBlockMap, z: IPBlockMap)
    requires NoNil(x) && NoNil(y) && NoNil(z)
    ensures Merge(Merge(x, y), z) == Merge(Merge(x, z), y)
  {
    MergeAssociative(x, y, z);
    MergeCommutes(y, z);
    MergeAssociative(x, z, y);
  }

  /** A side does not depend on groups it does not name. */
  lemma {:induction false} OtherGroupsIrrelevant(peers: seq<Peer>, g: string, c: Cache, c': Cache)
    requires forall i :: 0 <= i < |peers| ==> PeerResolves(peers[i], c) && PeerResolves(peers[i], c')
    requires c'.members.Keys == c.members.Keys && forall h :: h in c.members && h != g ==> c'.members[h] == c.members[h]
    requires GroupPeer(g) !in peers
    ensures PeersBlocks(peers, c') == PeersBlocks(peers, c)
  {
    if peers != [] {
      assert peers[|peers| - 1] in peers;
      OtherGroupsIrrelevant(peers[..|peers| - 1], g, c, c');
    }
  }

  /** What the next patch of the group leaves alone on this side. */
  function KeptBlocks(peers: seq<Peer>, g: string, c: Cache): (r: IPBlockMap)
    requires (forall i :: 0 <= i < |peers| ==> PeerResolves(peers[i], c)) && HasNext(c, g)
    ensures NoNil(r)
  {
    Merge(OtherBlocks(peers, g, c), Flatten(Kept(c.members[g].endpoints, NextSource(c, g))))
  }

  /** Around a patch, the side is what is kept and what the patch deletes, then what is kept and what it adds. */
  lemma AroundPatch(peers: seq<Peer>, g: string, c: Cache)
    requires (forall i :: 0 <= i < |peers| ==> PeerResolves(peers[i], c)) && GroupPeer(g) in peers
    requires HasNext(c, g) && Fits(c.members[g].endpoints, NextSource(c, g))
    ensures var kept, patch := KeptBlocks(peers, g, c), NextPatchOf(c, g).value;
      && PeersBlocks(peers, c) == Merge(kept, patch.del)
      && PeersBlocks(peers, AfterApplyPatch(c, g)) == Merge(kept, patch.add)
  {
    var m, p, c' := c.members[g].endpoints, NextSource(c, g), AfterApplyPatch(c, g);
    var others := OtherBlocks(peers, g, c);
    GroupOnce(peers, g, c);
    SplitBefore(m, p);
    MergeAssociative(others, Flatten(Kept(m, p)), DelBlocks(m, p));
    GroupOnce(peers, g, c');
    WithoutResolves(peers, g, c);
    assert GroupPeer(g) !in Without(peers, g);
    OtherGroupsIrrelevant(Without(peers, g), g, c, c');
    SplitAfter(m, p);
    MergeAssociative(others, Flatten(Kept(m, p)), AddBlocks(p));
  }

  /** Every address that the patch deletes on this side leaves its other contributions intact. */
  ghost predicate CleanSide(peers: seq<Peer>, g: string, c: Cache)
    requires (forall i :: 0 <= i < |peers| ==> PeerResolves(peers[i], c)) && HasNext(c, g)
  {
    var kept, patch := KeptBlocks(peers, g, c), NextPatchOf(c, g).value;
    forall ip :: ip in kept ==> Clean(kept, patch.del, patch.add, ip)
  }

  /**
   Incremental equals recompute: updating the side's map with the patch gives
   what a fresh computation gives after the patch, iff the side is clean.
   */
  lemma IncrementalIffClean(peers: seq<Peer>, g: string, c: Cache)
    requires (forall i :: 0 <= i < |peers| ==> PeerResolves(peers[i], c)) && GroupPeer(g) in peers
    requires HasNext(c, g) && Fits(c.members[g].endpoints, NextSource(c, g))
    ensures var patch := NextPatchOf(c, g).value;
      ApplyCount(PeersBlocks(peers, c), patch.add, patch.del) == PeersBlocks(peers, AfterApplyPatch(c, g)) <==>
        CleanSide(peers, g, c)
  {
    AroundPatch(peers, g, c);
    ApplyCountExactIff(KeptBlocks(peers, g, c), NextPatchOf(c, g).value.del, NextPatchOf(c, g).value.add);
  }

  /** Every address that the patch touches is on this side through the touched members alone. */
  predicate SoleContributor(peers: seq<Peer>, g: string, c: Cache)
    requires (forall i :: 0 <= i < |peers| ==> PeerResolves(peers[i], c)) && HasNext(c, g)
  {
    var patch := NextPatchOf(c, g).value;
    KeptBlocks(peers, g, c).Keys !! patch.add.Keys + patch.del.Keys
  }

  /** Such a side is clean, and the patch just exchanges addresses there. */
  lemma SoleIsClean(peers: seq<Peer>, g: string, c: Cache)
    requires (forall i :: 0 <= i < |peers| ==> PeerResolves(peers[i], c)) && GroupPeer(g) in peers
    requires HasNext(c, g) && Fits(c.members[g].endpoints, NextSource(c, g)) && SoleContributor(peers, g, c)
    ensures CleanSide(peers, g, c)
    ensures var patch := NextPatchOf(c, g).value;
      && (forall ip :: ip in patch.del ==> ip in PeersBlocks(peers, c) && PeersBlocks(peers, c)[ip] == patch.del[ip])
      && (forall ip :: ip in patch.add && ip in PeersBlocks(peers, c) ==> ip in patch.del)
  {
    AroundPatch(peers, g, c);
  }
}
