/**
 Replication of one group to an agent: deliveries in any order, lost or
 duplicated, against the history of committed memberships.
 */
module GroupReplication {
  import opened Groups
  import opened GroupHistory
  import opened GroupCache
  import opened GroupBlocks
  import GroupDiff
  import GroupStore

  datatype Event =
    | PatchArrives(revision: nat, patch: GroupMembersPatch)
    | SnapshotArrives(gm: GroupMembers)
    | PatchDue

  /** What the controller may have published along this history. */
  ghost predicate Genuine(e: Event, history: seq<Membership>) {
    match e
    case PatchArrives(r, p) => Links(history, r, p)
    case SnapshotArrives(gm) => gm.revision < |history| && Agree(ByReference(gm.members), history[gm.revision])
    case PatchDue => true
  }

  function Step(c: Cache, g: string, e: Event): Cache {
    match e
    case PatchArrives(r, p) => AfterAddPatch(c, g, r, p)
    case SnapshotArrives(gm) => AfterAddMembership(c, g, gm)
    case PatchDue => if HasNext(c, g) then AfterApplyPatch(c, g) else c
  }

  function Run(c: Cache, g: string, es: seq<Event>): Cache {
    if es == [] then c else Step(Run(c, g, es[..|es| - 1]), g, es[|es| - 1])
  }

  /** The cached membership is a committed one, and pending patches are of the history and not outdated. */
  ghost predicate Replicates(c: Cache, g: string, history: seq<Membership>) {
    && (forall r :: r in PatchesOf(c, g) ==> Links(history, r, PatchesOf(c, g)[r]))
    && (g in c.members ==>
          && c.members[g].revision < |history|
          && Agree(c.members[g].endpoints, history[c.members[g].revision])
          && forall r :: r in PatchesOf(c, g) ==> r >= c.members[g].revision)
  }

  lemma StepReplicates(c: Cache, g: string, e: Event, history: seq<Membership>)
    requires Replicates(c, g, history) && Genuine(e, history)
    ensures Replicates(Step(c, g, e), g, history)
  {
    if e.PatchDue? && HasNext(c, g) { ApplyReplicates(c, g, history); }
  }

  lemma ApplyReplicates(c: Cache, g: string, history: seq<Membership>)
    requires Replicates(c, g, history) && HasNext(c, g)
    ensures Replicates(AfterApplyPatch(c, g), g, history)
  {
    var r := c.members[g].revision;
    LinkedStep(c.members[g].endpoints, r, NextSource(c, g), history);
    assert PatchesOf(AfterApplyPatch(c, g), g) == PatchesOf(c, g) - {r};
  }

  /** Over every run of deliveries the cache refines the history. */
  lemma {:induction false} RunReplicates(c: Cache, g: string, es: seq<Event>, history: seq<Membership>)
    requires Replicates(c, g, history)
    requires forall i :: 0 <= i < |es| ==> Genuine(es[i], history)
    ensures Replicates(Run(c, g, es), g, history)
  {
    if es != [] {
      RunReplicates(c, g, es[..|es| - 1], history);
      StepReplicates(Run(c, g, es[..|es| - 1]), g, es[|es| - 1], history);
    }
  }

  /** A revision moves by one, and only by applying the patch made for it; other groups do not move. */
  lemma StepAdvances(c: Cache, g: string, e: Event)
    requires g in c.members
    ensures var c' := Step(c, g, e);
      && c'.members.Keys == c.members.Keys
      && c'.members[g].revision == c.members[g].revision + (if e.PatchDue? && HasNext(c, g) then 1 else 0)
      && (c'.members[g] != c.members[g] ==> e.PatchDue? && HasNext(c, g))
      && forall h :: h in c.members && h != g ==> c'.members[h] == c.members[h]
  {
  }

  /** Draining stops exactly at the first undelivered revision, on the history. */
  lemma DrainReachesGap(c: Cache, g: string, history: seq<Membership>)
    requires Replicates(c, g, history) && g in c.members
    ensures var (m, stop) := Replay(c.members[g].endpoints, c.members[g].revision, PatchesOf(c, g));
      && c.members[g].revision <= stop < |history| && Agree(m, history[stop])
      && stop !in PatchesOf(c, g)
      && forall r :: c.members[g].revision <= r < stop ==> r in PatchesOf(c, g)
  {
    ReplayStopsAtGap(c.members[g].endpoints, c.members[g].revision, PatchesOf(c, g));
    ReplayFollowsHistory(c.members[g].endpoints, c.members[g].revision, PatchesOf(c, g), history);
  }

  /** Whatever is read from a consistent store stays genuine while the history grows. */
  lemma StoredIsGenuine(gm: GroupMembers, patches: Patches, past: seq<Membership>, history: seq<Membership>)
    requires GroupStore.Consistent(gm.revision, ByReference(gm.members), patches, past) && past <= history
    ensures Genuine(SnapshotArrives(gm), history)
    ensures forall r :: r in patches ==> Genuine(PatchArrives(r, patches[r]), history)
  {
  }

  lemma MeetAtLast(patches: Patches, first: nat, stop: nat, m: Membership, m': Membership, history: seq<Membership>)
    requires first <= stop < |history| && stop !in patches && forall r :: first <= r < |history| - 1 ==> r in patches
    requires Agree(m, history[stop]) && Agree(m', history[|history| - 1])
    ensures stop == |history| - 1 && Agree(m, m')
  {
    AgreeSymmetric(m', history[|history| - 1]);
    AgreeTransitive(m, history[stop], m');
  }

  const NoCache: Cache := Cache(map[], map[])

  predicate Delivered(es: seq<Event>, r: nat) {
    exists i :: 0 <= i < |es| && es[i].PatchArrives? && es[i].revision == r
  }

  predicate Snapshotted(es: seq<Event>) { exists i :: 0 <= i < |es| && es[i].SnapshotArrives? }

  lemma LastEvent(es: seq<Event>, r: nat)
    requires es != []
    ensures var front, e := es[..|es| - 1], es[|es| - 1];
      && (Delivered(es, r) <==> Delivered(front, r) || (e.PatchArrives? && e.revision == r))
      && (Snapshotted(es) <==> Snapshotted(front) || e.SnapshotArrives?)
  {
    var front := es[..|es| - 1];
    assert forall i :: 0 <= i < |front| ==> front[i] == es[i];
  }

  /** The patch that was delivered last for a revision. */
  function Latest(es: seq<Event>, r: nat): GroupMembersPatch
    requires Delivered(es, r)
  {
    LastEvent(es, r);
    var front, e := es[..|es| - 1], es[|es| - 1];
    if e.PatchArrives? && e.revision == r then e.patch else Latest(front, r)
  }

  /** The revision of the snapshot that came first. */
  function FirstRevision(es: seq<Event>): nat
    requires Snapshotted(es)
  {
    LastEvent(es, 0);
    var front, e := es[..|es| - 1], es[|es| - 1];
    if Snapshotted(front) then FirstRevision(front) else e.gm.revision
  }

  /** The pending patches in terms of the deliveries. */
  ghost predicate PendingAt(c: Cache, g: string, es: seq<Event>, r: nat) {
    && (r in PatchesOf(c, g) <==> Delivered(es, r) && (g in c.members ==> r >= c.members[g].revision))
    && (r in PatchesOf(c, g) ==> PatchesOf(c, g)[r] == Latest(es, r))
  }

  lemma PendingStep(c: Cache, g: string, es: seq<Event>, r: nat)
    requires es != [] && PendingAt(c, g, es[..|es| - 1], r)
    ensures PendingAt(Step(c, g, es[|es| - 1]), g, es, r)
  {
    LastEvent(es, r);
  }

  /**
   Over every run from an empty cache: the group is cached once a snapshot has
   come, from the first one's revision on, and the pending patches are exactly
   those delivered, whenever that was, that the cached membership has not passed.
   */
  lemma {:induction false} PendingIff(es: seq<Event>, g: string)
    ensures var c := Run(NoCache, g, es);
      && (g in c.members <==> Snapshotted(es))
      && (g in c.members ==> c.members[g].revision >= FirstRevision(es))
      && forall r :: PendingAt(c, g, es, r)
  {
    if es != [] {
      var front := es[..|es| - 1];
      PendingIff(front, g);
      LastEvent(es, 0);
      forall r
        ensures PendingAt(Run(NoCache, g, es), g, es, r)
      {
        PendingStep(Run(NoCache, g, front), g, es, r);
      }
    }
  }

  /** Two caches know the same about a group. */
  predicate SameOn(c: Cache, c': Cache, g: string) {
    && (g in c.members <==> g in c'.members) && (g in c.members ==> c.members[g] == c'.members[g])
    && PatchesOf(c, g) == PatchesOf(c', g)
  }

  lemma StepSame(c: Cache, c': Cache, g: string, e: Event)
    requires SameOn(c, c', g)
    ensures SameOn(Step(c, g, e), Step(c', g, e), g)
  {
  }

  lemma StepElsewhere(c: Cache, g: string, e: Event, h: string)
    requires h != g
    ensures SameOn(Step(c, g, e), c, h)
  {
  }

  /**
   A deleted group starts over: whatever was cached or pending before, later
   deliveries find the group as an empty cache would have it, so that nothing of
   the old history reaches a new group of the same name; other groups stay.
   */
  lemma {:induction false} DeletedStartsOver(c: Cache, g: string, es: seq<Event>)
    ensures SameOn(Run(AfterDelMembership(c, g), g, es), Run(NoCache, g, es), g)
    ensures forall h :: h != g ==> SameOn(Run(AfterDelMembership(c, g), g, es), c, h)
  {
    if es != [] {
      var front := es[..|es| - 1];
      DeletedStartsOver(c, g, front);
      var before, e := Run(AfterDelMembership(c, g), g, front), es[|es| - 1];
      StepSame(before, Run(NoCache, g, front), g, e);
      var now := Step(before, g, e);
      forall h | h != g
        ensures SameOn(now, c, h)
      {
        StepElsewhere(before, g, e, h);
        assert SameOn(before, c, h);
      }
    }
  }

  /**
   An agent to which a snapshot and every patch from its revision on have been
   delivered, in any order and with any number of applications in between, drains
   to the last commit, which is what the controller's own replay yields.
   */
  lemma CaughtUp(es: seq<Event>, g: string, gm: GroupMembers, patches: Patches, history: seq<Membership>)
    requires GroupStore.Consistent(gm.revision, ByReference(gm.members), patches, history)
    requires forall i :: 0 <= i < |es| ==> Genuine(es[i], history)
    requires Snapshotted(es) && forall r :: FirstRevision(es) <= r < |history| - 1 ==> Delivered(es, r)
    ensures var c := Run(NoCache, g, es);
      && g in c.members
      && var (m, stop) := Replay(c.members[g].endpoints, c.members[g].revision, PatchesOf(c, g));
        stop == |history| - 1 && Agree(m, Replay(ByReference(gm.members), gm.revision, patches).0)
  {
    var c := Run(NoCache, g, es);
    PendingIff(es, g);
    RunReplicates(NoCache, g, es, history);
    forall r | c.members[g].revision <= r < |history| - 1
      ensures r in PatchesOf(c, g)
    {
      assert PendingAt(c, g, es, r);
    }
    DrainsToLast(c, g, gm, patches, history);
  }

  /** An agent that holds a membership and every later patch of a consistent store drains to the last commit. */
  lemma {:induction false} DrainsToLast(c: Cache, g: string, gm: GroupMembers, patches: Patches,
      history: seq<Membership>)
    requires GroupStore.Consistent(gm.revision, ByReference(gm.members), patches, history)
    requires Replicates(c, g, history) && g in c.members
    requires forall r :: c.members[g].revision <= r < |history| - 1 ==> r in PatchesOf(c, g)
    ensures var (m, stop) := Replay(c.members[g].endpoints, c.members[g].revision, PatchesOf(c, g));
      stop == |history| - 1 && Agree(m, Replay(ByReference(gm.members), gm.revision, patches).0)
  {
    DrainReachesGap(c, g, history);
    GroupStore.ReplayYieldsLast(gm.revision, ByReference(gm.members), patches, history);
    var (m, stop) := Replay(c.members[g].endpoints, c.members[g].revision, PatchesOf(c, g));
    var (m', _) := Replay(ByReference(gm.members), gm.revision, patches);
    MeetAtLast(PatchesOf(c, g), c.members[g].revision, stop, m, m', history);
  }

  /**
   A patch that the controller computed from one membership is made for every
   replica that agrees with it, named ports of removed members included.
   */
  lemma DiffFits(prev: Membership, curr: Membership, patch: GroupMembersPatch, replica: Membership)
    requires GroupDiff.IsDiff(prev, curr, patch) && DistinctReferences(patch.added + patch.updated + patch.removed)
    requires Agree(replica, prev)
    requires forall r :: r in prev && r !in curr ==> Elements(replica[r].ports) == Elements(prev[r].ports)
    ensures Fits(replica, patch)
  {
    PartsDistinct(patch);
    forall i | 0 <= i < |patch.added|
      ensures patch.added[i].ref !in replica
    {
      ByReferenceAt(patch.added, i);
    }
    forall i | 0 <= i < |patch.removed|
      ensures patch.removed[i].ref in replica && SameContent(patch.removed[i], replica[patch.removed[i].ref])
    {
      ByReferenceAt(patch.removed, i);
      var r := patch.removed[i].ref;
      assert prev[r] == patch.removed[i] && SameMember(replica[r], prev[r]);
      SameAgents(replica[r].agents, prev[r].agents);
    }
  }

  lemma SameAgents(xs: seq<string>, ys: seq<string>)
    requires multiset(xs) == multiset(ys)
    ensures Elements(xs) == Elements(ys)
  {
    assert forall x :: x in xs <==> x in multiset(xs);
    assert forall x :: x in ys <==> x in multiset(ys);
  }
}
