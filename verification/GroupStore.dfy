/**
 The controller's side of group replication: the stored snapshot and patches
 of one group, and the reconcile step that may fail after any API write.
 */
module GroupStore {
  import opened Strings
  import opened Groups
  import opened GroupDiff
  import opened GroupHistory

  const NumOfRetainedPatches: nat := 3

  /** The snapshot is a committed membership and every later one is a stored patch away. */
  ghost predicate Consistent(revision: nat, members: Membership, patches: Patches, history: seq<Membership>) {
    && revision < |history| && history[0] == map[]
    && Agree(members, history[revision])
    && (forall r :: r in patches ==> Links(history, r, patches[r]))
    && (forall r :: revision <= r < |history| - 1 ==> r in patches)
  }

  /** Replaying what is stored always yields the last committed membership. */
  lemma ReplayYieldsLast(revision: nat, members: Membership, patches: Patches, history: seq<Membership>)
    requires Consistent(revision, members, patches, history)
    ensures Replay(members, revision, patches).1 == |history| - 1
    ensures Agree(Replay(members, revision, patches).0, history[|history| - 1])
  {
    ReplayStopsAtGap(members, revision, patches);
    ReplayFollowsHistory(members, revision, patches, history);
  }

  method ApplyGroupMembersPatch(members: seq<GroupMember>, patch: GroupMembersPatch) returns (result: seq<GroupMember>)
    ensures ByReference(result) == ApplyPatch(ByReference(members), patch)
  {
    var m := IndexMembers(members);
    var added := IndexMembers(patch.added);
    var updated := IndexMembers(patch.updated);
    m := m + added + updated;
    m := m - References(patch.removed);
    result := ListMembers(m);
  }

  method ApplyGroupMembersPatches(start: GroupMembers, patchSet: Patches) returns (gm: GroupMembers)
    ensures (ByReference(gm.members), gm.revision) == Replay(ByReference(start.members), start.revision, patchSet)
  {
    gm := start;
    while gm.revision in patchSet
      invariant Replay(ByReference(start.members), start.revision, patchSet)
           == Replay(ByReference(gm.members), gm.revision, patchSet)
      decreases |Ahead(patchSet, gm.revision)|
    {
      var members := ApplyGroupMembersPatch(gm.members, patchSet[gm.revision]);
      assert Ahead(patchSet, gm.revision) == Ahead(patchSet, gm.revision + 1) + {gm.revision};
      gm := GroupMembers(gm.revision + 1, members);
    }
  }

  /** Nothing new and nothing changed. */
  ghost predicate Within(before: Patches, now: Patches) { forall r :: r in now ==> r in before && now[r] == before[r] }

  /** Of the last three revisions no patch is gone or changed. */
  ghost predicate Keeps(before: Patches, now: Patches, revision: nat) {
    forall r :: r in before && r + 3 >= revision ==> r in now && now[r] == before[r]
  }

  ghost predicate PrunedFrom(before: Patches, now: Patches, revision: nat) {
    Within(before, now) && Keeps(before, now, revision)
  }

  class GroupStore {
    var snapshot: Option<GroupMembers>
    var patches: Patches
    /** The memberships committed so far; committing is creating the patch. */
    ghost var history: seq<Membership>

    function Stored(): GroupMembers
      reads this
    {
      match snapshot
      case Some(gm) => gm
      case None => GroupMembers(0, [])
    }

    ghost predicate Valid()
      reads this
    {
      Consistent(Stored().revision, ByReference(Stored().members), patches, history)
    }

    constructor ()
      ensures Valid() && history == [map[]] && snapshot == None && patches == map[]
    {
      snapshot, patches, history := None, map[], [map[]];
    }

    /** Every write either does not arrive, arrives unnoticed, or arrives and is acknowledged. */
    method CreatePatch(revision: nat, patch: GroupMembersPatch, ghost next: Membership) returns (ok: bool)
      requires Valid() && revision == |history| - 1
      requires Agree(ApplyPatch(history[revision], patch), next)
      modifies this
      ensures Valid() && snapshot == old(snapshot)
      ensures (patches, history) == old((patches[revision := patch], history + [next]))
           || (!ok && (patches, history) == old((patches, history)))
    {
      var arrives: bool := *;
      ok := *;
      if !arrives {
        return false;
      }
      forall r | r in patches
        ensures r != revision && Links(history + [next], r, patches[r])
      {
        assert Links(history, r, patches[r]);
      }
      patches := patches[revision := patch];
      history := history + [next];
    }

    method WriteSnapshot(gm: GroupMembers) returns (ok: bool)
      requires Valid() && Stored().revision <= gm.revision < |history|
      modifies this`snapshot
      ensures Agree(ByReference(gm.members), history[gm.revision]) ==> Valid()
      ensures snapshot == Some(gm) || (!ok && snapshot == old(snapshot))
    {
      var arrives: bool := *;
      ok := *;
      if !arrives {
        return false;
      }
      snapshot := Some(gm);
    }

    method DeletePatch(revision: nat) returns (ok: bool)
      requires revision < Stored().revision
      modifies this`patches
      ensures old(Valid()) ==> Valid()
      ensures patches == old(patches) - {revision} || (!ok && patches == old(patches))
    {
      var arrives: bool := *;
      ok := *;
      if !arrives {
        return false;
      }
      patches := patches - {revision};
    }

    method FetchPrevGroupMembers() returns (prev: GroupMembers)
      requires Valid()
      ensures prev.revision == |history| - 1 && Agree(ByReference(prev.members), history[prev.revision])
    {
      prev := ApplyGroupMembersPatches(Stored(), patches);
      ReplayYieldsLast(Stored().revision, ByReference(Stored().members), patches, history);
    }

    /** The patch from the last committed membership to the current one. */
    method PlanPatch(curr: seq<GroupMember>) returns (revision: nat, patch: GroupMembersPatch)
      requires Valid()
      ensures revision == |history| - 1
      ensures IsEmptyPatch(patch) <==> Agree(history[revision], ByReference(curr)) && DistinctReferences(curr)
      ensures Agree(ApplyPatch(history[revision], patch), ByReference(curr)) <==> Replays(history[revision], curr)
    {
      var prev := FetchPrevGroupMembers();
      revision := prev.revision;
      patch := ToGroupMembersPatch(prev.members, curr);
      ReplaysAgree(ByReference(prev.members), history[revision], curr);
      CommitAgrees(history[revision], ByReference(prev.members), ByReference(curr), patch);
    }

    method SyncGroupMembers(gm: GroupMembers) returns (ok: bool)
      requires Valid() && gm.revision == |history| - 1
      modifies this`snapshot
      ensures Stored().revision >= old(Stored().revision)
      ensures Agree(ByReference(gm.members), history[gm.revision]) ==> Valid()
      ensures !Valid() ==> Stored() == gm
      ensures ok ==> snapshot.Some? && Stored().revision == |history| - 1
      ensures ok && old(Stored().revision) < gm.revision ==> Stored() == gm
    {
      if snapshot == None {
        ok := WriteSnapshot(GroupMembers(0, []));
        if !ok {
          return;
        }
      }
      if Stored().revision >= gm.revision {
        return true;
      }
      ok := WriteSnapshot(gm);
    }

    method CleanupOldPatches(revision: nat) returns (ok: bool)
      requires revision <= Stored().revision
      modifies this`patches
      ensures old(Valid()) ==> Valid()
      ensures PrunedFrom(old(patches), patches, revision)
      ensures ok ==> forall r :: r in patches ==> r + 3 >= revision
    {
      var list := patches.Keys;
      while list != {}
        invariant (old(Valid()) ==> Valid()) && PrunedFrom(old(patches), patches, revision)
        invariant forall r :: r in patches && r !in list ==> r + NumOfRetainedPatches >= revision
        decreases list
      {
        var r :| r in list;
        list := list - {r};
        if r >= revision || revision - r <= NumOfRetainedPatches {
          continue;
        }
        ok := DeletePatch(r);
        if !ok {
          return;
        }
      }
      ok := true;
    }

    /** The first half of processEndpointGroupUpdate: the diff, and the patch unless it is empty. */
    method CommitUpdate(curr: seq<GroupMember>) returns (ok: bool, revision: nat)
      requires Valid()
      modifies this
      ensures Valid() && snapshot == old(snapshot)
      ensures history == old(history) ==> patches == old(patches)
      ensures history != old(history) ==> Committed(old(history), old(patches), curr)
      ensures old(history) <= history && |history| <= |old(history)| + 1 && Within(patches, old(patches))
      ensures Replays(old(Last()), curr) ==> history == old(history) || history == old(history) + [ByReference(curr)]
      ensures ok ==> revision == |history| - 1
      ensures ok ==>
        (history == old(history) <==> Agree(old(Last()), ByReference(curr)) && DistinctReferences(curr))
      ensures ok ==> (Agree(ByReference(curr), Last()) <==> Replays(old(Last()), curr))
    {
      ghost var last := Last();
      var patch;
      revision, patch := PlanPatch(curr);
      if IsEmptyPatch(patch) {
        AgreeSymmetric(last, ByReference(curr));
        UnchangedReplays(last, curr);
        return true, revision;
      }
      ok := CreatePatch(revision, patch, if Replays(last, curr) then ByReference(curr) else ApplyPatch(last, patch));
      if ok && !Replays(last, curr) && Agree(ByReference(curr), Last()) {
        AgreeSymmetric(ByReference(curr), Last());
      }
      revision := revision + 1;
    }

    /** The second half: the snapshot, then the old patches. */
    method PublishUpdate(revision: nat, curr: seq<GroupMember>) returns (ok: bool)
      requires Valid() && revision == |history| - 1
      modifies this`snapshot, this`patches
      ensures Stored().revision >= old(Stored().revision)
      ensures Agree(ByReference(curr), history[revision]) ==> Valid() && Agree(history[revision], ByReference(curr))
      ensures !Valid() ==> Stored() == GroupMembers(revision, curr)
      ensures PrunedFrom(old(patches), patches, Stored().revision)
      ensures ok ==> Stored().revision == revision
      ensures ok && old(Stored().revision) < revision ==> Stored() == GroupMembers(revision, curr)
    {
      if Agree(ByReference(curr), history[revision]) { AgreeSymmetric(ByReference(curr), history[revision]); }
      ok := SyncGroupMembers(GroupMembers(revision, curr));
      if !ok {
        return;
      }
      ok := CleanupOldPatches(revision);
    }

    /** One patch and one membership more. */
    ghost predicate Committed(before: seq<Membership>, old_: Patches, curr: seq<GroupMember>)
      requires before != []
      reads this
    {
      var n := |before| - 1;
      && |history| == n + 2 && history[..n + 1] == before && Stored().revision <= n
      && n !in old_ && n in patches && patches == old_[n := patches[n]]
      && (Agree(ApplyPatch(before[n], patches[n]), ByReference(curr)) <==> Replays(before[n], curr))
    }

    /**
     processEndpointGroupUpdate: whatever write fails, the store still replays to
     the last committed membership, the stored revision does not decrease, and
     at most one membership is committed; all that unless the list has entries of
     one reference such that an earlier one overwrites the last. Then, once the
     snapshot is written, those who replay the patch and those who read the
     snapshot disagree. A list that repeats a reference is committed every time.
     */
    method ProcessEndpointGroupUpdate(curr: seq<GroupMember>) returns (ok: bool)
      requires Valid()
      modifies this
      ensures Stored().revision >= old(Stored().revision)
      ensures !Valid() ==> !Replays(old(Last()), curr) && Stored() == GroupMembers(|old(history)|, curr)
      ensures old(history) <= history && |history| <= |old(history)| + 1
      ensures Replays(old(Last()), curr) ==> history == old(history) || history == old(history) + [ByReference(curr)]
      ensures history == old(history) ==> Within(old(patches), patches)
      ensures Keeps(old(patches), patches, Stored().revision)
      ensures ok ==> Stored().revision == |history| - 1
      ensures ok ==>
        (history == old(history) <==> Agree(old(Last()), ByReference(curr)) && DistinctReferences(curr))
      ensures ok && Replays(old(Last()), curr) ==> Agree(history[|history| - 1], ByReference(curr))
      ensures ok && !Replays(old(Last()), curr) ==> Diverged(old(history), patches, Stored(), curr)
    {
      var revision;
      ok, revision := CommitUpdate(curr);
      if !ok {
        return;
      }
      ghost var known := patches;
      ok := PublishUpdate(revision, curr);
      KeepsAlong(old(patches), known, patches, Stored().revision);
      if ok && history != old(history) && !Replays(old(Last()), curr) {
        StillDiverged(old(history), known, patches, Stored(), curr);
      }
    }

    /** The last committed membership. */
    ghost function Last(): Membership
      requires Valid()
      reads this
    {
      history[|history| - 1]
    }

    /**
     Any number of serial reconciles of the group, each allowed to fail anywhere,
     with lists in which the entries of one reference look the same.
     */
    method ReconcileSerially(currents: seq<seq<GroupMember>>)
      requires Valid() && forall i :: 0 <= i < |currents| ==> Steady(currents[i])
      modifies this
      ensures Valid() && old(history) <= history && Stored().revision >= old(Stored().revision)
    {
      for i := 0 to |currents|
        invariant Valid() && old(history) <= history && Stored().revision >= old(Stored().revision)
      {
        SteadyIff(currents[i]);
        var _ := ProcessEndpointGroupUpdate(currents[i]);
      }
    }
  }

  /** The snapshot is not what the patch before it leads to. */
  ghost predicate Diverged(before: seq<Membership>, patches: Patches, stored: GroupMembers, curr: seq<GroupMember>) {
    before != [] &&
    var n := |before| - 1;
    stored == GroupMembers(n + 1, curr) && n in patches && !Agree(ApplyPatch(before[n], patches[n]), ByReference(curr))
  }

  lemma StillDiverged(before: seq<Membership>, known: Patches, now: Patches, stored: GroupMembers,
                      curr: seq<GroupMember>)
    requires Diverged(before, known, stored, curr) && PrunedFrom(known, now, |before|)
    ensures Diverged(before, now, stored, curr)
  {
    assert |before| - 1 in now;
  }

  lemma KeepsAlong(before: Patches, known: Patches, now: Patches, revision: nat)
    requires Within(known, before) && PrunedFrom(known, now, revision)
    ensures Keeps(before, now, revision) && (known == before ==> Within(before, now))
  {
  }

  /** Where nothing has changed and nothing is listed twice, nothing is updated. */
  lemma UnchangedReplays(last: Membership, curr: seq<GroupMember>)
    requires Agree(last, ByReference(curr)) && DistinctReferences(curr)
    ensures Replays(last, curr)
  {
    DistinctIsSteady(curr);
    SteadyIff(curr);
  }

  lemma ReplaysAgree(prev: Membership, last: Membership, curr: seq<GroupMember>)
    requires Agree(prev, last)
    ensures Replays(prev, curr) <==> Replays(last, curr)
  {
    assert Changed(prev, Firsts(curr)) == Changed(last, Firsts(curr));
  }

  lemma CommitAgrees(last: Membership, prev: Membership, curr: Membership, patch: GroupMembersPatch)
    requires Agree(prev, last)
    ensures Agree(ApplyPatch(prev, patch), curr) <==> Agree(ApplyPatch(last, patch), curr)
    ensures Agree(prev, curr) <==> Agree(last, curr)
  {
    ApplyPatchAgrees(prev, last, patch);
  }
}
