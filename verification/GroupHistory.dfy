/**
 The sequence of committed memberships of a group, and replaying patches along it.
 */
module GroupHistory {
  import opened Groups

  type Patches = map<nat, GroupMembersPatch>

  /** The revisions from `revision` on that have a patch. */
  function Ahead(patches: Patches, revision: nat): set<nat> { set r | r in patches && r >= revision }

  /** Applies the patches one revision after the other until one is missing. */
  function Replay(m: Membership, revision: nat, patches: Patches): (result: (Membership, nat))
    decreases |Ahead(patches, revision)|
  {
    if revision in patches then
      assert Ahead(patches, revision) == Ahead(patches, revision + 1) + {revision};
      Replay(ApplyPatch(m, patches[revision]), revision + 1, patches)
    else (m, revision)
  }

  /** The patch takes the r-th committed membership to the next one. */
  ghost predicate Links(history: seq<Membership>, r: nat, patch: GroupMembersPatch) {
    r + 1 < |history| && Agree(ApplyPatch(history[r], patch), history[r + 1])
  }

  /** Replay stops exactly at the first revision whose patch is missing. */
  lemma {:induction false} ReplayStopsAtGap(m: Membership, revision: nat, patches: Patches)
    ensures var stop := Replay(m, revision, patches).1;
      stop >= revision && stop !in patches && forall r :: revision <= r < stop ==> r in patches
    decreases |Ahead(patches, revision)|
  {
    if revision in patches {
      assert Ahead(patches, revision) == Ahead(patches, revision + 1) + {revision};
      ReplayStopsAtGap(ApplyPatch(m, patches[revision]), revision + 1, patches);
    }
  }

  /** Patches of the history keep a replayed membership on the history. */
  lemma {:induction false} ReplayFollowsHistory(m: Membership, revision: nat, patches: Patches,
      history: seq<Membership>)
    requires revision < |history| && Agree(m, history[revision])
    requires forall r :: r in patches ==> Links(history, r, patches[r])
    ensures var (m', stop) := Replay(m, revision, patches); stop < |history| && Agree(m', history[stop])
    decreases |Ahead(patches, revision)|
  {
    if revision in patches {
      assert Ahead(patches, revision) == Ahead(patches, revision + 1) + {revision};
      LinkedStep(m, revision, patches[revision], history);
      ReplayFollowsHistory(ApplyPatch(m, patches[revision]), revision + 1, patches, history);
    }
  }

  lemma LinkedStep(m: Membership, revision: nat, patch: GroupMembersPatch, history: seq<Membership>)
    requires revision < |history| && Agree(m, history[revision]) && Links(history, revision, patch)
    ensures Agree(ApplyPatch(m, patch), history[revision + 1])
  {
  }
}
