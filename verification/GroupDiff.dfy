/**
 The controller's diff of two memberships and its replay.
 */
module GroupDiff {
  import opened Groups
  import StringSlices

  function Restrict(m: Membership, refs: set<EndpointReference>): Membership { map r | r in m && r in refs :: m[r] }

  /** The references whose member changed as far as the diff can see. */
  function Changed(prev: Membership, curr: Membership): set<EndpointReference> {
    set r | r in curr && r in prev && !SameMember(prev[r], curr[r])
  }

  function NewMembers(prev: Membership, curr: Membership): Membership { Restrict(curr, curr.Keys - prev.Keys) }

  function ChangedMembers(prev: Membership, curr: Membership): Membership { Restrict(curr, Changed(prev, curr)) }

  /** The patch lists exactly the new, the changed and the gone members. */
  predicate IsDiff(prev: Membership, curr: Membership, patch: GroupMembersPatch) {
    && ByReference(patch.added) == NewMembers(prev, curr)
    && ByReference(patch.updated) == ChangedMembers(prev, curr)
    && ByReference(patch.removed) == Restrict(prev, prev.Keys - curr.Keys)
  }

  predicate IsEmptyPatch(patch: GroupMembersPatch) {
    |patch.removed| == 0 && |patch.added| == 0 && |patch.updated| == 0
  }

  lemma EmptyIffNoReferences(ms: seq<GroupMember>)
    ensures |ms| == 0 <==> ByReference(ms) == map[]
  {
    ByReferenceKeys(ms);
    if |ms| > 0 { assert ms[0].ref in References(ms); }
  }

  /** Diff then apply: prev becomes curr, up to what the diff compares. */
  lemma DiffRoundTrip(prev: Membership, curr: Membership, patch: GroupMembersPatch)
    requires IsDiff(prev, curr, patch)
    ensures Agree(ApplyPatch(prev, patch), curr)
    ensures forall r :: r in curr && (r !in prev || !SameMember(prev[r], curr[r])) ==>
      ApplyPatch(prev, patch)[r] == curr[r]
  {
    ByReferenceKeys(patch.removed);
    var result := ApplyPatch(prev, patch);
    assert result.Keys == curr.Keys;
    forall r | r in curr
      ensures SameMember(result[r], curr[r])
      ensures r !in prev || !SameMember(prev[r], curr[r]) ==> result[r] == curr[r]
    {
      if r !in prev {
        assert r in ByReference(patch.added) && r !in ByReference(patch.updated);
      } else if !SameMember(prev[r], curr[r]) {
        assert r in ByReference(patch.updated);
      } else {
        assert r !in ByReference(patch.added) && r !in ByReference(patch.updated);
      }
    }
  }

  /** The patch is empty iff there was nothing to see. */
  lemma DiffEmptyIff(prev: Membership, curr: Membership, patch: GroupMembersPatch)
    requires IsDiff(prev, curr, patch)
    ensures IsEmptyPatch(patch) <==> Agree(prev, curr)
  {
    EmptyIffNoReferences(patch.added);
    EmptyIffNoReferences(patch.updated);
    EmptyIffNoReferences(patch.removed);
    if curr.Keys - prev.Keys != {} {
      var r :| r in curr.Keys - prev.Keys;
      assert r in ByReference(patch.added);
    } else if prev.Keys - curr.Keys != {} {
      var r :| r in prev.Keys - curr.Keys;
      assert r in ByReference(patch.removed);
    } else if Changed(prev, curr) != {} {
      var r :| r in Changed(prev, curr);
      assert r in ByReference(patch.updated);
    } else {
      assert prev.Keys == curr.Keys;
      assert forall r :: r in prev && !SameMember(prev[r], curr[r]) ==> r in Changed(prev, curr);
    }
  }

  /** A list built by appending is indexed like a map built by assignment. */
  lemma ByReferenceAppend(ms: seq<GroupMember>, m: GroupMember)
    ensures ByReference(ms + [m]) == ByReference(ms)[m.ref := m]
  {
  }

  lemma DistinctAppend(ms: seq<GroupMember>, m: GroupMember)
    requires DistinctReferences(ms) && m.ref !in ByReference(ms)
    ensures DistinctReferences(ms + [m])
  {
    ByReferenceKeys(ms);
    forall i | 0 <= i < |ms|
      ensures ms[i].ref != m.ref
    {
      assert ms[i].ref in References(ms);
    }
  }

  /** Lists the values of a map, in whatever order. */
  method ListMembers(m: Membership) returns (ms: seq<GroupMember>)
    requires forall r :: r in m ==> m[r].ref == r
    ensures ByReference(ms) == m && DistinctReferences(ms)
  {
    ms := [];
    var todo := m.Keys;
    while todo != {}
      invariant todo <= m.Keys && DistinctReferences(ms)
      invariant ByReference(ms) == Restrict(m, m.Keys - todo)
      decreases todo
    {
      var r :| r in todo;
      ByReferenceAppend(ms, m[r]);
      DistinctAppend(ms, m[r]);
      ms := ms + [m[r]];
      todo := todo - {r};
    }
    assert Restrict(m, m.Keys) == m;
  }

  predicate IsUpdate(prev: Membership, member: GroupMember) {
    member.ref in prev && !SameMember(prev[member.ref], member)
  }

  /** New references, and whatever is listed again. */
  function AddedReferences(prev: Membership, curr: seq<GroupMember>): set<EndpointReference> {
    (ByReference(curr).Keys - prev.Keys) + Repeated(curr)
  }

  /** Of the added list the last entry of a reference counts. */
  function AddedMembers(prev: Membership, curr: seq<GroupMember>): Membership {
    Restrict(ByReference(curr), AddedReferences(prev, curr))
  }

  /** Of the updated list there is one entry per reference, its first one. */
  function UpdatedMembers(prev: Membership, curr: seq<GroupMember>): Membership { ChangedMembers(prev, Firsts(curr)) }

  /** The two lists hold what the loop puts there for the current members seen so far. */
  ghost predicate Compared(prev: Membership, curr: seq<GroupMember>, added: seq<GroupMember>,
                           updated: seq<GroupMember>) {
    && ByReference(added) == AddedMembers(prev, curr) && (Repeated(curr) == {} ==> DistinctReferences(added))
    && ByReference(updated) == UpdatedMembers(prev, curr) && DistinctReferences(updated)
  }

  lemma OneMore(curr: seq<GroupMember>, m: GroupMember)
    ensures ByReference(curr + [m]) == ByReference(curr)[m.ref := m]
    ensures Repeated(curr + [m]) == Repeated(curr) + if m.ref in ByReference(curr) then {m.ref} else {}
    ensures Firsts(curr + [m]) == if m.ref in ByReference(curr) then Firsts(curr) else Firsts(curr)[m.ref := m]
    ensures Firsts(curr).Keys == ByReference(curr).Keys && Repeated(curr) <= ByReference(curr).Keys
  {
    assert (curr + [m])[..|curr|] == curr;
    FirstsKeys(curr);
  }

  /** What one more current member adds to the two lists. */
  lemma AddedStep(prev: Membership, curr: seq<GroupMember>, m: GroupMember)
    ensures AddedMembers(prev, curr + [m]) ==
      if m.ref in prev && m.ref !in ByReference(curr) then AddedMembers(prev, curr)
      else AddedMembers(prev, curr)[m.ref := m]
  {
    OneMore(curr, m);
    var listed := AddedReferences(prev, curr);
    if m.ref in prev && m.ref !in ByReference(curr) {
      assert AddedReferences(prev, curr + [m]) == listed;
      RestrictOther(ByReference(curr), listed, m);
    } else {
      assert AddedReferences(prev, curr + [m]) == listed + {m.ref};
      RestrictMore(ByReference(curr), listed, m);
    }
  }

  lemma RestrictOther(now: Membership, refs: set<EndpointReference>, m: GroupMember)
    requires m.ref !in refs
    ensures Restrict(now[m.ref := m], refs) == Restrict(now, refs)
  {
  }

  lemma RestrictMore(now: Membership, refs: set<EndpointReference>, m: GroupMember)
    ensures Restrict(now[m.ref := m], refs + {m.ref}) == Restrict(now, refs)[m.ref := m]
  {
  }

  lemma UpdatedStep(prev: Membership, curr: seq<GroupMember>, m: GroupMember)
    ensures UpdatedMembers(prev, curr + [m]) ==
      if IsUpdate(prev, m) && m.ref !in ByReference(curr) then UpdatedMembers(prev, curr)[m.ref := m]
      else UpdatedMembers(prev, curr)
  {
    OneMore(curr, m);
    if m.ref !in ByReference(curr) { ChangedStep(prev, Firsts(curr), m); }
  }

  lemma ChangedStep(prev: Membership, seen: Membership, m: GroupMember)
    requires m.ref !in seen
    ensures ChangedMembers(prev, seen[m.ref := m]) ==
      if IsUpdate(prev, m) then ChangedMembers(prev, seen)[m.ref := m] else ChangedMembers(prev, seen)
  {
  }

  lemma ComparedStep(prev: Membership, curr: seq<GroupMember>, added: seq<GroupMember>, updated: seq<GroupMember>,
                     m: GroupMember)
    requires Compared(prev, curr, added, updated)
    ensures var seen := m.ref in ByReference(curr);
      Compared(prev, curr + [m],
               if m.ref !in prev || seen then added + [m] else added,
               if IsUpdate(prev, m) && !seen then updated + [m] else updated)
  {
    OneMore(curr, m);
    AddedStep(prev, curr, m);
    UpdatedStep(prev, curr, m);
    ByReferenceAppend(added, m);
    ByReferenceAppend(updated, m);
    if m.ref !in ByReference(curr) {
      if Repeated(curr) == {} && m.ref !in prev { DistinctAppend(added, m); }
      if IsUpdate(prev, m) { DistinctAppend(updated, m); }
    }
  }

  /** After some of the current members; `left` is what remains of prevEpMap. */
  ghost predicate Halfway(prev: Membership, seen: seq<GroupMember>, added: seq<GroupMember>,
                          updated: seq<GroupMember>, left: Membership) {
    left == prev - ByReference(seen).Keys && Compared(prev, seen, added, updated)
  }

  lemma HalfwayStep(prev: Membership, seen: seq<GroupMember>, added: seq<GroupMember>, updated: seq<GroupMember>,
                    left: Membership, m: GroupMember)
    requires Halfway(prev, seen, added, updated, left)
    ensures Halfway(prev, seen + [m], if m.ref !in left then added + [m] else added,
                    if IsUpdate(left, m) then updated + [m] else updated, left - {m.ref})
  {
    LeftTells(prev, ByReference(seen), m);
    ComparedStep(prev, seen, added, updated, m);
    OneMore(seen, m);
  }

  /** What remains of prevEpMap tells new members from updates, and how it shrinks. */
  lemma LeftTells(prev: Membership, seen: Membership, m: GroupMember)
    ensures var left := prev - seen.Keys;
      && (m.ref !in left <==> m.ref !in prev || m.ref in seen)
      && (IsUpdate(left, m) <==> IsUpdate(prev, m) && m.ref !in seen)
      && left - {m.ref} == prev - seen[m.ref := m].Keys
  {
  }

  method CompareOne(ghost prev: Membership, ghost seen: seq<GroupMember>, added: seq<GroupMember>,
                    updated: seq<GroupMember>, left: Membership, member: GroupMember)
    returns (added': seq<GroupMember>, updated': seq<GroupMember>, left': Membership)
    requires Halfway(prev, seen, added, updated, left)
    ensures Halfway(prev, seen + [member], added', updated', left')
  {
    HalfwayStep(prev, seen, added, updated, left, member);
    var isNew, isUpdate := Classify(left, member);
    added', updated', left' := added, updated, left - {member.ref};
    if isNew {
      added' := added + [member];
    } else if isUpdate {
      updated' := updated + [member];
    }
  }

  /** The loop of ToGroupMembersPatch over the current members. */
  method CompareMembers(prev: Membership, curr: seq<GroupMember>)
    returns (added: seq<GroupMember>, updated: seq<GroupMember>, left: Membership)
    ensures Halfway(prev, curr, added, updated, left)
  {
    added, updated, left := [], [], prev;
    StartHalfway(prev);
    for i := 0 to |curr|
      invariant Halfway(prev, curr[..i], added, updated, left)
    {
      assert curr[..i] + [curr[i]] == curr[..i + 1];
      added, updated, left := CompareOne(prev, curr[..i], added, updated, left, curr[i]);
    }
    assert curr[..|curr|] == curr;
  }

  lemma StartHalfway(prev: Membership)
    ensures Halfway(prev, [], [], [], prev)
  {
    assert prev - {} == prev;
  }

  method Classify(prev: Membership, member: GroupMember) returns (isNew: bool, isUpdate: bool)
    ensures isNew <==> member.ref !in prev
    ensures isUpdate <==> IsUpdate(prev, member)
  {
    if member.ref !in prev {
      return true, false;
    }
    var prevEp := prev[member.ref];
    var sameAgents := StringSlices.EqualStringSlice(prevEp.agents, member.agents);
    return false, !EqualIPs(prevEp.ips, member.ips) || !sameAgents;
  }

  /** What the patch lists for any list of current members. */
  predicate IsListDiff(prev: Membership, curr: seq<GroupMember>, patch: GroupMembersPatch) {
    && ByReference(patch.added) == AddedMembers(prev, curr)
    && ByReference(patch.updated) == UpdatedMembers(prev, curr)
    && ByReference(patch.removed) == Restrict(prev, prev.Keys - ByReference(curr).Keys)
  }

  /** Each reference once: the patch is the diff of the two memberships. */
  lemma DistinctDiff(prev: Membership, curr: seq<GroupMember>, patch: GroupMembersPatch)
    requires IsListDiff(prev, curr, patch) && DistinctReferences(curr)
    ensures IsDiff(prev, ByReference(curr), patch)
  {
    DistinctIffNoneRepeated(curr);
    DistinctFirsts(curr);
  }

  /**
   Nothing is overwritten by an earlier entry: where the first entry of a
   reference is an update, the last one does not differ from it.
   */
  predicate Replays(prev: Membership, curr: seq<GroupMember>) {
    forall r :: r in UpdatedMembers(prev, curr) && r in ByReference(curr) ==>
                SameMember(UpdatedMembers(prev, curr)[r], ByReference(curr)[r])
  }

  /** Replaying the patch gives what the snapshot says iff no last entry is overwritten. */
  lemma DiffReplaysIff(prev: Membership, curr: seq<GroupMember>, patch: GroupMembersPatch)
    requires IsListDiff(prev, curr, patch)
    ensures Agree(ApplyPatch(prev, patch), ByReference(curr)) <==> Replays(prev, curr)
  {
    ReplayedKeys(prev, curr, patch);
    forall r | r in ByReference(curr)
      ensures SameMember(ApplyPatch(prev, patch)[r], ByReference(curr)[r]) <==>
        (r in UpdatedMembers(prev, curr) ==> SameMember(UpdatedMembers(prev, curr)[r], ByReference(curr)[r]))
    {
      ReplayedAt(prev, curr, patch, r);
    }
  }

  lemma ReplayedKeys(prev: Membership, curr: seq<GroupMember>, patch: GroupMembersPatch)
    requires IsListDiff(prev, curr, patch)
    ensures ApplyPatch(prev, patch).Keys == ByReference(curr).Keys
  {
    ByReferenceKeys(patch.removed);
    FirstsKeys(curr);
  }

  lemma ReplayedAt(prev: Membership, curr: seq<GroupMember>, patch: GroupMembersPatch, r: EndpointReference)
    requires IsListDiff(prev, curr, patch) && r in ByReference(curr) && r in ApplyPatch(prev, patch)
    ensures SameMember(ApplyPatch(prev, patch)[r], ByReference(curr)[r]) <==>
      (r in UpdatedMembers(prev, curr) ==> SameMember(UpdatedMembers(prev, curr)[r], ByReference(curr)[r]))
  {
    ByReferenceKeys(patch.removed);
    FirstsKeys(curr);
    if r !in Repeated(curr) { OnceIsFirst(curr, r); }
  }

  lemma {:induction false} OnceIsFirst(ms: seq<GroupMember>, r: EndpointReference)
    requires r in ByReference(ms) && r !in Repeated(ms)
    ensures r in Firsts(ms) && Firsts(ms)[r] == ByReference(ms)[r]
  {
    var front, last := ms[..|ms| - 1], ms[|ms| - 1];
    FirstsKeys(front);
    if r != last.ref { OnceIsFirst(front, r); }
  }

  /** The patch is empty iff there was nothing to see and nothing is listed twice. */
  lemma DiffEmptyIffDistinct(prev: Membership, curr: seq<GroupMember>, patch: GroupMembersPatch)
    requires IsListDiff(prev, curr, patch)
    ensures IsEmptyPatch(patch) <==> Agree(prev, ByReference(curr)) && DistinctReferences(curr)
  {
    DistinctIffNoneRepeated(curr);
    if Repeated(curr) == {} {
      DistinctDiff(prev, curr, patch);
      DiffEmptyIff(prev, ByReference(curr), patch);
    } else {
      FirstsKeys(curr);
      var r :| r in Repeated(curr);
      assert r in ByReference(patch.added);
      EmptyIffNoReferences(patch.added);
    }
  }

  /** All entries of a reference look the same to the diff. */
  predicate Steady(curr: seq<GroupMember>) {
    forall r :: r in Firsts(curr) && r in ByReference(curr) ==> SameMember(Firsts(curr)[r], ByReference(curr)[r])
  }

  /** Whatever was committed before, the patch replays to the snapshot iff all entries of a reference look the same. */
  lemma SteadyIff(curr: seq<GroupMember>)
    ensures Steady(curr) <==> forall prev :: Replays(prev, curr)
  {
    if !Steady(curr) {
      var r :| r in Firsts(curr) && r in ByReference(curr) && !SameMember(Firsts(curr)[r], ByReference(curr)[r]);
      var prev := map[r := ByReference(curr)[r]];
      assert r in UpdatedMembers(prev, curr);
      assert !Replays(prev, curr);
    }
  }

  lemma DistinctIsSteady(curr: seq<GroupMember>)
    requires DistinctReferences(curr)
    ensures Steady(curr)
  {
    DistinctIffNoneRepeated(curr);
    DistinctFirsts(curr);
  }

  /** ToGroupMembersPatch, for every list of current members. */
  method ToGroupMembersPatch(prev: seq<GroupMember>, curr: seq<GroupMember>) returns (patch: GroupMembersPatch)
    ensures IsListDiff(ByReference(prev), curr, patch)
    ensures DistinctReferences(curr) ==> IsDiff(ByReference(prev), ByReference(curr), patch)
    ensures DistinctReferences(curr) ==> DistinctReferences(patch.added + patch.updated + patch.removed)
    ensures IsEmptyPatch(patch) <==> Agree(ByReference(prev), ByReference(curr)) && DistinctReferences(curr)
    ensures Agree(ApplyPatch(ByReference(prev), patch), ByReference(curr)) <==> Replays(ByReference(prev), curr)
  {
    var prevEpMap := IndexMembers(prev);
    var added, updated, left := CompareMembers(prevEpMap, curr);
    var removed := ListMembers(left);
    patch := GroupMembersPatch(added, updated, removed);
    assert left == Restrict(prevEpMap, prevEpMap.Keys - ByReference(curr).Keys);
    DiffEmptyIffDistinct(prevEpMap, curr, patch);
    DiffReplaysIff(prevEpMap, curr, patch);
    if DistinctReferences(curr) { DistinctPatch(prevEpMap, curr, patch); }
  }

  lemma DistinctPatch(prev: Membership, curr: seq<GroupMember>, patch: GroupMembersPatch)
    requires Compared(prev, curr, patch.added, patch.updated) && DistinctReferences(curr)
    requires ByReference(patch.removed) == Restrict(prev, prev.Keys - ByReference(curr).Keys)
    requires DistinctReferences(patch.removed)
    ensures IsDiff(prev, ByReference(curr), patch)
    ensures DistinctReferences(patch.added + patch.updated + patch.removed)
  {
    DistinctIffNoneRepeated(curr);
    DistinctDiff(prev, curr, patch);
    DistinctConcat(patch.added, patch.updated);
    DistinctConcat(patch.added + patch.updated, patch.removed);
  }

  /** An endpoint that is listed twice is added again, although nothing has changed. */
  lemma ListedTwiceExample(e: GroupMember, patch: GroupMembersPatch)
    requires IsListDiff(ByReference([e]), [e, e], patch)
    ensures Agree(ByReference([e]), ByReference([e, e])) && !IsEmptyPatch(patch)
  {
    assert [e, e][..1] == [e] && [e][..0] == [];
    assert [e, e][0].ref == [e, e][1].ref;
    DiffEmptyIffDistinct(ByReference([e]), [e, e], patch);
  }

  lemma OnlyOne(e: GroupMember)
    ensures ByReference([e]) == Firsts([e]) == map[e.ref := e]
  {
    assert [e][..0] == [];
  }

  lemma PairOf(e1: GroupMember, e2: GroupMember)
    requires e1.ref == e2.ref
    ensures ByReference([e1, e2]) == map[e1.ref := e2] && Firsts([e1, e2]) == map[e1.ref := e1]
  {
    OnlyOne(e1);
    OneMore([e1], e2);
    assert [e1] + [e2] == [e1, e2];
  }

  /**
   Two entries with one reference and different addresses, where the last one was
   there before: the snapshot keeps it and replaying the patch ends at the other.
   */
  lemma ReplicasDisagreeExample(e1: GroupMember, e2: GroupMember, patch: GroupMembersPatch)
    requires e1.ref == e2.ref && !SameMember(e1, e2)
    requires IsListDiff(ByReference([e2]), [e1, e2], patch)
    ensures ByReference([e1, e2]) == map[e1.ref := e2] && ApplyPatch(ByReference([e2]), patch) == map[e1.ref := e1]
    ensures !Agree(ApplyPatch(ByReference([e2]), patch), ByReference([e1, e2]))
  {
    PairOf(e1, e2);
    OnlyOne(e2);
    ByReferenceKeys(patch.removed);
    assert e1.ref in Changed(ByReference([e2]), Firsts([e1, e2]));
    assert ByReference(patch.updated) == map[e1.ref := e1];
  }

  lemma DistinctConcat(xs: seq<GroupMember>, ys: seq<GroupMember>)
    requires DistinctReferences(xs) && DistinctReferences(ys) && ByReference(xs).Keys !! ByReference(ys).Keys
    ensures DistinctReferences(xs + ys) && ByReference(xs + ys).Keys == ByReference(xs).Keys + ByReference(ys).Keys
  {
    ByReferenceKeys(xs);
    ByReferenceKeys(ys);
    ByReferenceKeys(xs + ys);
    ReferencesConcat(xs, ys);
    DistinctHalves(xs, ys);
  }
}
