/**
 Endpoint groups: members, patches, and the comparison that decides whether a
 member has changed.
 */
module Groups {
  import opened PolicyRules

  /** The group of all endpoints that have named ports. */
  const AllEpWithNamedPort: string := "all-endpoints-with-named-port"

  datatype EndpointReference = EndpointReference(externalIDName: string, externalIDValue: string)

  datatype NamedPort = NamedPort(name: string, port: int, protocol: Protocol)

  datatype GroupMember = GroupMember(ref: EndpointReference, agents: seq<string>, ips: seq<string>,
                                     ports: seq<NamedPort>)

  datatype GroupMembers = GroupMembers(revision: nat, members: seq<GroupMember>)

  datatype GroupMembersPatch = GroupMembersPatch(added: seq<GroupMember>, updated: seq<GroupMember>,
      removed: seq<GroupMember>)

  /** A membership by endpoint reference. */
  type Membership = map<EndpointReference, GroupMember>

  function Elements<T>(s: seq<T>): set<T> { set x | x in s }

  predicate EqualIPs(ips1: seq<string>, ips2: seq<string>) {
    |ips1| == |ips2| && Elements(ips1) == Elements(ips2)
  }

  /** The order of the addresses does not matter, and without repetitions nothing else can differ. */
  lemma EqualIPsIff(ips1: seq<string>, ips2: seq<string>)
    ensures multiset(ips1) == multiset(ips2) ==> EqualIPs(ips1, ips2)
    ensures (forall ip :: multiset(ips1)[ip] <= 1 && multiset(ips2)[ip] <= 1) ==>
      (EqualIPs(ips1, ips2) <==> multiset(ips1) == multiset(ips2))
  {
    assert forall ip :: ip in ips1 <==> ip in multiset(ips1);
    assert forall ip :: ip in ips2 <==> ip in multiset(ips2);
    if multiset(ips1) == multiset(ips2) {
      assert |multiset(ips1)| == |ips1| && |multiset(ips2)| == |ips2|;
      assert forall ip :: ip in Elements(ips1) <==> ip in Elements(ips2);
    }
    if EqualIPs(ips1, ips2) && forall ip :: multiset(ips1)[ip] <= 1 && multiset(ips2)[ip] <= 1 {
      forall ip
        ensures multiset(ips1)[ip] == multiset(ips2)[ip]
      {
        assert ip in Elements(ips1) <==> ip in Elements(ips2);
      }
    }
  }

  /** All that the diff compares: the IPs and the multiset of agents. */
  predicate SameMember(m: GroupMember, m': GroupMember) {
    EqualIPs(m.ips, m'.ips) && multiset(m.agents) == multiset(m'.agents)
  }

  predicate Agree(m: Membership, m': Membership) {
    m.Keys == m'.Keys && forall r :: r in m ==> SameMember(m[r], m'[r])
  }

  lemma AgreeSymmetric(m: Membership, m': Membership)
    requires Agree(m, m')
    ensures Agree(m', m)
  {
  }

  lemma AgreeTransitive(m1: Membership, m2: Membership, m3: Membership)
    requires Agree(m1, m2) && Agree(m2, m3)
    ensures Agree(m1, m3)
  {
  }

  /** Members by reference; a later duplicate wins, as with assignment in a loop. */
  function ByReference(ms: seq<GroupMember>): (m: Membership)
    ensures forall r :: r in m ==> m[r].ref == r
  {
    if ms == [] then map[]
    else
      var last := ms[|ms| - 1];
      ByReference(ms[..|ms| - 1])[last.ref := last]
  }

  /** Members by reference where the first duplicate stays. */
  function Firsts(ms: seq<GroupMember>): (m: Membership)
    ensures forall r :: r in m ==> m[r].ref == r
  {
    if ms == [] then map[]
    else
      var front, last := Firsts(ms[..|ms| - 1]), ms[|ms| - 1];
      if last.ref in front then front else front[last.ref := last]
  }

  /** The references that are listed more than once. */
  function Repeated(ms: seq<GroupMember>): set<EndpointReference> {
    if ms == [] then {}
    else
      var front, last := ms[..|ms| - 1], ms[|ms| - 1];
      Repeated(front) + if last.ref in ByReference(front) then {last.ref} else {}
  }

  predicate DistinctReferences(ms: seq<GroupMember>) {
    forall i, j :: 0 <= i < j < |ms| ==> ms[i].ref != ms[j].ref
  }

  lemma ByReferenceStep(ms: seq<GroupMember>, i: nat)
    requires i < |ms|
    ensures ByReference(ms[..i + 1]) == ByReference(ms[..i])[ms[i].ref := ms[i]]
  {
    assert ms[..i + 1][..i] == ms[..i];
  }

  /** The references listed by some members. */
  function References(ms: seq<GroupMember>): set<EndpointReference> { set i | 0 <= i < |ms| :: ms[i].ref }

  lemma {:induction false} ByReferenceKeys(ms: seq<GroupMember>)
    ensures ByReference(ms).Keys == References(ms)
  {
    if ms != [] {
      ByReferenceKeys(ms[..|ms| - 1]);
      assert References(ms) == References(ms[..|ms| - 1]) + {ms[|ms| - 1].ref};
    }
  }

  lemma {:induction false} FirstsKeys(ms: seq<GroupMember>)
    ensures Firsts(ms).Keys == ByReference(ms).Keys && Repeated(ms) <= ByReference(ms).Keys
  {
    if ms != [] { FirstsKeys(ms[..|ms| - 1]); }
  }

  lemma {:induction false} DistinctIffNoneRepeated(ms: seq<GroupMember>)
    ensures DistinctReferences(ms) <==> Repeated(ms) == {}
  {
    if ms != [] {
      var front, last := ms[..|ms| - 1], ms[|ms| - 1];
      DistinctIffNoneRepeated(front);
      ByReferenceKeys(front);
      if last.ref in References(front) {
        var i :| 0 <= i < |front| && front[i].ref == last.ref;
        assert ms[i].ref == ms[|ms| - 1].ref;
      } else {
        forall i, j | 0 <= i < j < |ms| && DistinctReferences(front)
          ensures ms[i].ref != ms[j].ref
        {
          assert ms[i] == front[i] && ms[i].ref in References(front);
        }
      }
      if DistinctReferences(ms) {
        assert forall i, j :: 0 <= i < j < |front| ==> ms[i].ref != ms[j].ref;
      }
    }
  }

  lemma {:induction false} DistinctFirsts(ms: seq<GroupMember>)
    requires Repeated(ms) == {}
    ensures Firsts(ms) == ByReference(ms)
  {
    if ms != [] { DistinctFirsts(ms[..|ms| - 1]); }
  }

  lemma {:induction false} ByReferenceAt(ms: seq<GroupMember>, i: nat)
    requires DistinctReferences(ms) && i < |ms|
    ensures ms[i].ref in ByReference(ms) && ByReference(ms)[ms[i].ref] == ms[i]
  {
    if i < |ms| - 1 { ByReferenceAt(ms[..|ms| - 1], i); }
  }

  lemma {:induction false} ByReferenceFrom(ms: seq<GroupMember>, r: EndpointReference)
    requires r in ByReference(ms)
    ensures ByReference(ms)[r] in ms
  {
    if r != ms[|ms| - 1].ref { ByReferenceFrom(ms[..|ms| - 1], r); }
  }

  lemma ReferencesConcat(xs: seq<GroupMember>, ys: seq<GroupMember>)
    ensures References(xs + ys) == References(xs) + References(ys)
  {
    var zs := xs + ys;
    forall r | r in References(xs)
      ensures r in References(zs)
    {
      var i :| 0 <= i < |xs| && xs[i].ref == r;
      assert zs[i].ref == r;
    }
    forall r | r in References(ys)
      ensures r in References(zs)
    {
      var i :| 0 <= i < |ys| && ys[i].ref == r;
      assert zs[|xs| + i].ref == r;
    }
  }

  /** A list of members repeats a reference iff one of its halves does or both have it. */
  lemma DistinctHalves(xs: seq<GroupMember>, ys: seq<GroupMember>)
    ensures DistinctReferences(xs + ys) <==>
      DistinctReferences(xs) && DistinctReferences(ys) && References(xs) !! References(ys)
  {
    var zs := xs + ys;
    assert forall i :: 0 <= i < |xs| ==> zs[i] == xs[i];
    assert forall i :: 0 <= i < |ys| ==> zs[|xs| + i] == ys[i];
    if DistinctReferences(zs) {
      forall i, j | 0 <= i < j < |ys|
        ensures ys[i].ref != ys[j].ref
      {
        assert zs[|xs| + i].ref != zs[|xs| + j].ref;
      }
      forall i, j | 0 <= i < |xs| && 0 <= j < |ys|
        ensures xs[i].ref != ys[j].ref
      {
        assert zs[i].ref != zs[|xs| + j].ref;
      }
    }
    if DistinctReferences(xs) && DistinctReferences(ys) && References(xs) !! References(ys) {
      forall i, j | 0 <= i < j < |zs|
        ensures zs[i].ref != zs[j].ref
      {
        if i < |xs| <= j { assert xs[i].ref in References(xs) && ys[j - |xs|].ref in References(ys); }
        else if |xs| <= i { assert zs[i] == ys[i - |xs|] && zs[j] == ys[j - |xs|]; }
      }
    }
  }

  /** applyGroupMembersPatch and the loops of GroupCache.ApplyPatch: add, update, then remove. */
  function ApplyPatch(m: Membership, patch: GroupMembersPatch): Membership {
    m + ByReference(patch.added) + ByReference(patch.updated) - References(patch.removed)
  }

  /** Applying a patch does not tell apart memberships that the diff does not. */
  lemma ApplyPatchAgrees(m: Membership, m': Membership, patch: GroupMembersPatch)
    requires Agree(m, m')
    ensures Agree(ApplyPatch(m, patch), ApplyPatch(m', patch))
  {
  }

  /** The loop that builds a map of members. */
  method IndexMembers(ms: seq<GroupMember>) returns (m: Membership)
    ensures m == ByReference(ms)
  {
    m := map[];
    for i := 0 to |ms|
      invariant m == ByReference(ms[..i])
    {
      ByReferenceStep(ms, i);
      m := m[ms[i].ref := ms[i]];
    }
    assert ms[..|ms|] == ms;
  }
}
