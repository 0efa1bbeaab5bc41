/**
 Which endpoints a group selects, and which groups the controller reconciles
 when an endpoint changes.
 */
module GroupSelection {
  import opened Strings
  import opened Groups

  datatype EndpointID = EndpointID(namespace: string, name: string)

  /** Labels and selectors are opaque here; `selects` below says which selector matches which labels. */
  datatype Endpoint = Endpoint(id: EndpointID, labels: string, ref: EndpointReference, ips: seq<string>,
                               agents: seq<string>, ports: seq<NamedPort>)

  datatype EndpointGroup = EndpointGroup(
    name: string, endpoint: Option<EndpointID>, namespace: Option<string>, namespaceSelector: Option<string>,
    endpointSelector: Option<string>)

  type Selects = (string, string) -> bool

  /** Labels of the existing namespaces. */
  type Namespaces = map<string, string>

  /** filterEndpointGroupsByEndpoint on one group. */
  predicate Filtered(g: EndpointGroup, ep: Endpoint, ns: Namespaces, selects: Selects) {
    ep.id.namespace in ns &&
    if g.name == AllEpWithNamedPort then |ep.ports| > 0
    else if g.endpoint == Some(ep.id) then true
    else
      && (g.namespace.Some? ==> ep.id.namespace == g.namespace.value)
      && (g.namespaceSelector.Some? ==> selects(g.namespaceSelector.value, ns[ep.id.namespace]))
      && g.endpointSelector.Some? && selects(g.endpointSelector.value, ep.labels)
  }

  /** The namespaces that fetchCurrGroupMembers lists endpoints of. */
  predicate NamespaceMatched(g: EndpointGroup, namespace: string, ns: Namespaces, selects: Selects) {
    if g.namespace.None? && g.namespaceSelector.None? then true
    else if g.namespace.Some? then namespace == g.namespace.value
    else namespace in ns && selects(g.namespaceSelector.value, ns[namespace])
  }

  predicate Named(g: EndpointGroup, ep: Endpoint) { g.endpoint == Some(ep.id) }

  predicate Matched(g: EndpointGroup, ep: Endpoint, ns: Namespaces, selects: Selects) {
    && NamespaceMatched(g, ep.id.namespace, ns, selects)
    && g.endpointSelector.Some? && selects(g.endpointSelector.value, ep.labels)
  }

  /** fetchCurrGroupMembers on one endpoint: named directly, or in a matched namespace and matched by the selector. */
  predicate Selected(g: EndpointGroup, ep: Endpoint, ns: Namespaces, selects: Selects) {
    Named(g, ep) || Matched(g, ep, ns, selects)
  }

  /** An endpoint without addresses is skipped, and for the group of all endpoints one without named ports. */
  predicate Usable(g: EndpointGroup, ep: Endpoint) {
    |ep.ips| > 0 && (g.name == AllEpWithNamedPort ==> |ep.ports| > 0)
  }

  function AsMember(ep: Endpoint): GroupMember { GroupMember(ep.ref, ep.agents, ep.ips, ep.ports) }

  /** What the endpoint contributes to the membership. */
  function Contribution(g: EndpointGroup, ep: Endpoint, ns: Namespaces, selects: Selects): Option<GroupMember> {
    if Selected(g, ep, ns, selects) && Usable(g, ep) then Some(AsMember(ep)) else None
  }

  /** Equal as far as the diff of memberships goes. */
  predicate SameContribution(x: Option<GroupMember>, y: Option<GroupMember>) {
    (x.None? && y.None?) || (x.Some? && y.Some? && x.value.ref == y.value.ref && SameMember(x.value, y.value))
  }

  /** As the webhook admits groups, and the group of all endpoints as the controller creates it. */
  ghost predicate ProperGroup(g: EndpointGroup, selects: Selects) {
    && !(g.namespace.Some? && g.namespaceSelector.Some?)
    && (g.name == AllEpWithNamedPort ==>
          g.endpoint.None? && g.namespace.None? && g.namespaceSelector.None? && g.endpointSelector.Some?
          && forall l :: selects(g.endpointSelector.value, l))
  }

  /** The filter finds exactly the groups that select the endpoint, and none if the endpoint's namespace is gone. */
  lemma FilteredIffSelected(g: EndpointGroup, ep: Endpoint, ns: Namespaces, selects: Selects)
    requires ProperGroup(g, selects)
    ensures Filtered(g, ep, ns, selects) <==>
      ep.id.namespace in ns && Selected(g, ep, ns, selects) && (g.name == AllEpWithNamedPort ==> |ep.ports| > 0)
  {
  }

  datatype Event = Added(ep: Endpoint) | Updated(old_: Endpoint, new_: Endpoint) | Deleted(ep: Endpoint)

  /** updateEndpoint's early return. */
  predicate LooksUnchanged(old_: Endpoint, new_: Endpoint) {
    old_.labels == new_.labels && EqualIPs(new_.ips, old_.ips) && multiset(new_.agents) == multiset(old_.agents)
  }

  /** The group is put on the work queue. */
  predicate Enqueued(g: EndpointGroup, e: Event, ns: Namespaces, selects: Selects) {
    match e
    case Added(ep) => |ep.ips| > 0 && Filtered(g, ep, ns, selects)
    case Updated(o, n) => !LooksUnchanged(o, n) && (Filtered(g, o, ns, selects) || Filtered(g, n, ns, selects))
    case Deleted(ep) => Filtered(g, ep, ns, selects)
  }

  function Before(g: EndpointGroup, e: Event, ns: Namespaces, selects: Selects): Option<GroupMember> {
    match e
    case Added(_) => None
    case Updated(o, _) => Contribution(g, o, ns, selects)
    case Deleted(ep) => Contribution(g, ep, ns, selects)
  }

  function After(g: EndpointGroup, e: Event, ns: Namespaces, selects: Selects): Option<GroupMember> {
    match e
    case Added(ep) => Contribution(g, ep, ns, selects)
    case Updated(_, n) => Contribution(g, n, ns, selects)
    case Deleted(_) => None
  }

  /** The webhook keeps an endpoint's reference, and its id is its identity. */
  predicate ProperEvent(e: Event) { e.Updated? ==> e.old_.id == e.new_.id && e.old_.ref == e.new_.ref }

  function EventID(e: Event): EndpointID { if e.Updated? then e.new_.id else e.ep.id }

  predicate Changes(g: EndpointGroup, e: Event, ns: Namespaces, selects: Selects) {
    !SameContribution(Before(g, e, ns, selects), After(g, e, ns, selects))
  }

  /** Named ports appear or disappear while labels, addresses and agents stay. */
  predicate PortsOnly(g: EndpointGroup, e: Event) {
    && g.name == AllEpWithNamedPort && e.Updated? && LooksUnchanged(e.old_, e.new_) && |e.old_.ips| > 0
    && ((|e.old_.ports| == 0) != (|e.new_.ports| == 0))
  }

  /** The endpoint's namespace cannot be read, as when it is deleted before its endpoints. */
  predicate NamespaceGone(e: Event, ns: Namespaces) { EventID(e).namespace !in ns }

  /**
   An endpoint event that changes a group's membership gets the group reconciled,
   with two exact exceptions: an endpoint that gains its first or loses its last
   named port, and changes in nothing else, goes unnoticed by the group of all
   endpoints with named ports; and no group notices an endpoint whose namespace
   cannot be read.
   */
  lemma ChangesEnqueuedIff(g: EndpointGroup, e: Event, ns: Namespaces, selects: Selects)
    requires ProperGroup(g, selects) && ProperEvent(e)
    ensures Changes(g, e, ns, selects) ==> (Enqueued(g, e, ns, selects) <==> !PortsOnly(g, e) && !NamespaceGone(e, ns))
    ensures PortsOnly(g, e) ==> Changes(g, e, ns, selects)
  {
  }

  /** Whose deletion nobody notices once the namespace is gone: the endpoint that a group names. */
  lemma UnnoticedDeletionExample(ep: Endpoint, selects: Selects)
    requires |ep.ips| > 0
    ensures var g := EndpointGroup("g", Some(ep.id), None, None, None);
      ProperGroup(g, selects) && Changes(g, Deleted(ep), map[], selects) && !Enqueued(g, Deleted(ep), map[], selects)
  {
  }

  /** An endpoint that loses its only named port stays a member of the group of all endpoints with named ports. */
  lemma UnnoticedPortsExample(ep: Endpoint, selector: string, selects: Selects)
    requires |ep.ips| > 0 && |ep.ports| > 0 && forall l :: selects(selector, l)
    ensures var g := EndpointGroup(AllEpWithNamedPort, None, None, None, Some(selector));
      var e := Updated(ep, ep.(ports := []));
      ProperGroup(g, selects) && ProperEvent(e) && Changes(g, e, map[ep.id.namespace := ""], selects)
      && !Enqueued(g, e, map[ep.id.namespace := ""], selects)
  {
  }

  /** The usable ones among some endpoints, as members. */
  function MembersOf(g: EndpointGroup, eps: seq<Endpoint>): seq<GroupMember> {
    if eps == [] then []
    else
      var last := eps[|eps| - 1];
      MembersOf(g, eps[..|eps| - 1]) + if Usable(g, last) then [AsMember(last)] else []
  }

  function Kept(eps: seq<Endpoint>, keep: Endpoint -> bool): seq<Endpoint> {
    if eps == [] then []
    else
      var last := eps[|eps| - 1];
      Kept(eps[..|eps| - 1], keep) + if keep(last) then [last] else []
  }

  function ByName(g: EndpointGroup): Endpoint -> bool { ep => Named(g, ep) }

  function BySelector(g: EndpointGroup, ns: Namespaces, selects: Selects): Endpoint -> bool {
    ep => Matched(g, ep, ns, selects)
  }

  /** The named endpoint, if it exists, and then the matched ones: what is both comes twice. */
  function CurrentEndpoints(g: EndpointGroup, eps: seq<Endpoint>, ns: Namespaces, selects: Selects): seq<Endpoint> {
    Kept(eps, ByName(g)) + Kept(eps, BySelector(g, ns, selects))
  }

  predicate DistinctIDs(eps: seq<Endpoint>) { forall i, j :: 0 <= i < j < |eps| ==> eps[i].id != eps[j].id }

  /**
   The group lists the endpoint as this member: it names the endpoint, or its
   selector matches and, if the group has a namespace or a selector for namespaces,
   so does that; the endpoint has an address and, for the group of all endpoints
   with named ports, a named port; and the member is the endpoint, field by field.
   */
  predicate Lists(g: EndpointGroup, ep: Endpoint, ns: Namespaces, selects: Selects, m: GroupMember) {
    && (|| g.endpoint == Some(ep.id)
        || (&& g.endpointSelector.Some? && selects(g.endpointSelector.value, ep.labels)
            && (g.namespace.Some? ==> g.namespace.value == ep.id.namespace)
            && (g.namespace.None? && g.namespaceSelector.Some? ==>
                  ep.id.namespace in ns && selects(g.namespaceSelector.value, ns[ep.id.namespace]))))
    && ep.ips != [] && (g.name == "all-endpoints-with-named-port" ==> ep.ports != [])
    && m.ref == ep.ref && m.agents == ep.agents && m.ips == ep.ips && m.ports == ep.ports
  }

  lemma ListsIff(g: EndpointGroup, ep: Endpoint, ns: Namespaces, selects: Selects, m: GroupMember)
    ensures Lists(g, ep, ns, selects, m) <==>
      (Named(g, ep) || Matched(g, ep, ns, selects)) && Usable(g, ep) && m == AsMember(ep)
  {
  }

  lemma {:induction false} InKept(eps: seq<Endpoint>, keep: Endpoint -> bool, ep: Endpoint)
    ensures ep in Kept(eps, keep) <==> ep in eps && keep(ep)
  {
    if eps != [] {
      InKept(eps[..|eps| - 1], keep, ep);
      assert eps == eps[..|eps| - 1] + [eps[|eps| - 1]];
    }
  }

  lemma {:induction false} InMembers(g: EndpointGroup, eps: seq<Endpoint>, m: GroupMember)
    ensures m in MembersOf(g, eps) <==> exists ep :: ep in eps && Usable(g, ep) && m == AsMember(ep)
  {
    if eps != [] {
      InMembers(g, eps[..|eps| - 1], m);
      assert eps == eps[..|eps| - 1] + [eps[|eps| - 1]];
    }
  }

  lemma ListedMembers(g: EndpointGroup, eps: seq<Endpoint>, ns: Namespaces, selects: Selects)
    ensures forall m :: m in MembersOf(g, CurrentEndpoints(g, eps, ns, selects)) <==>
                        exists i :: 0 <= i < |eps| && Lists(g, eps[i], ns, selects, m)
  {
    forall m
      ensures m in MembersOf(g, CurrentEndpoints(g, eps, ns, selects)) <==>
        exists i :: 0 <= i < |eps| && Lists(g, eps[i], ns, selects, m)
    {
      ListedMember(g, eps, ns, selects, m);
    }
  }

  lemma ListedMember(g: EndpointGroup, eps: seq<Endpoint>, ns: Namespaces, selects: Selects, m: GroupMember)
    ensures m in MembersOf(g, CurrentEndpoints(g, eps, ns, selects)) <==>
      exists i :: 0 <= i < |eps| && Lists(g, eps[i], ns, selects, m)
  {
    var current := CurrentEndpoints(g, eps, ns, selects);
    InMembers(g, current, m);
    forall ep
      ensures ep in current <==> ep in eps && (Named(g, ep) || Matched(g, ep, ns, selects))
      ensures Lists(g, ep, ns, selects, m) <==>
        (Named(g, ep) || Matched(g, ep, ns, selects)) && Usable(g, ep) && m == AsMember(ep)
    {
      InKept(eps, ByName(g), ep);
      InKept(eps, BySelector(g, ns, selects), ep);
      ListsIff(g, ep, ns, selects, m);
    }
    if m in MembersOf(g, current) {
      var ep :| ep in current && Usable(g, ep) && m == AsMember(ep);
      var i :| 0 <= i < |eps| && eps[i] == ep;
      assert Lists(g, eps[i], ns, selects, m);
    }
    if i :| 0 <= i < |eps| && Lists(g, eps[i], ns, selects, m) { assert eps[i] in current; }
  }

  /** The endpoint lists of the matched namespaces come one after the other; `eps` is all endpoints in that order. */
  method FetchCurrGroupMembers(g: EndpointGroup, eps: seq<Endpoint>, ns: Namespaces, selects: Selects)
    returns (members: seq<GroupMember>)
    requires DistinctIDs(eps)
    ensures members == MembersOf(g, CurrentEndpoints(g, eps, ns, selects))
    ensures forall m :: m in members <==> exists i :: 0 <= i < |eps| && Lists(g, eps[i], ns, selects, m)
    ensures forall r :: r in References(members) <==> Contributes(g, eps, ns, selects, r)
    ensures DistinctReferences(members) <==> !ListsTwice(g, eps, ns, selects)
  {
    var matched := MatchEndpoints(g, eps, ns, selects);
    members := ToMembers(g, matched);
    ListedMembers(g, eps, ns, selects);
    ListedReferences(g, eps, ns, selects);
    ListsTwiceIff(g, eps, ns, selects);
  }

  method MatchEndpoints(g: EndpointGroup, eps: seq<Endpoint>, ns: Namespaces, selects: Selects)
    returns (matched: seq<Endpoint>)
    requires DistinctIDs(eps)
    ensures matched == CurrentEndpoints(g, eps, ns, selects)
  {
    matched := GetNamed(g, eps);
    for i := 0 to |eps|
      invariant matched == Kept(eps, ByName(g)) + Kept(eps[..i], BySelector(g, ns, selects))
    {
      assert eps[..i + 1][..i] == eps[..i];
      if Matched(g, eps[i], ns, selects) {
        matched := matched + [eps[i]];
      }
    }
    assert eps[..|eps|] == eps;
  }

  method ToMembers(g: EndpointGroup, eps: seq<Endpoint>) returns (members: seq<GroupMember>)
    ensures members == MembersOf(g, eps)
  {
    members := [];
    for i := 0 to |eps|
      invariant members == MembersOf(g, eps[..i])
    {
      assert eps[..i + 1][..i] == eps[..i];
      if |eps[i].ips| == 0 {
        continue;
      }
      if g.name == AllEpWithNamedPort && |eps[i].ports| == 0 {
        continue;
      }
      members := members + [AsMember(eps[i])];
    }
    assert eps[..|eps|] == eps;
  }

  /** Reading the endpoint that the group names. */
  method GetNamed(g: EndpointGroup, eps: seq<Endpoint>) returns (found: seq<Endpoint>)
    requires DistinctIDs(eps)
    ensures found == Kept(eps, ByName(g))
  {
    for i := 0 to |eps|
      invariant Kept(eps[..i], ByName(g)) == []
    {
      assert eps[..i + 1][..i] == eps[..i];
      if Named(g, eps[i]) {
        NoOtherNamed(g, eps, i, |eps|);
        assert eps[..|eps|] == eps;
        return [eps[i]];
      }
    }
    assert eps[..|eps|] == eps;
    return [];
  }

  lemma {:induction false} NoOtherNamed(g: EndpointGroup, eps: seq<Endpoint>, i: nat, n: nat)
    requires DistinctIDs(eps) && i < n <= |eps| && Named(g, eps[i]) && Kept(eps[..i], ByName(g)) == []
    ensures Kept(eps[..n], ByName(g)) == [eps[i]]
    decreases n
  {
    assert eps[..n][..n - 1] == eps[..n - 1];
    if i < n - 1 { NoOtherNamed(g, eps, i, n - 1); }
  }

  ghost predicate Contributes(g: EndpointGroup, eps: seq<Endpoint>, ns: Namespaces, selects: Selects,
                              r: EndpointReference) {
    exists i :: 0 <= i < |eps| && Contribution(g, eps[i], ns, selects).Some? && eps[i].ref == r
  }

  /** The named endpoint is matched as well, or two contributing endpoints share a reference. */
  ghost predicate ListsTwice(g: EndpointGroup, eps: seq<Endpoint>, ns: Namespaces, selects: Selects) {
    || (exists i :: 0 <= i < |eps| && Usable(g, eps[i]) && Named(g, eps[i]) && Matched(g, eps[i], ns, selects))
    || (exists i, j :: 0 <= i < j < |eps| && eps[i].ref == eps[j].ref
                       && Contribution(g, eps[i], ns, selects).Some? && Contribution(g, eps[j], ns, selects).Some?)
  }

  lemma {:induction false} MembersConcat(g: EndpointGroup, xs: seq<Endpoint>, ys: seq<Endpoint>)
    ensures MembersOf(g, xs + ys) == MembersOf(g, xs) + MembersOf(g, ys)
    decreases |ys|
  {
    if ys == [] {
      assert xs + ys == xs;
    } else {
      MembersConcat(g, xs, ys[..|ys| - 1]);
      assert (xs + ys)[..|xs + ys| - 1] == xs + ys[..|ys| - 1];
    }
  }

  ghost predicate Yields(g: EndpointGroup, ep: Endpoint, keep: Endpoint -> bool, r: EndpointReference) {
    keep(ep) && Usable(g, ep) && ep.ref == r
  }

  ghost predicate SomeYields(g: EndpointGroup, eps: seq<Endpoint>, keep: Endpoint -> bool, r: EndpointReference) {
    exists i :: 0 <= i < |eps| && Yields(g, eps[i], keep, r)
  }

  lemma YieldsStep(g: EndpointGroup, eps: seq<Endpoint>, keep: Endpoint -> bool, r: EndpointReference)
    requires eps != []
    ensures SomeYields(g, eps, keep, r) <==>
      SomeYields(g, eps[..|eps| - 1], keep, r) || Yields(g, eps[|eps| - 1], keep, r)
  {
    var front := eps[..|eps| - 1];
    if i :| 0 <= i < |front| && Yields(g, front[i], keep, r) { assert eps[i] == front[i]; }
    if i :| 0 <= i < |eps| && Yields(g, eps[i], keep, r) && i < |front| { assert eps[i] == front[i]; }
  }

  /** What one more endpoint adds to the member list. */
  lemma KeptStep(g: EndpointGroup, eps: seq<Endpoint>, keep: Endpoint -> bool)
    requires eps != []
    ensures var last := eps[|eps| - 1];
      var before := MembersOf(g, Kept(eps[..|eps| - 1], keep));
      MembersOf(g, Kept(eps, keep)) == if keep(last) && Usable(g, last) then before + [AsMember(last)] else before
  {
    var front, last := Kept(eps[..|eps| - 1], keep), eps[|eps| - 1];
    if keep(last) {
      assert Kept(eps, keep)[..|front|] == front;
    } else {
      assert Kept(eps, keep) == front;
    }
  }

  lemma {:induction false} KeptReferences(g: EndpointGroup, eps: seq<Endpoint>, keep: Endpoint -> bool,
      r: EndpointReference)
    ensures r in References(MembersOf(g, Kept(eps, keep))) <==> SomeYields(g, eps, keep, r)
  {
    if eps != [] {
      var front, last := eps[..|eps| - 1], eps[|eps| - 1];
      KeptReferences(g, front, keep, r);
      KeptStep(g, eps, keep);
      YieldsStep(g, eps, keep, r);
      if keep(last) && Usable(g, last) { ReferencesAppend(MembersOf(g, Kept(front, keep)), AsMember(last)); }
    }
  }

  lemma ReferencesAppend(ms: seq<GroupMember>, m: GroupMember)
    ensures References(ms + [m]) == References(ms) + {m.ref}
    ensures DistinctReferences(ms + [m]) <==> DistinctReferences(ms) && m.ref !in References(ms)
  {
    assert [m][0].ref in References([m]);
    ReferencesConcat(ms, [m]);
    DistinctHalves(ms, [m]);
  }

  /** Two different endpoints that both yield the reference. */
  ghost predicate YieldTwice(g: EndpointGroup, eps: seq<Endpoint>, keep: Endpoint -> bool) {
    exists i, j :: 0 <= i < j < |eps| && Yields(g, eps[i], keep, eps[j].ref) && Yields(g, eps[j], keep, eps[j].ref)
  }

  lemma YieldTwiceStep(g: EndpointGroup, eps: seq<Endpoint>, keep: Endpoint -> bool)
    requires eps != []
    ensures var front, last := eps[..|eps| - 1], eps[|eps| - 1];
      YieldTwice(g, eps, keep) <==>
      YieldTwice(g, front, keep) || (Yields(g, last, keep, last.ref) && SomeYields(g, front, keep, last.ref))
  {
    var front, last := eps[..|eps| - 1], eps[|eps| - 1];
    assert forall i :: 0 <= i < |front| ==> eps[i] == front[i];
    if i :| 0 <= i < |front| && Yields(g, front[i], keep, last.ref) && Yields(g, last, keep, last.ref) {
      assert Yields(g, eps[i], keep, eps[|front|].ref) && Yields(g, eps[|front|], keep, eps[|front|].ref);
    }
  }

  lemma {:induction false} KeptDistinct(g: EndpointGroup, eps: seq<Endpoint>, keep: Endpoint -> bool)
    ensures DistinctReferences(MembersOf(g, Kept(eps, keep))) <==> !YieldTwice(g, eps, keep)
  {
    if eps != [] {
      var front, last := eps[..|eps| - 1], eps[|eps| - 1];
      KeptDistinct(g, front, keep);
      KeptStep(g, eps, keep);
      YieldTwiceStep(g, eps, keep);
      KeptReferences(g, front, keep, last.ref);
      ReferencesAppend(MembersOf(g, Kept(front, keep)), AsMember(last));
    }
  }

  lemma ListedReferences(g: EndpointGroup, eps: seq<Endpoint>, ns: Namespaces, selects: Selects)
    ensures forall r :: r in References(MembersOf(g, CurrentEndpoints(g, eps, ns, selects)))
                        <==> Contributes(g, eps, ns, selects, r)
  {
    forall r
      ensures r in References(MembersOf(g, CurrentEndpoints(g, eps, ns, selects)))
         <==> Contributes(g, eps, ns, selects, r)
    {
      ContributedIff(g, eps, ns, selects, r);
    }
  }

  lemma ContributedIff(g: EndpointGroup, eps: seq<Endpoint>, ns: Namespaces, selects: Selects, r: EndpointReference)
    ensures r in References(MembersOf(g, CurrentEndpoints(g, eps, ns, selects)))
       <==> Contributes(g, eps, ns, selects, r)
  {
    var named, chosen := ByName(g), BySelector(g, ns, selects);
    MembersConcat(g, Kept(eps, named), Kept(eps, chosen));
    ReferencesConcat(MembersOf(g, Kept(eps, named)), MembersOf(g, Kept(eps, chosen)));
    KeptReferences(g, eps, named, r);
    KeptReferences(g, eps, chosen, r);
    if i :| 0 <= i < |eps| && Contribution(g, eps[i], ns, selects).Some? && eps[i].ref == r {
      assert Yields(g, eps[i], named, r) || Yields(g, eps[i], chosen, r);
    }
  }

  /** The halves share a reference iff some endpoint is in both or two endpoints share it. */
  lemma ListsTwiceIff(g: EndpointGroup, eps: seq<Endpoint>, ns: Namespaces, selects: Selects)
    ensures DistinctReferences(MembersOf(g, CurrentEndpoints(g, eps, ns, selects)))
       <==> !ListsTwice(g, eps, ns, selects)
  {
    var named, chosen := ByName(g), BySelector(g, ns, selects);
    var xs, ys := MembersOf(g, Kept(eps, named)), MembersOf(g, Kept(eps, chosen));
    MembersConcat(g, Kept(eps, named), Kept(eps, chosen));
    DistinctHalves(xs, ys);
    KeptDistinct(g, eps, named);
    KeptDistinct(g, eps, chosen);
    SharedIff(g, eps, named, chosen);
    SplitTwice(g, eps, ns, selects);
  }

  ghost predicate Shared(g: EndpointGroup, eps: seq<Endpoint>, keep: Endpoint -> bool, keep': Endpoint -> bool) {
    exists i, j :: 0 <= i < |eps| && 0 <= j < |eps|
                   && Yields(g, eps[i], keep, eps[j].ref) && Yields(g, eps[j], keep', eps[j].ref)
  }

  lemma SharedIff(g: EndpointGroup, eps: seq<Endpoint>, keep: Endpoint -> bool, keep': Endpoint -> bool)
    ensures References(MembersOf(g, Kept(eps, keep))) !! References(MembersOf(g, Kept(eps, keep')))
       <==> !Shared(g, eps, keep, keep')
  {
    forall r
      ensures r in References(MembersOf(g, Kept(eps, keep))) <==> SomeYields(g, eps, keep, r)
      ensures r in References(MembersOf(g, Kept(eps, keep'))) <==> SomeYields(g, eps, keep', r)
    {
      KeptReferences(g, eps, keep, r);
      KeptReferences(g, eps, keep', r);
    }
    if r :| SomeYields(g, eps, keep, r) && SomeYields(g, eps, keep', r) {
      var i :| 0 <= i < |eps| && Yields(g, eps[i], keep, r);
      var j :| 0 <= j < |eps| && Yields(g, eps[j], keep', r);
      assert Yields(g, eps[i], keep, eps[j].ref) && Yields(g, eps[j], keep', eps[j].ref);
    }
    if i, j :| 0 <= i < |eps| && 0 <= j < |eps|
               && Yields(g, eps[i], keep, eps[j].ref) && Yields(g, eps[j], keep', eps[j].ref) {
      assert SomeYields(g, eps, keep, eps[j].ref) && SomeYields(g, eps, keep', eps[j].ref);
    }
  }

  lemma SplitTwice(g: EndpointGroup, eps: seq<Endpoint>, ns: Namespaces, selects: Selects)
    ensures ListsTwice(g, eps, ns, selects) <==> TakenTwice(g, eps, ByName(g), BySelector(g, ns, selects))
  {
    var named, chosen := ByName(g), BySelector(g, ns, selects);
    if i :| 0 <= i < |eps| && Usable(g, eps[i]) && Named(g, eps[i]) && Matched(g, eps[i], ns, selects) {
      assert Yields(g, eps[i], named, eps[i].ref) && Yields(g, eps[i], chosen, eps[i].ref);
    }
    if i, j :| 0 <= i < j < |eps| && eps[i].ref == eps[j].ref
               && Contribution(g, eps[i], ns, selects).Some? && Contribution(g, eps[j], ns, selects).Some? {
      TwoYield(g, eps, ns, selects, i, j);
    }
    if TakenTwice(g, eps, named, chosen) { TakenTwiceLists(g, eps, ns, selects); }
  }

  ghost predicate TakenTwice(g: EndpointGroup, eps: seq<Endpoint>, keep: Endpoint -> bool, keep': Endpoint -> bool) {
    YieldTwice(g, eps, keep) || YieldTwice(g, eps, keep') || Shared(g, eps, keep, keep')
  }

  lemma TakenTwiceLists(g: EndpointGroup, eps: seq<Endpoint>, ns: Namespaces, selects: Selects)
    requires TakenTwice(g, eps, ByName(g), BySelector(g, ns, selects))
    ensures ListsTwice(g, eps, ns, selects)
  {
    if Shared(g, eps, ByName(g), BySelector(g, ns, selects)) { SharedLists(g, eps, ns, selects); }
  }

  lemma SharedLists(g: EndpointGroup, eps: seq<Endpoint>, ns: Namespaces, selects: Selects)
    requires Shared(g, eps, ByName(g), BySelector(g, ns, selects))
    ensures ListsTwice(g, eps, ns, selects)
  {
    var i, j :| 0 <= i < |eps| && 0 <= j < |eps| && Yields(g, eps[i], ByName(g), eps[j].ref)
                && Yields(g, eps[j], BySelector(g, ns, selects), eps[j].ref);
    assert i == j || i < j || j < i;
  }

  lemma TwoYield(g: EndpointGroup, eps: seq<Endpoint>, ns: Namespaces, selects: Selects, i: nat, j: nat)
    requires i < j < |eps| && eps[i].ref == eps[j].ref
    requires Contribution(g, eps[i], ns, selects).Some? && Contribution(g, eps[j], ns, selects).Some?
    ensures TakenTwice(g, eps, ByName(g), BySelector(g, ns, selects))
  {
    var named, chosen, r := ByName(g), BySelector(g, ns, selects), eps[j].ref;
    if Named(g, eps[i]) && Named(g, eps[j]) {
      assert Yields(g, eps[i], named, r) && Yields(g, eps[j], named, r);
    } else if Matched(g, eps[i], ns, selects) && Matched(g, eps[j], ns, selects) {
      assert Yields(g, eps[i], chosen, r) && Yields(g, eps[j], chosen, r);
    } else if Named(g, eps[i]) {
      assert Yields(g, eps[i], named, r) && Yields(g, eps[j], chosen, r);
    } else {
      assert Yields(g, eps[j], named, eps[i].ref) && Yields(g, eps[i], chosen, eps[i].ref);
    }
  }

  /** A group that names an endpoint and matches it lists it twice, and the webhook admits such a group. */
  lemma NamedAndMatchedExample(ep: Endpoint, selector: string, selects: Selects)
    requires |ep.ips| > 0 && selects(selector, ep.labels)
    ensures var g := EndpointGroup("g", Some(ep.id), None, None, Some(selector));
      && ProperGroup(g, selects)
      && MembersOf(g, CurrentEndpoints(g, [ep], map[ep.id.namespace := ""], selects)) == [AsMember(ep), AsMember(ep)]
  {
    var g := EndpointGroup("g", Some(ep.id), None, None, Some(selector));
    var ns := map[ep.id.namespace := ""];
    assert [ep][..0] == [];
    assert Kept([ep], ByName(g)) == [ep] && Kept([ep], BySelector(g, ns, selects)) == [ep];
    assert CurrentEndpoints(g, [ep], ns, selects) == [ep, ep] && [ep, ep][..1] == [ep];
    assert MembersOf(g, [ep]) == [AsMember(ep)];
  }
}
