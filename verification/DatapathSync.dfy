/**
 One sync of the rules installed by name as a batch of calls to the datapath's
 rule database, in whatever order: the database mirrors the installed rules,
 unless the batch removes a rule that was never installed while another one with
 the same flow key stays.
 */
module DatapathSync {
  import opened RuleCache
  import opened PolicySync
  import opened RuleReferences
  import opened DatapathMirror
  import GroupCache
  import IPBlocks
  import PolicyRules

  /** One action for each flow key. */
  type Actions = FlowKey -> Action

  ghost predicate Typed(rs: set<PolicyRule>, act: Actions) { forall r :: r in rs ==> r.action == act(FlowKeyOf(r)) }

  ghost predicate TypedRules(d: RuleDatabase, act: Actions) {
    forall f :: OfFlow(f) in d.rules ==> d.rules[OfFlow(f)].rule == act(f)
  }

  ghost predicate TypedInstalled(installed: Installed, act: Actions) {
    forall n :: n in installed ==> installed[n].action == act(n.key)
  }

  /** What compareAndApplyPolicyRulesChanges asks of the datapath: one call for each name that changes, in any order. */
  ghost predicate SyncCalls(calls: seq<RuleCall>, old_: set<PolicyRule>, new_: set<PolicyRule>) {
    && OncePerName(calls)
    && (forall i :: 0 <= i < |calls| && calls[i].AddCall? ==>
                    exists r :: r in new_ - old_ && calls[i] == AddOf(r, calls[i].flows))
    && (forall i :: 0 <= i < |calls| && calls[i].RemoveCall? ==>
                    exists n :: n in Names(old_) - Names(new_) && calls[i] == RemoveOf(n))
    && (forall r :: r in new_ - old_ ==> Adds(calls, OfFlow(FlowKeyOf(r)), ByName(NameOf(r))))
    && (forall n :: n in Names(old_) - Names(new_) ==> Removes(calls, OfFlow(n.key), ByName(n)))
  }

  /** The flow ids that the bridges hand out are not in use. */
  ghost predicate UnusedFlows(d: RuleDatabase, calls: seq<RuleCall>) {
    forall i :: 0 <= i < |calls| && calls[i].AddCall? ==> Unused(AfterAll(d, calls[..i]), calls[i].flows)
  }

  /** A call adds a rule with the action of its key, or removes something. */
  ghost predicate TypedCall(call: RuleCall, act: Actions) {
    call.key.OfFlow? && (call.AddCall? ==> call.rule == act(call.key.flow))
  }

  lemma CallsTyped(calls: seq<RuleCall>, old_: set<PolicyRule>, new_: set<PolicyRule>, act: Actions)
    requires SyncCalls(calls, old_, new_) && Typed(new_, act)
    ensures forall i :: 0 <= i < |calls| ==> TypedCall(calls[i], act)
  {
  }

  /** The rules for the agent's addresses stay as they are. */
  ghost predicate AddressesKept(d: RuleDatabase, d': RuleDatabase) {
    forall k: Key :: k.OfAddress? ==>
      (k in d'.rules <==> k in d.rules) && (k in d.rules ==> d'.rules[k] == d.rules[k])
  }

  lemma TypedStep(d: RuleDatabase, call: RuleCall, act: Actions)
    requires TypedRules(d, act) && TypedCall(call, act)
    ensures TypedRules(After(d, call), act) && (call.AddCall? ==> !IsUpdate(d, call.key, call.rule))
    ensures AddressesKept(d, After(d, call))
  {
  }

  /** A batch of typed calls never takes the update branch. */
  lemma {:induction false} TypedBatch(d: RuleDatabase, calls: seq<RuleCall>, act: Actions)
    requires TypedRules(d, act) && UnusedFlows(d, calls) && forall i :: 0 <= i < |calls| ==> TypedCall(calls[i], act)
    ensures HarmlessBatch(d, calls) && TypedRules(AfterAll(d, calls), act)
    ensures AddressesKept(d, AfterAll(d, calls))
  {
    if calls != [] {
      var front, call := calls[..|calls| - 1], calls[|calls| - 1];
      assert forall i :: 0 <= i < |front| ==> front[..i] == calls[..i];
      TypedBatch(d, front, act);
      TypedStep(AfterAll(d, front), call, act);
      forall i | 0 <= i < |calls|
        ensures Harmless(AfterAll(d, calls[..i]), calls[i])
      {
        if i < |front| { assert front[..i] == calls[..i]; }
      }
    }
  }

  lemma MirrorTyped(d: RuleDatabase, installed: Installed, internal: set<Address>, act: Actions)
    requires Mirrors(d, installed, internal) && TypedInstalled(installed, act)
    ensures TypedRules(d, act)
  {
    forall f | OfFlow(f) in d.rules
      ensures d.rules[OfFlow(f)].rule == act(f)
    {
      var o := SomeReference(d, OfFlow(f));
      assert IsReference(installed, internal, OfFlow(f), o);
    }
  }

  lemma SyncNames(installed: Installed, old_: set<PolicyRule>, new_: set<PolicyRule>, n: RuleName)
    requires UniqueNames(new_)
    ensures n in Sync(installed, old_, new_)
       <==> n in Names(new_ - old_) || (n in installed && n !in Names(old_) - Names(new_))
  {
  }

  lemma CallsOfName(calls: seq<RuleCall>, old_: set<PolicyRule>, new_: set<PolicyRule>, k: Key, o: Owner)
    requires SyncCalls(calls, old_, new_)
    ensures Adds(calls, k, o) <==> o.ByName? && o.name in Names(new_ - old_) && k == OfFlow(o.name.key)
    ensures Removes(calls, k, o) <==> o.ByName? && o.name in Names(old_) - Names(new_) && k == OfFlow(o.name.key)
  {
    if Adds(calls, k, o) {
      var i :| 0 <= i < |calls| && calls[i].AddCall? && (calls[i].key, calls[i].name) == (k, o);
      var r :| r in new_ - old_ && calls[i] == AddOf(r, calls[i].flows);
    }
    if o.ByName? && o.name in Names(new_ - old_) && k == OfFlow(o.name.key) {
      var r :| r in new_ - old_ && NameOf(r) == o.name;
    }
  }

  lemma SyncReferenced(d: RuleDatabase, calls: seq<RuleCall>, installed: Installed, internal: set<Address>,
                       old_: set<PolicyRule>, new_: set<PolicyRule>)
    requires Sound(d) && HarmlessBatch(d, calls) && SyncCalls(calls, old_, new_)
    requires UniqueNames(new_) && Referenced(d, installed, internal)
    ensures Sound(AfterAll(d, calls)) && Referenced(AfterAll(d, calls), Sync(installed, old_, new_), internal)
  {
    BatchRefers(d, calls);
    forall k, o
      ensures Refers(AfterAll(d, calls), k, o) <==> IsReference(Sync(installed, old_, new_), internal, k, o)
    {
      CallsOfName(calls, old_, new_, k, o);
      if o.ByName? { SyncNames(installed, old_, new_, o.name); }
    }
  }

  /** No name is removed that was not installed, unless no rule with its flow key is installed afterwards. */
  ghost predicate NoPhantoms(installed: Installed, old_: set<PolicyRule>, new_: set<PolicyRule>)
    requires UniqueNames(new_)
  {
    forall n, n' :: n in Names(old_) - Names(new_) && n !in installed && n' in Sync(installed, old_, new_) ==>
                    n'.key != n.key
  }

  lemma SyncIndexed(d: RuleDatabase, calls: seq<RuleCall>, installed: Installed, internal: set<Address>,
                    old_: set<PolicyRule>, new_: set<PolicyRule>, k: Key)
    requires Mirrors(d, installed, internal) && HarmlessBatch(d, calls) && SyncCalls(calls, old_, new_)
    requires UniqueNames(new_) && NoPhantoms(installed, old_, new_) && k in AfterAll(d, calls).rules
    requires Sound(AfterAll(d, calls)) && Referenced(AfterAll(d, calls), Sync(installed, old_, new_), internal)
    ensures Indexed(AfterAll(d, calls), k)
  {
    TracksSplit(d);
    var o :| o in AfterAll(d, calls).rules[k].references;
    assert Refers(AfterAll(d, calls), k, o) && IsReference(Sync(installed, old_, new_), internal, k, o);
    forall i | 0 <= i < |calls| && calls[i].RemoveCall? && calls[i].key == k
      ensures Refers(d, k, calls[i].name)
    {
      var n :| n in Names(old_) - Names(new_) && calls[i] == RemoveOf(n);
      assert o.name.key == n.key;
      assert IsReference(installed, internal, k, ByName(n));
    }
    BatchIndexed(d, calls, k);
  }

  lemma SyncTyped(installed: Installed, old_: set<PolicyRule>, new_: set<PolicyRule>, act: Actions)
    requires UniqueNames(new_) && TypedInstalled(installed, act) && Typed(new_, act)
    ensures TypedInstalled(Sync(installed, old_, new_), act)
  {
    var installed' := Sync(installed, old_, new_);
    forall n | n in installed'
      ensures installed'[n].action == act(n.key)
    {
      SyncNames(installed, old_, new_, n);
      if n in Names(new_ - old_) {
        var r :| r in new_ - old_ && NameOf(r) == n;
        assert installed'[n] == r;
      } else {
        assert installed'[n] == installed[n];
      }
    }
  }

  /** One sync, in whatever order: the database mirrors what is installed afterwards, unless there is a phantom. */
  lemma SyncMirrors(d: RuleDatabase, calls: seq<RuleCall>, installed: Installed, internal: set<Address>,
                    old_: set<PolicyRule>, new_: set<PolicyRule>, act: Actions)
    requires Mirrors(d, installed, internal) && TypedInstalled(installed, act) && Typed(new_, act)
    requires SyncCalls(calls, old_, new_) && UnusedFlows(d, calls)
    requires UniqueNames(new_) && NoPhantoms(installed, old_, new_)
    ensures Mirrors(AfterAll(d, calls), Sync(installed, old_, new_), internal)
    ensures TypedInstalled(Sync(installed, old_, new_), act)
  {
    SyncBatch(d, calls, installed, internal, old_, new_, act);
    forall k | k in AfterAll(d, calls).rules
      ensures Indexed(AfterAll(d, calls), k)
    {
      SyncIndexed(d, calls, installed, internal, old_, new_, k);
    }
    TracksSplit(AfterAll(d, calls));
    SyncTidy(installed, old_, new_);
    SyncTyped(installed, old_, new_, act);
  }

  /** What holds after a sync, phantoms or not. */
  lemma SyncBatch(d: RuleDatabase, calls: seq<RuleCall>, installed: Installed, internal: set<Address>,
                  old_: set<PolicyRule>, new_: set<PolicyRule>, act: Actions)
    requires Mirrors(d, installed, internal) && TypedInstalled(installed, act) && Typed(new_, act)
    requires SyncCalls(calls, old_, new_) && UnusedFlows(d, calls) && UniqueNames(new_)
    ensures HarmlessBatch(d, calls) && TypedRules(AfterAll(d, calls), act) && AddressesKept(d, AfterAll(d, calls))
    ensures Sound(d) && Sound(AfterAll(d, calls))
    ensures Referenced(AfterAll(d, calls), Sync(installed, old_, new_), internal)
  {
    MirrorTyped(d, installed, internal, act);
    CallsTyped(calls, old_, new_, act);
    TypedBatch(d, calls, act);
    TracksSplit(d);
    SyncReferenced(d, calls, installed, internal, old_, new_);
  }

  /** Every rule has a flow on the bridge. */
  ghost predicate Covers(d: RuleDatabase, bridge: string) {
    forall k :: k in d.rules ==> bridge in d.rules[k].flows
  }

  ghost predicate CoveringCalls(calls: seq<RuleCall>, bridge: string) {
    forall i :: 0 <= i < |calls| && calls[i].AddCall? ==> bridge in calls[i].flows
  }

  lemma {:induction false} CoversBatch(d: RuleDatabase, calls: seq<RuleCall>, bridge: string)
    requires Covers(d, bridge) && CoveringCalls(calls, bridge)
    ensures Covers(AfterAll(d, calls), bridge)
  {
    if calls != [] {
      CoversBatch(d, calls[..|calls| - 1], bridge);
    }
  }

  /** A phantom: a name is removed that was not installed, and a rule with its flow key is installed afterwards. */
  ghost predicate Phantom(installed: Installed, old_: set<PolicyRule>, new_: set<PolicyRule>, n: RuleName, n': RuleName)
    requires UniqueNames(new_)
  {
    n in Names(old_) - Names(new_) && n !in installed && n' in Sync(installed, old_, new_) && n'.key == n.key
  }

  /** If the phantom's removal comes last, the rule that stays under its flow key loses its flows. */
  lemma PhantomBreaks(d: RuleDatabase, calls: seq<RuleCall>, installed: Installed, internal: set<Address>,
                      old_: set<PolicyRule>, new_: set<PolicyRule>, act: Actions, bridge: string,
                      n: RuleName, n': RuleName)
    requires Mirrors(d, installed, internal) && TypedInstalled(installed, act) && Typed(new_, act)
    requires SyncCalls(calls, old_, new_) && UnusedFlows(d, calls) && UniqueNames(new_)
    requires Covers(d, bridge) && CoveringCalls(calls, bridge)
    requires Phantom(installed, old_, new_, n, n') && calls != [] && calls[|calls| - 1] == RemoveOf(n)
    ensures !Mirrors(AfterAll(d, calls), Sync(installed, old_, new_), internal)
  {
    SyncBatch(d, calls, installed, internal, old_, new_, act);
    NotInstalled(d, installed, internal, n);
    StaysInstalled(AfterAll(d, calls), Sync(installed, old_, new_), internal, n');
    CoversBatch(d, calls, bridge);
    assert bridge in AfterAll(d, calls).rules[OfFlow(n.key)].flows;
    LastRemovalSpoils(d, calls, n);
  }

  lemma NotInstalled(d: RuleDatabase, installed: Installed, internal: set<Address>, n: RuleName)
    requires Referenced(d, installed, internal) && n !in installed
    ensures !Refers(d, OfFlow(n.key), ByName(n))
  {
    assert !IsReference(installed, internal, OfFlow(n.key), ByName(n));
  }

  lemma StaysInstalled(d: RuleDatabase, installed: Installed, internal: set<Address>, n: RuleName)
    requires Referenced(d, installed, internal) && n in installed
    ensures OfFlow(n.key) in d.rules
  {
    assert IsReference(installed, internal, OfFlow(n.key), ByName(n));
  }

  lemma LastRemovalSpoils(d: RuleDatabase, calls: seq<RuleCall>, n: RuleName)
    requires Sound(d) && HarmlessBatch(d, calls) && OncePerName(calls)
    requires calls != [] && calls[|calls| - 1] == RemoveOf(n)
    requires !Refers(d, OfFlow(n.key), ByName(n))
    requires OfFlow(n.key) in AfterAll(d, calls).rules && AfterAll(d, calls).rules[OfFlow(n.key)].flows != map[]
    ensures !Tracks(AfterAll(d, calls))
  {
    var front, call, k := calls[..|calls| - 1], RemoveOf(n), OfFlow(n.key);
    BatchFront(d, calls);
    BatchRefers(d, front);
    BatchRefers(d, calls);
    NotBefore(calls, k);
    RemoveIndexed(AfterAll(d, front), call, k);
    TracksSplit(AfterAll(d, calls));
  }

  /** A rule from whoever is at "x", which its two groups say is on agent "b". */
  const EgressFromX: CompleteRule :=
    CompleteRule(RuleShape(RuleID("ns/p", "egress.r"), "tier2", "work", Allow, Egress, false, false,
                           [PolicyRules.AllPorts]),
                 map["g" := 7, "h" := 1], map[], map["x" := IPBlocks.Item({"b"}, 0, {})], map["" := IPBlocks.Nil])

  /** In one of them, an endpoint at "x" that has no agent leaves. */
  const AgentlessLeaves: GroupCache.GroupPatch :=
    GroupCache.GroupPatch("g", 7, map[], map["x" := IPBlocks.Item({}, 0, {})])

  /** What EgressFromX would list on the agent itself. */
  const PhantomRule: PolicyRule := GenerateRule(EgressFromX.shape, "x", "", Egress, PolicyRules.AllPorts)

  lemma PhantomLists()
    ensures Patchable(EgressFromX, AgentlessLeaves) && ListRules(EgressFromX, "a") == {}
    ensures OldPolicyRules(EgressFromX, "a", AgentlessLeaves) == {PhantomRule}
    ensures NewPolicyRules(EgressFromX, "a", AgentlessLeaves) == {}
  {
    var rule, del := EgressFromX, AgentlessLeaves.del;
    assert "a" != "b" && PolicyRules.AllPorts in rule.shape.ports;
    assert PolicyRules.AllPorts in DstPorts(PolicyRules.AllPorts, IPBlocks.Nil);
    forall r
      ensures r !in ListRules(rule, "a")
      ensures r in GenerateRuleList(rule.shape, "a", del, rule.dstIPBlocks) <==> r == PhantomRule
    {
      ListedSplit(rule.shape, "a", rule.srcIPBlocks, rule.dstIPBlocks, r);
      ListedSplit(rule.shape, "a", del, rule.dstIPBlocks, r);
      assert ToSide(rule.shape, rule.dstIPBlocks, "a", PhantomRule) && Shaped(rule.shape, PhantomRule);
    }
  }

  /** The database with one rule under one name, and its flow on one bridge. */
  function OneRule(r: PolicyRule): RuleDatabase {
    Database(map[OfFlow(FlowKeyOf(r)) := Entry(r.action, map["vds" := 1], {ByName(NameOf(r))})],
             map[1 := OfFlow(FlowKeyOf(r))])
  }

  /**
   A phantom: an endpoint without an agent shares its address with one on another
   agent. Its own contribution counts as local here, so that its rule is removed
   when it leaves, although the address as a whole never had any on this agent.
   Another policy's rule with the same flow key loses its flow.
   */
  lemma PhantomExample(other: PolicyRule, d: RuleDatabase)
    requires other == PhantomRule.(ruleID := RuleID("ns/q", "egress.r"))
    requires d == OneRule(other)
    ensures Patchable(EgressFromX, AgentlessLeaves)
    ensures var old_ := OldPolicyRules(EgressFromX, "a", AgentlessLeaves);
      var new_ := NewPolicyRules(EgressFromX, "a", AgentlessLeaves);
      var calls := [RemoveOf(NameOf(PhantomRule))];
      var installed := map[NameOf(other) := other];
      && UniqueNames(new_) && Mirrors(d, installed, {}) && SyncCalls(calls, old_, new_)
      && Sync(installed, old_, new_) == installed && !Mirrors(AfterAll(d, calls), installed, {})
  {
    PhantomLists();
    assert RuleID("ns/q", "egress.r").policy[3] != RuleID("ns/p", "egress.r").policy[3];
    OneRuleMirrors(other, d);
    SpoiledBy(PhantomRule, other, d, "vds");
  }

  /** One removal of a name that shares its flow key with the only installed rule. */
  lemma SpoiledBy(phantom: PolicyRule, other: PolicyRule, d: RuleDatabase, bridge: string)
    requires FlowKeyOf(phantom) == FlowKeyOf(other) && phantom.ruleID != other.ruleID
    requires Mirrors(d, map[NameOf(other) := other], {}) && Covers(d, bridge)
    ensures OnlyRemoves([RemoveOf(NameOf(phantom))], phantom, other)
    ensures !Mirrors(AfterAll(d, [RemoveOf(NameOf(phantom))]), map[NameOf(other) := other], {})
  {
    var calls, installed, act: Actions := [RemoveOf(NameOf(phantom))], map[NameOf(other) := other], _ => other.action;
    OneRemoval(phantom, other);
    assert TypedInstalled(installed, act) && Typed({}, act);
    PhantomBreaks(d, calls, installed, {}, {phantom}, {}, act, bridge, NameOf(phantom), NameOf(other));
  }

  /** The calls are those of a sync that removes one rule and leaves the other installed. */
  ghost predicate OnlyRemoves(calls: seq<RuleCall>, gone: PolicyRule, other: PolicyRule) {
    && SyncCalls(calls, {gone}, {}) && (forall i :: 0 <= i < |calls| ==> calls[i].RemoveCall?)
    && Sync(map[NameOf(other) := other], {gone}, {}) == map[NameOf(other) := other]
  }

  lemma OneRemoval(phantom: PolicyRule, other: PolicyRule)
    requires FlowKeyOf(phantom) == FlowKeyOf(other) && phantom.ruleID != other.ruleID
    ensures OnlyRemoves([RemoveOf(NameOf(phantom))], phantom, other)
    ensures Phantom(map[NameOf(other) := other], {phantom}, {}, NameOf(phantom), NameOf(other))
  {
    var calls, n := [RemoveOf(NameOf(phantom))], NameOf(phantom);
    assert Names({phantom}) - Names({}) == {n};
    assert calls[0] == RemoveOf(n);
    assert Removes(calls, OfFlow(n.key), ByName(n));
    assert Sync(map[NameOf(other) := other], {phantom}, {}) == map[NameOf(other) := other];
  }

  lemma OneRuleMirrors(r: PolicyRule, d: RuleDatabase)
    requires d == OneRule(r)
    ensures Mirrors(d, map[NameOf(r) := r], {}) && Covers(d, "vds")
  {
    var flows := map["vds" := 1];
    assert "vds" in flows && flows.Values == {1};
  }
}
