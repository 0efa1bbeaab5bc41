/**
 The rules installed by name, as the reconciler sees them, and the datapath's
 rule database, which shares one rule among all names with the same flow key
 and also holds the rules for the agent's own addresses.
 */
module DatapathMirror {
  import opened RuleCache
  import opened PolicySync
  import opened RuleReferences

  /** One of the agent's own addresses, with the link that has it and the direction of the rule that lets it pass. */
  datatype Address = Address(ip: string, direction: Direction, index: int)

  /** RuleID in the database: a flow key, or the fixed id of a rule for one of the agent's addresses. */
  datatype Key = OfFlow(flow: FlowKey) | OfAddress(ip: string, direction: Direction)

  /** The names of the rules for one address differ in the link's index. */
  datatype Owner = ByName(name: RuleName) | ByAddress(index: int)

  /** Besides its key, a datapath rule differs only in its action. */
  type RuleDatabase = Database<Key, Action, Owner>

  type RuleCall = Call<Key, Action, Owner>

  predicate IsReference(installed: Installed, internal: set<Address>, k: Key, o: Owner) {
    match k
    case OfFlow(f) => o.ByName? && o.name in installed && o.name.key == f
    case OfAddress(ip, d) => o.ByAddress? && Address(ip, d, o.index) in internal
  }

  ghost predicate Referenced(d: RuleDatabase, installed: Installed, internal: set<Address>) {
    forall k, o :: Refers(d, k, o) <==> IsReference(installed, internal, k, o)
  }

  ghost predicate SameActions(d: RuleDatabase, installed: Installed) {
    && (forall n :: n in installed && OfFlow(n.key) in d.rules ==> d.rules[OfFlow(n.key)].rule == installed[n].action)
    && (forall k: Key :: k.OfAddress? && k in d.rules ==> d.rules[k].rule == Allow)
  }

  ghost predicate Mirrors(d: RuleDatabase, installed: Installed, internal: set<Address>) {
    Tracks(d) && Tidy(installed) && Referenced(d, installed, internal) && SameActions(d, installed)
  }

  /** Rules that match the same packets in the same place do the same to them. */
  ghost predicate Agreeable(installed: Installed, r: PolicyRule) {
    forall n :: n in installed && n.key == FlowKeyOf(r) ==> installed[n].action == r.action
  }

  function AddOf(r: PolicyRule, flows: map<string, nat>): RuleCall {
    AddCall(OfFlow(FlowKeyOf(r)), r.action, ByName(NameOf(r)), flows)
  }

  function RemoveOf(n: RuleName): RuleCall { RemoveCall(OfFlow(n.key), ByName(n)) }

  lemma SomeReference(d: RuleDatabase, k: Key) returns (o: Owner)
    requires Tracks(d) && k in d.rules
    ensures Refers(d, k, o)
  {
    o :| o in d.rules[k].references;
  }

  /** The add takes the update branch iff a rule with the same flow key has another action. */
  lemma UpdateIffDisagreement(d: RuleDatabase, installed: Installed, internal: set<Address>, r: PolicyRule)
    requires Mirrors(d, installed, internal)
    ensures IsUpdate(d, OfFlow(FlowKeyOf(r)), r.action) <==> !Agreeable(installed, r)
  {
    var key := OfFlow(FlowKeyOf(r));
    if key in d.rules {
      var o := SomeReference(d, key);
      assert IsReference(installed, internal, key, o);
    }
    forall n | n in installed && n.key == FlowKeyOf(r)
      ensures key in d.rules
    {
      assert IsReference(installed, internal, key, ByName(n));
    }
  }

  lemma AddMirrors(d: RuleDatabase, installed: Installed, internal: set<Address>, r: PolicyRule,
                   flows: map<string, nat>)
    requires Mirrors(d, installed, internal) && FreshFlows(d, flows) && !IsUpdate(d, OfFlow(FlowKeyOf(r)), r.action)
    ensures Mirrors(After(d, AddOf(r, flows)), installed[NameOf(r) := r], internal)
  {
    var d', installed' := After(d, AddOf(r, flows)), installed[NameOf(r) := r];
    CallExact(d, AddOf(r, flows), OfFlow(FlowKeyOf(r)), ByName(NameOf(r)));
    forall k, o
      ensures Refers(d', k, o) <==> IsReference(installed', internal, k, o)
    {
      CallExact(d, AddOf(r, flows), k, o);
    }
    forall n | n in installed' && OfFlow(n.key) in d'.rules
      ensures d'.rules[OfFlow(n.key)].rule == installed'[n].action
    {
      if n != NameOf(r) { assert Refers(d, OfFlow(n.key), ByName(n)); }
    }
  }

  /** Adding a rule by name records the reference iff no rule with the same flow key has another action. */
  lemma AddMirrorsIff(d: RuleDatabase, installed: Installed, internal: set<Address>, r: PolicyRule,
                      flows: map<string, nat>)
    requires Mirrors(d, installed, internal) && FreshFlows(d, flows)
    requires forall k :: k in d.rules ==> d.rules[k].flows != map[]
    ensures Mirrors(After(d, AddOf(r, flows)), installed[NameOf(r) := r], internal) <==> Agreeable(installed, r)
  {
    UpdateIffDisagreement(d, installed, internal, r);
    AddTracksIff(d, OfFlow(FlowKeyOf(r)), r.action, ByName(NameOf(r)), flows);
    if !IsUpdate(d, OfFlow(FlowKeyOf(r)), r.action) {
      AddMirrors(d, installed, internal, r, flows);
    } else {
      assert IsReference(installed[NameOf(r) := r], internal, OfFlow(FlowKeyOf(r)), ByName(NameOf(r)));
    }
  }

  /** Removing an installed rule by name. */
  lemma RemoveMirrors(d: RuleDatabase, installed: Installed, internal: set<Address>, n: RuleName)
    requires Mirrors(d, installed, internal) && n in installed
    ensures Mirrors(After(d, RemoveOf(n)), installed - {n}, internal)
  {
    assert IsReference(installed, internal, OfFlow(n.key), ByName(n));
    forall k, o
      ensures Refers(After(d, RemoveOf(n)), k, o) <==> IsReference(installed - {n}, internal, k, o)
    {
      CallExact(d, RemoveOf(n), k, o);
    }
    CallExact(d, RemoveOf(n), OfFlow(n.key), ByName(n));
  }

  function AddAddressOf(a: Address, flows: map<string, nat>): RuleCall {
    AddCall(OfAddress(a.ip, a.direction), Allow, ByAddress(a.index), flows)
  }

  function RemoveAddressOf(a: Address): RuleCall { RemoveCall(OfAddress(a.ip, a.direction), ByAddress(a.index)) }

  /** No link has the address. */
  predicate NoLinkHas(internal: set<Address>, a: Address) {
    forall x :: x in internal ==> (x.ip, x.direction) != (a.ip, a.direction)
  }

  /** addIntenalIP, one direction. */
  lemma AddAddressMirrors(d: RuleDatabase, installed: Installed, internal: set<Address>, a: Address,
                          flows: map<string, nat>)
    requires Mirrors(d, installed, internal) && FreshFlows(d, flows)
    ensures Mirrors(After(d, AddAddressOf(a, flows)), installed, internal + {a})
  {
    InternalCall(d, installed, internal, internal + {a}, AddAddressOf(a, flows));
  }

  /** removeIntenalIP, one direction; the removal of an address that no link has changes nothing. */
  lemma RemoveAddressMirrors(d: RuleDatabase, installed: Installed, internal: set<Address>, a: Address)
    requires Mirrors(d, installed, internal) && (a in internal || NoLinkHas(internal, a))
    ensures Mirrors(After(d, RemoveAddressOf(a)), installed, internal - {a})
  {
    if a in internal {
      assert IsReference(installed, internal, OfAddress(a.ip, a.direction), ByAddress(a.index));
      InternalCall(d, installed, internal, internal - {a}, RemoveAddressOf(a));
    } else {
      NoLinkNoRule(d, installed, internal, a);
      assert internal - {a} == internal;
    }
  }

  lemma NoLinkNoRule(d: RuleDatabase, installed: Installed, internal: set<Address>, a: Address)
    requires Mirrors(d, installed, internal) && NoLinkHas(internal, a)
    ensures OfAddress(a.ip, a.direction) !in d.rules
  {
    if OfAddress(a.ip, a.direction) in d.rules {
      var o := SomeReference(d, OfAddress(a.ip, a.direction));
      assert false;
    }
  }

  lemma InternalCall(d: RuleDatabase, installed: Installed, internal: set<Address>, internal': set<Address>,
                     call: RuleCall)
    requires Mirrors(d, installed, internal) && Proper(d, call) && call.key.OfAddress? && call.name.ByAddress?
    requires var a := Address(call.key.ip, call.key.direction, call.name.index);
      if call.AddCall? then call.rule == Allow && internal' == internal + {a} else internal' == internal - {a}
    ensures Mirrors(After(d, call), installed, internal')
  {
    CallExact(d, call, call.key, call.name);
    forall k, o
      ensures Refers(After(d, call), k, o) <==> IsReference(installed, internal', k, o)
    {
      CallExact(d, call, k, o);
    }
    InternalActions(d, installed, call);
  }

  lemma InternalActions(d: RuleDatabase, installed: Installed, call: RuleCall)
    requires SameActions(d, installed) && call.key.OfAddress? && (call.AddCall? ==> call.rule == Allow)
    ensures SameActions(After(d, call), installed)
  {
  }

  /** A global default that turns from drop to allow: the flow id of the old flow is left behind. */
  lemma ChangedDefaultExample(r: PolicyRule, d: RuleDatabase)
    requires r.action == Drop && r.ruleType == GlobalDefaultRule
    requires d
         == Database(map[OfFlow(FlowKeyOf(r)) := Entry(Drop, map["vds" := 1], {ByName(NameOf(r))})],
           map[1 := OfFlow(FlowKeyOf(r))])
    ensures var installed, allow := map[NameOf(r) := r], r.(action := Allow);
      && Mirrors(d, installed, {})
      && !Mirrors(After(d, AddOf(allow, map["vds" := 2])), installed[NameOf(allow) := allow], {})
  {
    var installed, allow := map[NameOf(r) := r], r.(action := Allow);
    assert FlowKeyOf(allow) == FlowKeyOf(r) && NameOf(allow) == NameOf(r);
    var flows := map["vds" := 1];
    assert "vds" in flows && flows.Values == {1};
    assert Mirrors(d, installed, {});
    AddMirrorsIff(d, installed, {}, allow, map["vds" := 2]);
  }
}
