/**
 The datapath's rule database along the runs of the agent: the policy reconciler
 with its syncs, changes of the global default, and the agent's own addresses as
 they come and go.
 */
module DatapathRuns {
  import opened Strings
  import opened RuleCache
  import opened PolicySync
  import opened PolicyRuns
  import opened RuleReferences
  import opened RuleTranslation
  import opened DatapathMirror
  import opened DatapathSync
  import GroupCache
  import IPBlocks

  /** The action that goes with the type of a policy's rule. */
  function ActionFor(t: RuleType): Action { if t == DefaultRule then Drop else Allow }

  /** Rules of policies, with the action of their type. */
  ghost predicate OfPolicies(rs: set<PolicyRule>) {
    forall r :: r in rs ==> r.ruleType != GlobalDefaultRule && r.action == ActionFor(r.ruleType)
  }

  /** What is installed by name for policies. */
  ghost predicate PolicyOnly(installed: Installed) {
    forall n :: n in installed ==>
                n.key.ruleType != GlobalDefaultRule && installed[n].action == ActionFor(n.key.ruleType)
  }

  /** The global pair, or whatever else is installed by name with that type, with one action per key. */
  ghost predicate GlobalOnly(global: Installed, act: Actions) {
    && Tidy(global) && TypedInstalled(global, act)
    && (forall n :: n in global ==> n.key.ruleType == GlobalDefaultRule)
    && forall f: FlowKey :: f.ruleType != GlobalDefaultRule ==> act(f) == ActionFor(f.ruleType)
  }

  /** Some batch of calls in some order, with ids as the bridges hand them out, one of them from the given bridge. */
  ghost predicate SyncDb(d: RuleDatabase, old_: set<PolicyRule>, new_: set<PolicyRule>, bridge: string,
                         d': RuleDatabase) {
    exists calls ::
      && SyncCalls(calls, old_, new_) && UnusedFlows(d, calls) && CoveringCalls(calls, bridge)
      && d' == AfterAll(d, calls)
  }

  lemma PolicyNames(rs: set<PolicyRule>, n: RuleName)
    requires OfPolicies(rs) && n in Names(rs)
    ensures n.key.ruleType != GlobalDefaultRule
  {
    var r :| r in rs && NameOf(r) == n;
  }

  lemma SyncKeepsOut(installed: Installed, old_: set<PolicyRule>, new_: set<PolicyRule>)
    requires UniqueNames(new_) && OfPolicies(new_) && PolicyOnly(installed)
    ensures PolicyOnly(Sync(installed, old_, new_))
  {
    var installed' := Sync(installed, old_, new_);
    forall n | n in installed'
      ensures n.key.ruleType != GlobalDefaultRule && installed'[n].action == ActionFor(n.key.ruleType)
    {
      SyncNames(installed, old_, new_, n);
      if n in Names(new_ - old_) {
        var r :| r in new_ - old_ && NameOf(r) == n;
        assert installed'[n] == r;
      } else {
        assert installed'[n] == installed[n];
      }
    }
  }

  lemma SyncPlusAt(installed: Installed, global: Installed, act: Actions, old_: set<PolicyRule>, new_: set<PolicyRule>,
                   n: RuleName)
    requires UniqueNames(new_) && OfPolicies(old_) && OfPolicies(new_) && GlobalOnly(global, act)
    ensures n in Sync(installed + global, old_, new_) <==> n in Sync(installed, old_, new_) + global
    ensures n in Sync(installed + global, old_, new_) ==>
      Sync(installed + global, old_, new_)[n] == (Sync(installed, old_, new_) + global)[n]
  {
    SyncNames(installed + global, old_, new_, n);
    SyncNames(installed, old_, new_, n);
    if n in Names(new_ - old_) { PolicyNames(new_ - old_, n); }
    if n in Names(old_) { PolicyNames(old_, n); }
  }

  /** A sync of policies leaves the global pair alone. */
  lemma SyncPlus(installed: Installed, global: Installed, act: Actions, old_: set<PolicyRule>, new_: set<PolicyRule>)
    requires UniqueNames(new_) && OfPolicies(old_) && OfPolicies(new_) && GlobalOnly(global, act)
    ensures Sync(installed + global, old_, new_) == Sync(installed, old_, new_) + global
  {
    forall n
      ensures n in Sync(installed + global, old_, new_) <==> n in Sync(installed, old_, new_) + global
      ensures n in Sync(installed + global, old_, new_) ==>
        Sync(installed + global, old_, new_)[n] == (Sync(installed, old_, new_) + global)[n]
    {
      SyncPlusAt(installed, global, act, old_, new_, n);
    }
    SameMaps(Sync(installed + global, old_, new_), Sync(installed, old_, new_) + global);
  }

  lemma NoPhantomsPlus(installed: Installed, global: Installed, act: Actions, old_: set<PolicyRule>,
                       new_: set<PolicyRule>)
    requires UniqueNames(new_) && OfPolicies(old_) && OfPolicies(new_) && GlobalOnly(global, act)
    requires NoPhantoms(installed, old_, new_)
    ensures NoPhantoms(installed + global, old_, new_)
  {
    SyncPlus(installed, global, act, old_, new_);
    forall n, n' | n in Names(old_) - Names(new_) && n !in installed + global
                   && n' in Sync(installed, old_, new_) + global
      ensures n'.key != n.key
    {
      PolicyNames(old_, n);
    }
  }

  /** The database next to a reconciler: it mirrors all that is installed, with flows on the bridge. */
  ghost predicate Beside(d: RuleDatabase, installed: Installed, b: Background) {
    && Mirrors(d, installed + b.global, b.internal) && PolicyOnly(installed) && GlobalOnly(b.global, b.act)
    && Covers(d, b.bridge)
  }

  /** What a step of the reconciler leaves alone. */
  datatype Background = Background(global: Installed, internal: set<Address>, bridge: string, act: Actions)

  lemma SyncBeside(d: RuleDatabase, d': RuleDatabase, installed: Installed, b: Background, old_: set<PolicyRule>,
                   new_: set<PolicyRule>)
    requires Beside(d, installed, b) && SyncDb(d, old_, new_, b.bridge, d')
    requires OfPolicies(old_) && OfPolicies(new_) && UniqueNames(new_) && NoPhantoms(installed, old_, new_)
    ensures Beside(d', Sync(installed, old_, new_), b)
  {
    SyncPlus(installed, b.global, b.act, old_, new_);
    NoPhantomsPlus(installed, b.global, b.act, old_, new_);
    BothTyped(installed, b.global, b.act);
    assert Typed(new_, b.act);
    SyncStep(d, d', installed + b.global, b.internal, b.bridge, old_, new_, b.act);
    SyncKeepsOut(installed, old_, new_);
  }

  ghost predicate ProperRules(rules: Rules) { forall id :: id in rules ==> ProperShape(rules[id].shape) }

  lemma ListedTyped(shape: RuleShape, agent: string, srcs: IPBlocks.IPBlockMap, dsts: IPBlocks.IPBlockMap)
    requires ProperShape(shape)
    ensures OfPolicies(GenerateRuleList(shape, agent, srcs, dsts))
  {
    forall r | r in GenerateRuleList(shape, agent, srcs, dsts)
      ensures r.ruleType != GlobalDefaultRule && r.action == ActionFor(r.ruleType)
    {
      ListedSplit(shape, agent, srcs, dsts, r);
    }
  }

  lemma PatchTyped(rule: CompleteRule, agent: string, patch: GroupCache.GroupPatch)
    requires ProperShape(rule.shape) && Patchable(rule, patch)
    ensures OfPolicies(OldPolicyRules(rule, agent, patch)) && OfPolicies(NewPolicyRules(rule, agent, patch))
  {
    var srcs' := Patched(rule.srcGroups, rule.srcIPBlocks, patch);
    ListedTyped(rule.shape, agent, patch.add, rule.dstIPBlocks);
    ListedTyped(rule.shape, agent, patch.del, rule.dstIPBlocks);
    ListedTyped(rule.shape, agent, srcs', patch.add);
    ListedTyped(rule.shape, agent, srcs', patch.del);
  }

  lemma AllTyped(rules: Rules, agent: string)
    requires ProperRules(rules)
    ensures OfPolicies(ListAll(rules, agent))
  {
    forall r | r in ListAll(rules, agent)
      ensures r.ruleType != GlobalDefaultRule && r.action == ActionFor(r.ruleType)
    {
      var id :| id in rules && r in ListRules(rules[id], agent);
      ListedTyped(rules[id].shape, agent, rules[id].srcIPBlocks, rules[id].dstIPBlocks);
    }
  }

  /** Replacing a policy's rules removes installed rules only. */
  lemma UpdateNoPhantoms(installed: Installed, rules: Rules, key: string, new_: set<PolicyRule>, agent: string)
    requires Exact(installed, rules, agent) && OwnIDs(rules) && UniqueNames(new_)
    ensures NoPhantoms(installed, ListAll(OfPolicy(rules, key), agent), new_)
  {
    forall n | n in Names(ListAll(OfPolicy(rules, key), agent))
      ensures n in installed
    {
      var r :| r in ListAll(OfPolicy(rules, key), agent) && NameOf(r) == n;
      ListAllHas(OfPolicy(rules, key), agent, r);
      assert Has(installed, r);
    }
  }

  /** So does patching a rule whose touched addresses are the group's alone. */
  lemma SoleNoPhantoms(installed: Installed, rules: Rules, id: RuleID, patch: GroupCache.GroupPatch, agent: string)
    requires Exact(installed, rules, agent) && id in rules
    requires rules[id].shape.ruleID == id && SoleSides(rules[id], patch)
    requires UniqueNames(NewPolicyRules(rules[id], agent, patch))
    ensures NoPhantoms(installed, OldPolicyRules(rules[id], agent, patch), NewPolicyRules(rules[id], agent, patch))
  {
    forall n | n in Names(OldPolicyRules(rules[id], agent, patch)) - Names(NewPolicyRules(rules[id], agent, patch))
      ensures n in installed
    {
      var r :| r in OldPolicyRules(rules[id], agent, patch) && NameOf(r) == n;
      SoleOldInstalled(installed, rules, id, patch, agent, r);
    }
  }

  lemma SoleOldInstalled(installed: Installed, rules: Rules, id: RuleID, patch: GroupCache.GroupPatch, agent: string,
                         r: PolicyRule)
    requires Exact(installed, rules, agent) && id in rules
    requires rules[id].shape.ruleID == id && SoleSides(rules[id], patch)
    requires r in OldPolicyRules(rules[id], agent, patch) && r !in NewPolicyRules(rules[id], agent, patch)
    ensures Has(installed, r)
  {
    SoleOldListed(rules[id], agent, patch, r);
    NamesUnique(rules[id].shape, agent, rules[id].srcIPBlocks, rules[id].dstIPBlocks, r);
  }

  lemma SoleOldListed(rule: CompleteRule, agent: string, patch: GroupCache.GroupPatch, r: PolicyRule)
    requires SoleSides(rule, patch) && r in OldPolicyRules(rule, agent, patch)
    requires r !in NewPolicyRules(rule, agent, patch)
    ensures r in ListRules(rule, agent)
  {
    var srcs' := Patched(rule.srcGroups, rule.srcIPBlocks, patch);
    if AppliesTo(rule.srcGroups, patch) { SoleUpdate(rule.srcIPBlocks, patch); }
    ListedSplit(rule.shape, agent, rule.srcIPBlocks, rule.dstIPBlocks, r);
    ListedSplit(rule.shape, agent, patch.del, rule.dstIPBlocks, r);
    ListedSplit(rule.shape, agent, patch.add, rule.dstIPBlocks, r);
    ListedSplit(rule.shape, agent, srcs', patch.del, r);
  }

  /** The rules of the index are synced one after the other. */
  ghost predicate ChainDb(rules: Rules, order: seq<RuleID>, agent: string, patch: GroupCache.GroupPatch,
                          bridge: string, d: RuleDatabase, d': RuleDatabase)
    requires AllPatchable(rules, patch) && forall i :: 0 <= i < |order| ==> order[i] in rules
  {
    if order == [] then d' == d
    else
      var rule := rules[order[|order| - 1]];
      exists mid :: ChainDb(rules, order[..|order| - 1], agent, patch, bridge, d, mid)
                 && SyncDb(mid, OldPolicyRules(rule, agent, patch), NewPolicyRules(rule, agent, patch), bridge, d')
  }

  ghost predicate ChainNoPhantoms(rules: Rules, installed: Installed, order: seq<RuleID>, agent: string,
                                  patch: GroupCache.GroupPatch)
    requires AllPatchable(rules, patch) && forall i :: 0 <= i < |order| ==> order[i] in rules
  {
    order == [] ||
    var rule := rules[order[|order| - 1]];
    PatchListsOfRule(rule, agent, patch);
    && ChainNoPhantoms(rules, installed, order[..|order| - 1], agent, patch)
    && NoPhantoms(SyncedInOrder(rules, installed, order[..|order| - 1], agent, patch),
                  OldPolicyRules(rule, agent, patch), NewPolicyRules(rule, agent, patch))
  }

  lemma {:induction false} ChainBeside(rules: Rules, installed: Installed, order: seq<RuleID>, agent: string,
      patch: GroupCache.GroupPatch, d: RuleDatabase, d': RuleDatabase, b: Background)
    requires AllPatchable(rules, patch) && ProperRules(rules) && forall i :: 0 <= i < |order| ==> order[i] in rules
    requires Beside(d, installed, b) && ChainDb(rules, order, agent, patch, b.bridge, d, d')
    requires ChainNoPhantoms(rules, installed, order, agent, patch)
    ensures Beside(d', SyncedInOrder(rules, installed, order, agent, patch), b)
  {
    if order != [] {
      var front, rule := order[..|order| - 1], rules[order[|order| - 1]];
      var mid :| ChainDb(rules, front, agent, patch, b.bridge, d, mid)
                 && SyncDb(mid, OldPolicyRules(rule, agent, patch), NewPolicyRules(rule, agent, patch), b.bridge, d');
      ChainBeside(rules, installed, front, agent, patch, d, mid, b);
      PatchListsOfRule(rule, agent, patch);
      PatchTyped(rule, agent, patch);
      SyncBeside(mid, d', SyncedInOrder(rules, installed, front, agent, patch), b,
                 OldPolicyRules(rule, agent, patch), NewPolicyRules(rule, agent, patch));
    }
  }

  /** What a step of the reconciler does to the database. */
  ghost predicate StepDb(s: State, e: Event, agent: string, bridge: string, d: RuleDatabase, d': RuleDatabase) {
    match e
    case ApplyRead(g, order) => Safe(s, e) ==> ChainDb(s.rules, order, agent, s.inFlight[g], bridge, d, d')
    case UpdatePolicy(key, specs) =>
      if AllResolve(specs, s.cache)
      then SyncDb(d, ListAll(OfPolicy(s.rules, key), agent), ListAll(CompleteAll(specs, s.cache), agent), bridge, d')
      else d' == d
    case DeletePolicy(key) => SyncDb(d, ListAll(OfPolicy(s.rules, key), agent), {}, bridge, d')
    case _ => d' == d
  }

  ghost predicate ProperSpecs(specs: map<RuleID, RuleSpec>) {
    forall id :: id in specs ==> ProperShape(specs[id].shape)
  }

  /** Policies as completePolicy makes them, and no phantoms. */
  ghost predicate Decent(s: State, e: Event, agent: string) {
    && (e.UpdatePolicy? ==> ProperSpecs(e.specs))
    && (e.ApplyRead? && Safe(s, e) ==> ChainNoPhantoms(s.rules, s.installed, e.order, agent, s.inFlight[e.group]))
  }

  lemma UpdateBeside(s: State, key: string, specs: map<RuleID, RuleSpec>, world: World, agent: string,
                     d: RuleDatabase, d': RuleDatabase, b: Background)
    requires Inv(s, world, agent) && ProperSpecs(s.specs) && ProperSpecs(specs) && AllResolve(specs, s.cache)
    requires forall id :: id in specs ==> id.policy == key && specs[id].shape.ruleID == id
    requires Beside(d, s.installed, b)
    requires var old_, new_ := ListAll(OfPolicy(s.rules, key), agent), ListAll(CompleteAll(specs, s.cache), agent);
      SyncDb(d, old_, new_, b.bridge, d')
    ensures UniqueNames(ListAll(CompleteAll(specs, s.cache), agent))
    ensures Beside(d', AfterUpdate(s, key, specs, agent).installed, b)
  {
    var old_, new_ := ListAll(OfPolicy(s.rules, key), agent), ListAll(CompleteAll(specs, s.cache), agent);
    FreshOwnIDs(specs, s.cache, agent);
    AllTyped(OfPolicy(s.rules, key), agent);
    AllTyped(CompleteAll(specs, s.cache), agent);
    UpdateNoPhantoms(s.installed, s.rules, key, new_, agent);
    SyncBeside(d, d', s.installed, b, old_, new_);
  }

  lemma StepBeside(s: State, e: Event, world: World, agent: string, d: RuleDatabase, d': RuleDatabase, b: Background)
    requires Inv(s, world, agent) && Enabled(s, e, world, agent)
    requires Safe(s, e) && Decent(s, e, agent) && ProperSpecs(s.specs)
    requires Beside(d, s.installed, b) && StepDb(s, e, agent, b.bridge, d, d')
    ensures Beside(d', Next(s, e, world, agent).installed, b)
  {
    match e
    case ApplyRead(group, order) => ApplyBeside(s, group, order, world, agent, d, d', b);
    case UpdatePolicy(key, specs) =>
      if AllResolve(specs, s.cache) { UpdateBeside(s, key, specs, world, agent, d, d', b); }
    case DeletePolicy(key) => DeleteBeside(s, key, world, agent, d, d', b);
    case _ =>
  }

  lemma ApplyBeside(s: State, g: string, order: seq<RuleID>, world: World, agent: string, d: RuleDatabase,
                    d': RuleDatabase, b: Background)
    requires Inv(s, world, agent) && ProperSpecs(s.specs) && Safe(s, ApplyRead(g, order))
    requires Decent(s, ApplyRead(g, order), agent)
    requires Beside(d, s.installed, b) && ChainDb(s.rules, order, agent, s.inFlight[g], b.bridge, d, d')
    ensures Beside(d', AfterApplyRead(s, g, order, agent).installed, b)
  {
    assert ProperRules(s.rules);
    ChainBeside(s.rules, s.installed, order, agent, s.inFlight[g], d, d', b);
  }

  lemma DeleteBeside(s: State, key: string, world: World, agent: string, d: RuleDatabase, d': RuleDatabase,
                     b: Background)
    requires Inv(s, world, agent) && ProperSpecs(s.specs) && Beside(d, s.installed, b)
    requires SyncDb(d, ListAll(OfPolicy(s.rules, key), agent), {}, b.bridge, d')
    ensures UniqueNames(ListAll(CompleteAll(map[], s.cache), agent))
    ensures Beside(d', AfterUpdate(s, key, map[], agent).installed, b)
  {
    assert ListAll(CompleteAll(map[], s.cache), agent) == {};
    UpdateBeside(s, key, map[], world, agent, d, d', b);
  }

  lemma SpecsStep(s: State, e: Event, world: World, agent: string)
    requires Enabled(s, e, world, agent) && Safe(s, e) && ProperSpecs(s.specs) && Decent(s, e, agent)
    ensures ProperSpecs(Next(s, e, world, agent).specs)
  {
  }

  /** The global pair, installed by name like the rules of policies. */
  function GlobalInstalled(g: Option<GlobalPolicy>): Installed {
    if g.None? then map[]
    else
      map[NameOf(GlobalRule(g.value, Ingress)) := GlobalRule(g.value, Ingress),
          NameOf(GlobalRule(g.value, Egress)) := GlobalRule(g.value, Egress)]
  }

  /** The rules by name. */
  ghost predicate Lists(m: Installed, rs: set<PolicyRule>) {
    m.Keys == Names(rs) && forall r :: r in rs ==> NameOf(r) in m && m[NameOf(r)] == r
  }

  lemma GlobalLists(g: Option<GlobalPolicy>)
    ensures Lists(GlobalInstalled(g), GlobalRules(g))
    ensures forall n :: n in GlobalInstalled(g) ==>
      && g.Some? && n.key.ruleType == GlobalDefaultRule && n.key.mode == g.value.mode
      && NameOf(GlobalInstalled(g)[n]) == n && GlobalInstalled(g)[n].action == g.value.action
  {
  }

  /** The same mode and another action: the pair keeps its names and its flow keys. */
  predicate Flips(g: Option<GlobalPolicy>, g': Option<GlobalPolicy>) {
    g.Some? && g'.Some? && g.value.mode == g'.value.mode && g.value.action != g'.value.action
  }

  /** One action for each flow key, around a change of the global default. */
  function ActionsOf(g: Option<GlobalPolicy>, g': Option<GlobalPolicy>): Actions {
    (f: FlowKey) =>
      if f.ruleType != GlobalDefaultRule then ActionFor(f.ruleType)
      else if g'.Some? && f.mode == g'.value.mode then g'.value.action
      else if g.Some? then g.value.action
      else Allow
  }

  lemma GlobalTyped(g: Option<GlobalPolicy>, g': Option<GlobalPolicy>)
    requires !Flips(g, g')
    ensures GlobalOnly(GlobalInstalled(g), ActionsOf(g, g')) && GlobalOnly(GlobalInstalled(g'), ActionsOf(g, g'))
  {
    GlobalLists(g);
    GlobalLists(g');
  }

  lemma ReplaceAt(base: Installed, m: Installed, m': Installed, rs: set<PolicyRule>, rs': set<PolicyRule>, n: RuleName)
    requires Lists(m, rs) && Lists(m', rs') && UniqueNames(rs') && base.Keys !! m.Keys + m'.Keys
    ensures n in Sync(base + m, rs, rs') <==> n in base + m'
    ensures n in Sync(base + m, rs, rs') ==> Sync(base + m, rs, rs')[n] == (base + m')[n]
  {
    SyncNames(base + m, rs, rs', n);
    if n in Names(rs' - rs) {
      var r :| r in rs' - rs && NameOf(r) == n;
      assert Sync(base + m, rs, rs')[n] == r;
    } else if n in m && n in m' {
      var r' :| r' in rs' && NameOf(r') == n;
      assert r' in rs;
    }
  }

  lemma SameMaps(m: Installed, m': Installed)
    requires forall n :: (n in m <==> n in m') && (n in m ==> m[n] == m'[n])
    ensures m == m'
  {
  }

  /** A sync from one listed part to another replaces that part. */
  lemma Replace(base: Installed, m: Installed, m': Installed, rs: set<PolicyRule>, rs': set<PolicyRule>)
    requires Lists(m, rs) && Lists(m', rs') && base.Keys !! m.Keys + m'.Keys && UniqueNames(rs')
    ensures Sync(base + m, rs, rs') == base + m'
  {
    forall n
      ensures n in Sync(base + m, rs, rs') <==> n in base + m'
      ensures n in Sync(base + m, rs, rs') ==> Sync(base + m, rs, rs')[n] == (base + m')[n]
    {
      ReplaceAt(base, m, m', rs, rs', n);
    }
    SameMaps(Sync(base + m, rs, rs'), base + m');
  }

  lemma ListsUnique(m: Installed, rs: set<PolicyRule>)
    requires Lists(m, rs)
    ensures UniqueNames(rs)
  {
  }

  /** All that is removed was installed. */
  lemma ReplaceNoPhantoms(all: Installed, m: Installed, rs: set<PolicyRule>, rs': set<PolicyRule>)
    requires Lists(m, rs) && m.Keys <= all.Keys && UniqueNames(rs')
    ensures NoPhantoms(all, rs, rs')
  {
  }

  lemma ListsTyped(m: Installed, rs: set<PolicyRule>, act: Actions)
    requires Lists(m, rs) && TypedInstalled(m, act)
    ensures Typed(rs, act)
  {
    forall r | r in rs
      ensures r.action == act(FlowKeyOf(r))
    {
      assert m[NameOf(r)] == r;
    }
  }

  lemma ReplaceBeside(d: RuleDatabase, d': RuleDatabase, installed: Installed, b: Background, global: Installed,
                      rs: set<PolicyRule>, rs': set<PolicyRule>)
    requires Beside(d, installed, b) && GlobalOnly(global, b.act) && Lists(b.global, rs) && Lists(global, rs')
    requires SyncDb(d, rs, rs', b.bridge, d')
    ensures Beside(d', installed, b.(global := global))
  {
    ListsUnique(global, rs');
    Replace(installed, b.global, global, rs, rs');
    ReplaceNoPhantoms(installed + b.global, b.global, rs, rs');
    ListsTyped(global, rs', b.act);
    BothTyped(installed, b.global, b.act);
    SyncStep(d, d', installed + b.global, b.internal, b.bridge, rs, rs', b.act);
  }

  lemma BothTyped(installed: Installed, global: Installed, act: Actions)
    requires PolicyOnly(installed) && GlobalOnly(global, act)
    ensures TypedInstalled(installed + global, act)
  {
  }

  lemma SyncStep(d: RuleDatabase, d': RuleDatabase, all: Installed, internal: set<Address>, bridge: string,
                 old_: set<PolicyRule>, new_: set<PolicyRule>, act: Actions)
    requires Mirrors(d, all, internal) && Covers(d, bridge) && TypedInstalled(all, act) && Typed(new_, act)
    requires UniqueNames(new_) && NoPhantoms(all, old_, new_) && SyncDb(d, old_, new_, bridge, d')
    ensures Mirrors(d', Sync(all, old_, new_), internal) && Covers(d', bridge)
  {
    var calls :| SyncCalls(calls, old_, new_) && UnusedFlows(d, calls) && CoveringCalls(calls, bridge)
                 && d' == AfterAll(d, calls);
    SyncMirrors(d, calls, all, internal, old_, new_, act);
    CoversBatch(d, calls, bridge);
  }

  /** The id still points to the rule, which has another flow now. */
  ghost predicate Stale(d: RuleDatabase, f: nat, k: Key, action: Action) {
    && f in d.flowIDToRules && d.flowIDToRules[f] == k
    && k in d.rules && d.rules[k].rule == action && f !in d.rules[k].flows.Values
  }

  /** The rule has its flow, and another action. */
  ghost predicate Pending(d: RuleDatabase, f: nat, k: Key, action: Action) {
    && f in d.flowIDToRules && d.flowIDToRules[f] == k
    && k in d.rules && d.rules[k].rule != action && f in d.rules[k].flows.Values
  }

  lemma FlipStep(d: RuleDatabase, call: RuleCall, f: nat, k: Key, action: Action)
    requires call.AddCall? && call.rule == action && Unused(d, call.flows)
    ensures Pending(d, f, k, action) ==>
      if call.key == k then Stale(After(d, call), f, k, action) else Pending(After(d, call), f, k, action)
    ensures Stale(d, f, k, action) ==> Stale(After(d, call), f, k, action)
  {
  }

  predicate Concerned(calls: seq<RuleCall>, k: Key) { exists i :: 0 <= i < |calls| && calls[i].key == k }

  ghost predicate AllAdd(calls: seq<RuleCall>, action: Action) {
    forall i :: 0 <= i < |calls| ==> calls[i].AddCall? && calls[i].rule == action
  }

  lemma UnusedBefore(d: RuleDatabase, calls: seq<RuleCall>, n: nat, i: nat)
    requires i < n <= |calls| && calls[i].AddCall? && Unused(AfterAll(d, calls[..i]), calls[i].flows)
    ensures Unused(AfterAll(d, calls[..n][..i]), calls[..n][i].flows)
  {
    assert calls[..n][..i] == calls[..i];
  }

  lemma UnusedFront(d: RuleDatabase, calls: seq<RuleCall>, n: nat, action: Action)
    requires n <= |calls| && UnusedFlows(d, calls) && AllAdd(calls, action)
    ensures UnusedFlows(d, calls[..n])
  {
    forall i | 0 <= i < n
      ensures Unused(AfterAll(d, calls[..n][..i]), calls[..n][i].flows)
    {
      UnusedBefore(d, calls, n, i);
    }
  }

  /** The same call by call. */
  ghost predicate AllUnused(d: RuleDatabase, calls: seq<RuleCall>) {
    calls == [] ||
    var front, call := calls[..|calls| - 1], calls[|calls| - 1];
    AllUnused(d, front) && call.AddCall? && Unused(AfterAll(d, front), call.flows)
  }

  lemma {:induction false} UnusedIsAll(d: RuleDatabase, calls: seq<RuleCall>, action: Action)
    requires UnusedFlows(d, calls) && AllAdd(calls, action)
    ensures AllUnused(d, calls)
  {
    if calls != [] {
      UnusedFront(d, calls, |calls| - 1, action);
      UnusedIsAll(d, calls[..|calls| - 1], action);
    }
  }

  lemma LastCall(calls: seq<RuleCall>, k: Key, action: Action)
    requires calls != [] && AllAdd(calls, action)
    ensures var front, call := calls[..|calls| - 1], calls[|calls| - 1];
      AllAdd(front, action) && (Concerned(calls, k) <==> Concerned(front, k) || call.key == k)
  {
    var front := calls[..|calls| - 1];
    assert forall i :: 0 <= i < |front| ==> front[i] == calls[i];
  }

  /** Along a batch of adds with one action, the rule is as before until it is its turn, and then its id is stale. */
  lemma {:induction false} FlipAlong(d: RuleDatabase, calls: seq<RuleCall>, f: nat, k: Key, action: Action)
    requires AllUnused(d, calls) && Pending(d, f, k, action) && AllAdd(calls, action)
    ensures Concerned(calls, k) ==> Stale(AfterAll(d, calls), f, k, action)
    ensures !Concerned(calls, k) ==> Pending(AfterAll(d, calls), f, k, action)
  {
    if calls != [] {
      LastCall(calls, k, action);
      FlipAlong(d, calls[..|calls| - 1], f, k, action);
      FlipStep(AfterAll(d, calls[..|calls| - 1]), calls[|calls| - 1], f, k, action);
    }
  }

  lemma OldFlow(d: RuleDatabase, k: Key, action: Action, v: string) returns (f: nat)
    requires Tracks(d) && k in d.rules && d.rules[k].rule != action && v in d.rules[k].flows
    ensures Pending(d, f, k, action)
  {
    f := d.rules[k].flows[v];
  }

  lemma StoredAction(d: RuleDatabase, installed: Installed, internal: set<Address>, r: PolicyRule)
    requires Referenced(d, installed, internal) && SameActions(d, installed) && Has(installed, r)
    ensures OfFlow(FlowKeyOf(r)) in d.rules && d.rules[OfFlow(FlowKeyOf(r))].rule == r.action
  {
    StaysInstalled(d, installed, internal, NameOf(r));
  }

  /** Adding a rule again with another action, among others that have it too. */
  lemma ChangeBreaks(d: RuleDatabase, calls: seq<RuleCall>, k: Key, action: Action, bridge: string)
    requires Tracks(d) && k in d.rules && d.rules[k].rule != action && Covers(d, bridge)
    requires UnusedFlows(d, calls) && Concerned(calls, k)
    requires AllAdd(calls, action)
    ensures !Tracks(AfterAll(d, calls))
  {
    var f := OldFlow(d, k, action, bridge);
    PendingBreaks(d, calls, f, k, action);
  }

  lemma PendingBreaks(d: RuleDatabase, calls: seq<RuleCall>, f: nat, k: Key, action: Action)
    requires UnusedFlows(d, calls) && Pending(d, f, k, action) && Concerned(calls, k)
    requires AllAdd(calls, action)
    ensures !Tracks(AfterAll(d, calls))
  {
    UnusedIsAll(d, calls, action);
    FlipAlong(d, calls, f, k, action);
    StaleBreaks(AfterAll(d, calls), f, k, action);
  }

  /** When only the action of the global default changes, every order of the calls leaves stale flow ids behind. */
  lemma FlipBreaks(d: RuleDatabase, calls: seq<RuleCall>, installed: Installed, internal: set<Address>,
                   g: GlobalPolicy, g': GlobalPolicy, bridge: string)
    requires Flips(Some(g), Some(g')) && Covers(d, bridge)
    requires Mirrors(d, installed + GlobalInstalled(Some(g)), internal)
    requires SyncCalls(calls, GlobalRules(Some(g)), GlobalRules(Some(g'))) && UnusedFlows(d, calls)
    ensures !Mirrors(AfterAll(d, calls), installed + GlobalInstalled(Some(g')), internal)
  {
    var r, before := GlobalRule(g, Ingress), installed + GlobalInstalled(Some(g));
    assert Has(before, r);
    FlipCalls(calls, g, g');
    StoredAction(d, before, internal, r);
    ChangeBreaks(d, calls, OfFlow(FlowKeyOf(r)), g'.action, bridge);
  }

  lemma StaleBreaks(d: RuleDatabase, f: nat, k: Key, action: Action)
    requires Stale(d, f, k, action)
    ensures !Tracks(d)
  {
  }

  lemma FlipCalls(calls: seq<RuleCall>, g: GlobalPolicy, g': GlobalPolicy)
    requires Flips(Some(g), Some(g')) && SyncCalls(calls, GlobalRules(Some(g)), GlobalRules(Some(g')))
    ensures AllAdd(calls, g'.action)
    ensures Concerned(calls, OfFlow(FlowKeyOf(GlobalRule(g, Ingress))))
  {
    var old_, new_ := GlobalRules(Some(g)), GlobalRules(Some(g'));
    assert Names(old_) == Names(new_) by {
      GlobalLists(Some(g));
      GlobalLists(Some(g'));
    }
    var r' := GlobalRule(g', Ingress);
    assert r' in new_ - old_;
    assert Adds(calls, OfFlow(FlowKeyOf(r')), ByName(NameOf(r')));
  }

  /** The agent: the reconciler, the global policy, the addresses of its links, and the datapath's database. */
  datatype Node = Node(s: State, global: Option<GlobalPolicy>, internal: set<Address>, d: RuleDatabase)

  datatype Step =
    | Reconcile(e: Event)
    | SetGlobal(policy: Option<GlobalPolicy>)
    | AddAddress(added: Address, flows: map<string, nat>)
    | RemoveAddress(removed: Address)

  ghost predicate StepTo(a: Node, step: Step, b: Node, world: World, agent: string, bridge: string) {
    match step
    case Reconcile(e) =>
      && Enabled(a.s, e, world, agent) && Decent(a.s, e, agent) && StepDb(a.s, e, agent, bridge, a.d, b.d)
      && b == a.(s := b.s, d := b.d) && (Safe(a.s, e) ==> b.s == Next(a.s, e, world, agent))
    case SetGlobal(g) =>
      && !Flips(a.global, g) && SyncDb(a.d, GlobalRules(a.global), GlobalRules(g), bridge, b.d)
      && b == a.(global := g, d := b.d)
    case AddAddress(x, flows) =>
      && FreshFlows(a.d, flows) && bridge in flows
      && b == a.(internal := a.internal + {x}, d := After(a.d, AddAddressOf(x, flows)))
    case RemoveAddress(x) =>
      && (x in a.internal || NoLinkHas(a.internal, x))
      && b == a.(internal := a.internal - {x}, d := After(a.d, RemoveAddressOf(x)))
  }

  function Behind(a: Node, g: Option<GlobalPolicy>, bridge: string): Background {
    Background(GlobalInstalled(a.global), a.internal, bridge, ActionsOf(a.global, g))
  }

  /** At rest: the reconciler's invariant, proper policies, and the database next to it. */
  ghost predicate NodeInv(a: Node, world: World, agent: string, bridge: string) {
    && Inv(a.s, world, agent) && ProperSpecs(a.s.specs)
    && Mirrors(a.d, a.s.installed + GlobalInstalled(a.global), a.internal) && PolicyOnly(a.s.installed)
    && Covers(a.d, bridge)
  }

  /** The reconciler starts without policies; whatever else is installed, the database mirrors it. */
  ghost predicate NodeRun(nodes: seq<Node>, steps: seq<Step>, world: World, agent: string, bridge: string) {
    && |nodes| == |steps| + 1 && nodes[0].s == Initial
    && Mirrors(nodes[0].d, GlobalInstalled(nodes[0].global), nodes[0].internal) && Covers(nodes[0].d, bridge)
    && forall j :: 0 <= j < |steps| ==> StepTo(nodes[j], steps[j], nodes[j + 1], world, agent, bridge)
  }

  lemma ReconcileStep(a: Node, e: Event, b: Node, world: World, agent: string, bridge: string)
    requires NodeInv(a, world, agent, bridge) && StepTo(a, Reconcile(e), b, world, agent, bridge)
    ensures NodeInv(b, world, agent, bridge)
  {
    GlobalTyped(a.global, a.global);
    StepInv(a.s, e, world, agent);
    SpecsStep(a.s, e, world, agent);
    StepBeside(a.s, e, world, agent, a.d, b.d, Behind(a, a.global, bridge));
  }

  /** ReconcileGlobalPolicy: unless only the action changes, the database stays in step. */
  lemma GlobalStep(a: Node, g: Option<GlobalPolicy>, b: Node, world: World, agent: string, bridge: string)
    requires NodeInv(a, world, agent, bridge) && StepTo(a, SetGlobal(g), b, world, agent, bridge)
    ensures NodeInv(b, world, agent, bridge)
  {
    GlobalTyped(a.global, g);
    GlobalLists(a.global);
    GlobalLists(g);
    ReplaceBeside(a.d, b.d, a.s.installed, Behind(a, g, bridge), GlobalInstalled(g), GlobalRules(a.global),
                  GlobalRules(g));
  }

  lemma CoversCall(d: RuleDatabase, call: RuleCall, bridge: string)
    requires Covers(d, bridge) && (call.AddCall? ==> bridge in call.flows)
    ensures Covers(After(d, call), bridge)
  {
  }

  lemma AddressStep(a: Node, step: Step, b: Node, world: World, agent: string, bridge: string)
    requires NodeInv(a, world, agent, bridge) && StepTo(a, step, b, world, agent, bridge)
    requires step.AddAddress? || step.RemoveAddress?
    ensures NodeInv(b, world, agent, bridge)
  {
    var installed := a.s.installed + GlobalInstalled(a.global);
    if step.AddAddress? {
      AddAddressMirrors(a.d, installed, a.internal, step.added, step.flows);
      CoversCall(a.d, AddAddressOf(step.added, step.flows), bridge);
    } else {
      RemoveAddressMirrors(a.d, installed, a.internal, step.removed);
      CoversCall(a.d, RemoveAddressOf(step.removed), bridge);
    }
  }

  lemma NodeStepInv(a: Node, step: Step, b: Node, world: World, agent: string, bridge: string)
    requires NodeInv(a, world, agent, bridge) && StepTo(a, step, b, world, agent, bridge)
    ensures NodeInv(b, world, agent, bridge)
  {
    match step
    case Reconcile(e) => ReconcileStep(a, e, b, world, agent, bridge);
    case SetGlobal(g) => GlobalStep(a, g, b, world, agent, bridge);
    case AddAddress(_, _) => AddressStep(a, step, b, world, agent, bridge);
    case RemoveAddress(_) => AddressStep(a, step, b, world, agent, bridge);
  }

  /**
   Over every run of the agent, whatever the order of the calls within each sync:
   at rest the database mirrors the installed rules, the global pair and the rules
   for the agent's own addresses, and each of its rules has a flow on each bridge.
   */
  lemma {:induction false} EveryDatabaseMirrors(nodes: seq<Node>, steps: seq<Step>, world: World, agent: string,
      bridge: string, i: nat)
    requires NodeRun(nodes, steps, world, agent, bridge) && i < |nodes|
    ensures NodeInv(nodes[i], world, agent, bridge)
  {
    if i == 0 {
      assert map[] + GlobalInstalled(nodes[0].global) == GlobalInstalled(nodes[0].global);
    } else {
      EveryDatabaseMirrors(nodes, steps, world, agent, bridge, i - 1);
      NodeStepInv(nodes[i - 1], steps[i - 1], nodes[i], world, agent, bridge);
    }
  }
}
