/**
 The datapath manager's rule database: which rules are installed, which policy
 rules refer to them, and which flow id belongs to which rule.
 */
module RuleReferences {
  import opened Strings

  /** EveroutePolicyRuleEntry; the key of a rule is its RuleID, a name one of its references. */
  datatype Entry<Rule, Name> = Entry(rule: Rule, flows: map<string, nat>, references: set<Name>)

  /** Rules and FlowIDToRules; a flow id points to the key of its rule. */
  datatype Database<!Key, Rule, Name> = Database(rules: map<Key, Entry<Rule, Name>>, flowIDToRules: map<nat, Key>)

  /** One flow per virtual switch, with ids that are not in use. */
  ghost predicate FreshFlows<Key, Rule, Name>(d: Database<Key, Rule, Name>, flows: map<string, nat>) {
    && (forall v :: v in flows ==> flows[v] !in d.flowIDToRules)
    && (forall v, v' :: v in flows && v' in flows && flows[v] == flows[v'] ==> v == v')
  }

  function Owned<Key>(flows: map<string, nat>, key: Key): map<nat, Key> { map f | f in flows.Values :: key }

  /** AddEveroutePolicyRule; `flows` are the flows that the bridges install, if they are asked to. */
  function AfterAdd<Key, Rule(==), Name>(d: Database<Key, Rule, Name>, key: Key, rule: Rule, name: Name,
                              flows: map<string, nat>): Database<Key, Rule, Name> {
    if key in d.rules && d.rules[key].rule == rule then
      d.(rules := d.rules[key := d.rules[key].(references := d.rules[key].references + {name})])
    else
      var references := if key in d.rules then d.rules[key].references else {name};
      Database(d.rules[key := Entry(rule, flows, references)], d.flowIDToRules + Owned(flows, key))
  }

  /** RemoveEveroutePolicyRule. */
  function AfterRemove<Key, Rule, Name(==)>(d: Database<Key, Rule, Name>, key: Key,
                                       name: Name): Database<Key, Rule, Name> {
    if key !in d.rules then d
    else
      var entry := d.rules[key];
      var references := entry.references - {name};
      if name in entry.references && references != {} then
        d.(rules := d.rules[key := entry.(references := references)])
      else
        Database(if references == {} then d.rules - {key} else d.rules, d.flowIDToRules - entry.flows.Values)
  }

  /** Every stored rule has a reference; flow ids and stored flows are inverse to each other. */
  ghost predicate Tracks<Key, Rule, Name>(d: Database<Key, Rule, Name>) {
    && (forall k :: k in d.rules ==> d.rules[k].references != {})
    && (forall k, v :: k in d.rules && v in d.rules[k].flows ==> d.rules[k].flows[v] in d.flowIDToRules
                                                                 && d.flowIDToRules[d.rules[k].flows[v]] == k)
    && (forall f :: f in d.flowIDToRules ==> d.flowIDToRules[f] in d.rules
                                             && f in d.rules[d.flowIDToRules[f]].flows.Values)
  }

  ghost predicate Refers<Key, Rule, Name>(d: Database<Key, Rule, Name>, key: Key, name: Name) {
    key in d.rules && name in d.rules[key].references
  }

  /** The same key with a different rule: the update branch. */
  predicate IsUpdate<Key, Rule(==), Name>(d: Database<Key, Rule, Name>, key: Key, rule: Rule) {
    key in d.rules && d.rules[key].rule != rule
  }

  /** Installing fresh flows for a key that has none keeps the database exact. */
  lemma InstallTracks<Key, Rule, Name>(d: Database<Key, Rule, Name>, key: Key, entry: Entry<Rule, Name>)
    requires Tracks(d) && FreshFlows(d, entry.flows) && entry.references != {}
    requires key in d.rules ==> d.rules[key].flows == map[]
    ensures Tracks(Database(d.rules[key := entry], d.flowIDToRules + Owned(entry.flows, key)))
  {
  }

  /**
   Adding keeps the database exact and records the reference, unless it takes the
   update branch: that one forgets the new reference and leaves the flow ids of
   the replaced flows behind.
   */
  lemma AddTracksIff<Key, Rule, Name>(d: Database<Key, Rule, Name>, key: Key, rule: Rule, name: Name, flows: map<string,
                                      nat>)
    requires Tracks(d) && FreshFlows(d, flows)
    ensures Tracks(AfterAdd(d, key, rule, name, flows)) && Refers(AfterAdd(d, key, rule, name, flows), key, name)
       <==> (IsUpdate(d, key, rule) ==> name in d.rules[key].references && d.rules[key].flows == map[])
  {
    if IsUpdate(d, key, rule) {
      if d.rules[key].flows != map[] {
        UpdateLeavesFlows(d, key, rule, name, flows);
      } else {
        InstallTracks(d, key, Entry(rule, flows, d.rules[key].references));
      }
    } else if key !in d.rules {
      InstallTracks(d, key, Entry(rule, flows, {name}));
    }
  }

  lemma UpdateLeavesFlows<Key, Rule, Name>(d: Database<Key, Rule, Name>, key: Key, rule: Rule, name: Name,
      flows: map<string, nat>)
    requires Tracks(d) && FreshFlows(d, flows) && IsUpdate(d, key, rule) && d.rules[key].flows != map[]
    ensures !Tracks(AfterAdd(d, key, rule, name, flows))
  {
  }

  /**
   Removing keeps the database exact, unless the name is not a reference of a
   rule with flows: then the flows go although the rule stays.
   */
  lemma RemoveTracksIff<Key, Rule, Name>(d: Database<Key, Rule, Name>, key: Key, name: Name)
    requires Tracks(d)
    ensures Tracks(AfterRemove(d, key, name))
       <==> (key in d.rules && name !in d.rules[key].references ==> d.rules[key].flows == map[])
  {
  }

  datatype Call<Key, Rule, Name> =
    | AddCall(key: Key, rule: Rule, name: Name, flows: map<string, nat>)
    | RemoveCall(key: Key, name: Name)

  /** Equal keys carry equal rules, removals name a current reference, flow ids are fresh. */
  ghost predicate Proper<Key, Rule, Name>(d: Database<Key, Rule, Name>, call: Call<Key, Rule, Name>) {
    match call
    case AddCall(key, rule, name, flows) => !IsUpdate(d, key, rule) && FreshFlows(d, flows)
    case RemoveCall(key, name) => Refers(d, key, name)
  }

  function After<Key, Rule(==), Name(==)>(d: Database<Key, Rule, Name>, call: Call<Key, Rule,
                           Name>): Database<Key, Rule, Name> {
    match call
    case AddCall(key, rule, name, flows) => AfterAdd(d, key, rule, name, flows)
    case RemoveCall(key, name) => AfterRemove(d, key, name)
  }

  function Run<Key, Rule(==), Name(==)>(calls: seq<Call<Key, Rule, Name>>): Database<Key, Rule, Name> {
    if calls == [] then Database(map[], map[]) else After(Run(calls[..|calls| - 1]), calls[|calls| - 1])
  }

  ghost predicate ProperRun<Key, Rule, Name>(calls: seq<Call<Key, Rule, Name>>) {
    forall i :: 0 <= i < |calls| ==> Proper(Run(calls[..i]), calls[i])
  }

  /** The references that the calls, read on their own, leave in place. */
  function Expected<Key(==), Rule, Name(==)>(calls: seq<Call<Key, Rule, Name>>): set<(Key, Name)> {
    if calls == [] then {}
    else
      var before := Expected(calls[..|calls| - 1]);
      match calls[|calls| - 1]
      case AddCall(key, _, name, _) => before + {(key, name)}
      case RemoveCall(key, name) => before - {(key, name)}
  }

  /** One proper call changes exactly the reference it is about. */
  lemma CallExact<Key, Rule, Name>(d: Database<Key, Rule, Name>, call: Call<Key, Rule, Name>, k: Key, n: Name)
    requires Tracks(d) && Proper(d, call)
    ensures Tracks(After(d, call))
    ensures call.AddCall? ==> (Refers(After(d, call), k, n) <==> Refers(d, k, n) || (k, n) == (call.key, call.name))
    ensures call.RemoveCall? ==> (Refers(After(d, call), k, n) <==> Refers(d, k, n) && (k, n) != (call.key, call.name))
  {
    match call
    case AddCall(key, rule, name, flows) =>
      AddTracksIff(d, key, rule, name, flows);
    case RemoveCall(key, name) =>
      RemoveTracksIff(d, key, name);
  }

  /**
   Over every proper sequence of calls: a rule is stored iff some reference to it
   remains, the references are those of the calls, and flow ids and stored flows
   are inverse to each other.
   */
  lemma {:induction false} RunExact<Key, Rule, Name>(calls: seq<Call<Key, Rule, Name>>)
    requires ProperRun(calls)
    ensures Tracks(Run(calls))
    ensures forall k, n :: Refers(Run(calls), k, n) <==> (k, n) in Expected(calls)
    ensures forall k :: k in Run(calls).rules <==> exists n :: (k, n) in Expected(calls)
  {
    if calls != [] {
      var front, call := calls[..|calls| - 1], calls[|calls| - 1];
      forall i | 0 <= i < |front|
        ensures Proper(Run(front[..i]), front[i])
      {
        assert front[..i] == calls[..i];
      }
      RunExact(front);
      assert Proper(Run(front), call);
      forall k, n
        ensures Refers(Run(calls), k, n) <==> (k, n) in Expected(calls)
      {
        CallExact(Run(front), call, k, n);
      }
      CallExact(Run(front), call, call.key, call.name);
    }
    forall k
      ensures k in Run(calls).rules <==> exists n :: (k, n) in Expected(calls)
    {
      if k in Run(calls).rules {
        var n :| n in Run(calls).rules[k].references;
        assert Refers(Run(calls), k, n);
      }
    }
  }

  /** Flow ids that neither the index nor any stored rule has. */
  ghost predicate Unused<Key, Rule, Name>(d: Database<Key, Rule, Name>, flows: map<string, nat>) {
    FreshFlows(d, flows) && forall k, v :: k in d.rules && v in flows ==> flows[v] !in d.rules[k].flows.Values
  }

  /** Stored rules have references, ids of different rules differ, and every indexed id belongs to its rule. */
  ghost predicate Sound<Key, Rule, Name>(d: Database<Key, Rule, Name>) {
    && (forall k :: k in d.rules ==> d.rules[k].references != {})
    && (forall k, k' :: k in d.rules && k' in d.rules && k != k' ==>
                        d.rules[k].flows.Values !! d.rules[k'].flows.Values)
    && (forall f :: f in d.flowIDToRules ==> d.flowIDToRules[f] in d.rules
                                             && f in d.rules[d.flowIDToRules[f]].flows.Values)
  }

  /** All ids of the rule are indexed. */
  ghost predicate Indexed<Key, Rule, Name>(d: Database<Key, Rule, Name>, k: Key) {
    k in d.rules ==> forall f :: f in d.rules[k].flows.Values ==> f in d.flowIDToRules && d.flowIDToRules[f] == k
  }

  lemma TracksSplit<Key, Rule, Name>(d: Database<Key, Rule, Name>)
    ensures Tracks(d) <==> Sound(d) && forall k :: k in d.rules ==> Indexed(d, k)
  {
    if Tracks(d) {
      forall k, f | k in d.rules && f in d.rules[k].flows.Values
        ensures f in d.flowIDToRules && d.flowIDToRules[f] == k
      {
        var v :| v in d.rules[k].flows && d.rules[k].flows[v] == f;
      }
    }
    if Sound(d) && forall k :: k in d.rules ==> Indexed(d, k) {
      forall k, v | k in d.rules && v in d.rules[k].flows
        ensures d.rules[k].flows[v] in d.flowIDToRules && d.flowIDToRules[d.rules[k].flows[v]] == k
      {
        assert d.rules[k].flows[v] in d.rules[k].flows.Values && Indexed(d, k);
      }
    }
  }

  /** A call that adds without changing a stored rule, or that removes whatever reference it likes. */
  ghost predicate Harmless<Key, Rule, Name>(d: Database<Key, Rule, Name>, call: Call<Key, Rule, Name>) {
    call.AddCall? ==> !IsUpdate(d, call.key, call.rule) && Unused(d, call.flows)
  }

  /** The removal of a reference that a stored rule does not have: its flows go although it stays. */
  ghost predicate Spoils<Key, Rule, Name>(d: Database<Key, Rule, Name>, call: Call<Key, Rule, Name>) {
    call.RemoveCall? && call.key in d.rules && call.name !in d.rules[call.key].references
  }

  lemma AddSound<Key, Rule, Name>(d: Database<Key, Rule, Name>, call: Call<Key, Rule, Name>)
    requires Sound(d) && Harmless(d, call) && call.AddCall?
    ensures Sound(After(d, call))
  {
  }

  lemma RemoveSound<Key, Rule, Name>(d: Database<Key, Rule, Name>, call: Call<Key, Rule, Name>)
    requires Sound(d) && call.RemoveCall?
    ensures Sound(After(d, call))
  {
  }

  /** Every harmless call changes exactly the reference it is about. */
  lemma CallRefers<Key, Rule, Name>(d: Database<Key, Rule, Name>, call: Call<Key, Rule, Name>, k: Key, n: Name)
    requires Sound(d) && Harmless(d, call)
    ensures call.AddCall? ==> (Refers(After(d, call), k, n) <==> Refers(d, k, n) || (k, n) == (call.key, call.name))
    ensures call.RemoveCall? ==> (Refers(After(d, call), k, n) <==> Refers(d, k, n) && (k, n) != (call.key, call.name))
  {
    if call.RemoveCall? && call.key in d.rules {
      assert forall m :: m in d.rules[call.key].references && m != call.name ==>
        m in d.rules[call.key].references - {call.name};
    }
  }

  lemma AddIndexed<Key, Rule, Name>(d: Database<Key, Rule, Name>, call: Call<Key, Rule, Name>, k: Key)
    requires Sound(d) && Harmless(d, call) && call.AddCall? && k in After(d, call).rules
    ensures if k in d.rules then Indexed(After(d, call), k) <==> Indexed(d, k) else Indexed(After(d, call), k)
  {
  }

  lemma RemoveIndexed<Key, Rule, Name>(d: Database<Key, Rule, Name>, call: Call<Key, Rule, Name>, k: Key)
    requires Sound(d) && call.RemoveCall? && k in After(d, call).rules
    ensures k in d.rules && d.rules[k].flows == After(d, call).rules[k].flows
    ensures Indexed(After(d, call), k)
       <==> if k == call.key && Spoils(d, call) then d.rules[k].flows == map[] else Indexed(d, k)
  {
  }

  /** And a rule that stays keeps its ids in the index, unless the call spoils it. */
  lemma CallIndexed<Key, Rule, Name>(d: Database<Key, Rule, Name>, call: Call<Key, Rule, Name>, k: Key)
    requires Sound(d) && Harmless(d, call) && k in After(d, call).rules
    ensures k in d.rules ==>
      (Indexed(After(d, call), k) <==> if k == call.key
                                       && Spoils(d, call) then d.rules[k].flows == map[] else Indexed(d, k))
    ensures k !in d.rules ==> Indexed(After(d, call), k)
  {
    if call.AddCall? { AddIndexed(d, call, k); } else { RemoveIndexed(d, call, k); }
  }

  /** The rule has not been spoiled since it was last absent. */
  ghost predicate Whole<Key, Rule, Name>(calls: seq<Call<Key, Rule, Name>>, k: Key) {
    calls == [] ||
    var front, call := calls[..|calls| - 1], calls[|calls| - 1];
    var d := Run(front);
    || k !in Run(calls).rules || k !in d.rules
    || (Whole(front, k) && !(call.key == k && Spoils(d, call) && d.rules[k].flows != map[]))
  }

  ghost predicate HarmlessRun<Key, Rule, Name>(calls: seq<Call<Key, Rule, Name>>) {
    forall i :: 0 <= i < |calls| ==> Harmless(Run(calls[..i]), calls[i])
  }

  /**
   Over every sequence of such calls the references are exactly those of the
   calls, and the ids of a stored rule are all in the index iff no removal of a
   reference that it does not have has hit it since it was installed.
   */
  lemma {:induction false} RunExactIff<Key, Rule, Name>(calls: seq<Call<Key, Rule, Name>>)
    requires HarmlessRun(calls)
    ensures Sound(Run(calls))
    ensures forall k, n :: Refers(Run(calls), k, n) <==> (k, n) in Expected(calls)
    ensures forall k :: k in Run(calls).rules ==> (Indexed(Run(calls), k) <==> Whole(calls, k))
  {
    if calls != [] {
      var front, call := calls[..|calls| - 1], calls[|calls| - 1];
      forall i | 0 <= i < |front|
        ensures Harmless(Run(front[..i]), front[i])
      {
        assert front[..i] == calls[..i];
      }
      RunExactIff(front);
      assert Harmless(Run(front), call);
      if call.AddCall? { AddSound(Run(front), call); } else { RemoveSound(Run(front), call); }
      forall k, n
        ensures Refers(Run(calls), k, n) <==> (k, n) in Expected(calls)
      {
        CallRefers(Run(front), call, k, n);
      }
      forall k | k in Run(calls).rules
        ensures Indexed(Run(calls), k) <==> Whole(calls, k)
      {
        CallIndexed(Run(front), call, k);
      }
    }
  }

  /** So the database is exact iff every rule is whole. */
  lemma RunTracksIff<Key, Rule, Name>(calls: seq<Call<Key, Rule, Name>>)
    requires HarmlessRun(calls)
    ensures Tracks(Run(calls)) <==> forall k :: k in Run(calls).rules ==> Whole(calls, k)
  {
    RunExactIff(calls);
    TracksSplit(Run(calls));
  }

  /** The database after a batch of calls. */
  function AfterAll<Key, Rule(==), Name(==)>(d: Database<Key, Rule, Name>, calls: seq<Call<Key, Rule,
                              Name>>): Database<Key, Rule, Name> {
    if calls == [] then d else After(AfterAll(d, calls[..|calls| - 1]), calls[|calls| - 1])
  }

  ghost predicate HarmlessBatch<Key, Rule, Name>(d: Database<Key, Rule, Name>, calls: seq<Call<Key, Rule, Name>>) {
    forall i :: 0 <= i < |calls| ==> Harmless(AfterAll(d, calls[..i]), calls[i])
  }

  /** No name is concerned twice. */
  predicate OncePerName<Key, Rule, Name(==)>(calls: seq<Call<Key, Rule, Name>>) {
    forall i, j :: 0 <= i < j < |calls| ==> calls[i].name != calls[j].name
  }

  predicate Adds<Key(==), Rule, Name(==)>(calls: seq<Call<Key, Rule, Name>>, k: Key, n: Name) {
    exists i :: 0 <= i < |calls| && calls[i].AddCall? && (calls[i].key, calls[i].name) == (k, n)
  }

  predicate Removes<Key(==), Rule, Name(==)>(calls: seq<Call<Key, Rule, Name>>, k: Key, n: Name) {
    exists i :: 0 <= i < |calls| && calls[i].RemoveCall? && (calls[i].key, calls[i].name) == (k, n)
  }

  /** Some call removes a reference to the key that was not there when the batch began. */
  ghost predicate HasPhantom<Key, Rule, Name>(d: Database<Key, Rule, Name>, calls: seq<Call<Key, Rule, Name>>, k: Key) {
    exists i :: 0 <= i < |calls| && calls[i].RemoveCall? && calls[i].key == k && !Refers(d, k, calls[i].name)
  }

  lemma BatchSteps<Key, Rule, Name>(calls: seq<Call<Key, Rule, Name>>, k: Key, n: Name)
    requires calls != []
    ensures var front, call := calls[..|calls| - 1], calls[|calls| - 1];
      && (Adds(calls, k, n) <==> Adds(front, k, n) || (call.AddCall? && (call.key, call.name) == (k, n)))
      && (Removes(calls, k, n) <==> Removes(front, k, n) || (call.RemoveCall? && (call.key, call.name) == (k, n)))
  {
    var front, call := calls[..|calls| - 1], calls[|calls| - 1];
    assert forall i :: 0 <= i < |front| ==> front[i] == calls[i];
  }

  lemma BatchFront<Key, Rule, Name>(d: Database<Key, Rule, Name>, calls: seq<Call<Key, Rule, Name>>)
    requires calls != [] && HarmlessBatch(d, calls) && OncePerName(calls)
    ensures HarmlessBatch(d, calls[..|calls| - 1]) && OncePerName(calls[..|calls| - 1])
    ensures Harmless(AfterAll(d, calls[..|calls| - 1]), calls[|calls| - 1])
  {
    var front := calls[..|calls| - 1];
    forall i | 0 <= i < |front|
      ensures Harmless(AfterAll(d, front[..i]), front[i])
    {
      assert front[..i] == calls[..i];
    }
  }

  lemma NotBefore<Key, Rule, Name>(calls: seq<Call<Key, Rule, Name>>, k: Key)
    requires calls != [] && OncePerName(calls)
    ensures var front, call := calls[..|calls| - 1], calls[|calls| - 1];
      !Adds(front, k, call.name) && !Removes(front, k, call.name)
  {
  }

  /** A batch leaves the references it adds and those it does not remove. */
  lemma {:induction false} BatchRefers<Key, Rule, Name>(d: Database<Key, Rule, Name>, calls: seq<Call<Key, Rule, Name>>)
    requires Sound(d) && HarmlessBatch(d, calls) && OncePerName(calls)
    ensures Sound(AfterAll(d, calls))
    ensures forall k, n :: Refers(AfterAll(d, calls), k, n) <==> Adds(calls, k, n)
                                                                 || (Refers(d, k, n) && !Removes(calls, k, n))
  {
    if calls != [] {
      var front, call := calls[..|calls| - 1], calls[|calls| - 1];
      var mid := AfterAll(d, front);
      BatchFront(d, calls);
      BatchRefers(d, front);
      if call.AddCall? { AddSound(mid, call); } else { RemoveSound(mid, call); }
      forall k, n
        ensures Refers(AfterAll(d, calls), k, n) <==> Adds(calls, k, n) || (Refers(d, k, n) && !Removes(calls, k, n))
      {
        CallRefers(mid, call, k, n);
        BatchSteps(calls, k, n);
        NotBefore(calls, k);
      }
    }
  }

  /** A rule without phantoms stays indexed. */
  lemma {:induction false} BatchIndexed<Key, Rule, Name>(d: Database<Key, Rule, Name>, calls: seq<Call<Key, Rule,
      Name>>, k: Key)
    requires Sound(d) && HarmlessBatch(d, calls) && OncePerName(calls)
    requires Indexed(d, k) && !HasPhantom(d, calls, k)
    ensures Indexed(AfterAll(d, calls), k)
  {
    if calls != [] {
      var front, call := calls[..|calls| - 1], calls[|calls| - 1];
      var mid := AfterAll(d, front);
      BatchFront(d, calls);
      BatchRefers(d, front);
      assert forall i :: 0 <= i < |front| ==> front[i] == calls[i];
      BatchIndexed(d, front, k);
      NotBefore(calls, k);
      assert calls[|calls| - 1] == call;
      if k in AfterAll(d, calls).rules { CallIndexed(mid, call, k); }
    }
  }

  /** DpManager's rule bookkeeping, updated in place. */
  class DpManager<Key(==), Rule(==), Name(==)> {
    var rules: map<Key, Entry<Rule, Name>>
    var flowIDToRules: map<nat, Key>

    function View(): Database<Key, Rule, Name>
      reads this
    {
      Database(rules, flowIDToRules)
    }

    constructor ()
      ensures View() == Database(map[], map[])
    {
      rules, flowIDToRules := map[], map[];
    }

    /** `installed` is what AddMicroSegmentRule returns on each switch, or None when one of them fails. */
    method AddEveroutePolicyRule(key: Key, rule: Rule, name: Name, installed: Option<map<string, nat>>)
      returns (ok: bool)
      modifies this
      ensures ok <==> (key in old(rules) && old(rules)[key].rule == rule) || installed.Some?
      ensures ok ==>
        View() == AfterAdd(old(View()), key, rule, name, if installed.Some? then installed.value else map[])
      ensures !ok ==> View() == old(View())
    {
      if key in rules && rules[key].rule == rule {
        rules := rules[key := rules[key].(references := rules[key].references + {name})];
        return true;
      }
      if installed.None? {
        return false;
      }
      var references := if key in rules then rules[key].references else {name};
      rules := rules[key := Entry(rule, installed.value, references)];
      RecordFlows(key, installed.value);
      ok := true;
    }

    method RecordFlows(key: Key, flows: map<string, nat>)
      modifies this`flowIDToRules
      ensures flowIDToRules == old(flowIDToRules) + Owned(flows, key)
    {
      var todo := flows.Keys;
      ghost var before := flowIDToRules;
      ghost var done: set<nat> := {};
      while todo != {}
        invariant todo <= flows.Keys && done == set v | v in flows && v !in todo :: flows[v]
        invariant flowIDToRules == before + map f | f in done :: key
        decreases todo
      {
        var v :| v in todo;
        flowIDToRules := flowIDToRules[flows[v] := key];
        todo := todo - {v};
        done := done + {flows[v]};
      }
      assert done == flows.Values;
    }

    method RemoveEveroutePolicyRule(key: Key, name: Name)
      modifies this
      ensures View() == AfterRemove(old(View()), key, name)
    {
      if key !in rules {
        return;
      }
      var entry := rules[key];
      var references := entry.references - {name};
      if name in entry.references && references != {} {
        rules := rules[key := entry.(references := references)];
        return;
      }
      var todo := entry.flows.Keys;
      ghost var before, stored := flowIDToRules, rules;
      while todo != {}
        invariant todo <= entry.flows.Keys && rules == stored
        invariant flowIDToRules == before - set v | v in entry.flows && v !in todo :: entry.flows[v]
        decreases todo
      {
        var v :| v in todo;
        flowIDToRules := flowIDToRules - {entry.flows[v]};
        todo := todo - {v};
      }
      ghost var removed := set v | v in entry.flows && v !in todo :: entry.flows[v];
      assert removed == entry.flows.Values;
      assert flowIDToRules == before - removed;
      if references == {} {
        rules := rules - {key};
      }
    }
  }
}
