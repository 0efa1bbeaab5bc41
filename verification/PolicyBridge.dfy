/**
 The policy bridge: its tables, the flow that each policy rule becomes, and the
 verdict on a packet.
 */
module PolicyBridge {
  import opened Strings
  import opened PolicyRules
  import opened CtLabel
  import opened FlowTables

  const CtStateTable: nat := 1
  const DirectionSelectionTable: nat := 10
  const EgressTier1Table: nat := 20
  const EgressTier2MonitorTable: nat := 24
  const EgressTier2Table: nat := 25
  const EgressTier3MonitorTable: nat := 29
  const EgressTier3Table: nat := 30
  const IngressTier1Table: nat := 50
  const IngressTier2MonitorTable: nat := 54
  const IngressTier2Table: nat := 55
  const IngressTier3MonitorTable: nat := 59
  const IngressTier3Table: nat := 60
  const CtCommitTable: nat := 70
  const CtDropTable: nat := 71
  const SfcPolicyTable: nat := 80
  const PolicyForwardingTable: nat := 90

  const MidMatchPriority: nat := 200
  const NormalMatchPriority: nat := 100
  const FlowMatchOffset: nat := 3
  const FlowMissPriority: nat := 10
  const GlobalDefaultPriority: nat := 40

  datatype Direction = Out | In
  datatype Tier = Tier1 | Tier2 | Tier3
  datatype Mode = Work | Monitor

  /** The ports towards the local and the cls bridge, and the label bit that the drop flow tests. */
  datatype Config = Config(localPort: nat, clsPort: nat, labelBit: nat)

  function Miss(next: nat): Flow { Flow(FlowMissPriority, MatchAll, [], Goto(next)) }

  function DirectionFlows(c: Config): set<Flow> {
    { Flow(MidMatchPriority, MatchAll.(inPort := Some(c.localPort)), [], Goto(EgressTier1Table)),
      Flow(MidMatchPriority, MatchAll.(inPort := Some(c.clsPort)), [], Goto(IngressTier1Table)) }
  }

  function CtStateFlows(): set<Flow> {
    { Flow(MidMatchPriority + FlowMatchOffset, MatchAll.(ctNew := Some(false), ctEst := Some(true)), [],
      Goto(CtCommitTable)),
      Flow(MidMatchPriority, MatchAll.(ctInv := Some(true), ctTrk := Some(true)), [], Discard),
      Flow(FlowMissPriority, MatchAll.(ip := true), [], Goto(DirectionSelectionTable)) }
  }

  const FilterFlow: Flow := Flow(MidMatchPriority + FlowMatchOffset,
    MatchAll.(ip := true, tcpWithoutSyn := true, ctNew := Some(true), ctTrk := Some(true), reg4 := Some(0x20)), [],
      Goto(CtDropTable))

  function LabelFlow(c: Config): Flow {
    Flow(MidMatchPriority + FlowMatchOffset, MatchAll.(ip := true, labelBit := Some(c.labelBit)), [LoadReg4(0x20)],
      Goto(CtDropTable))
  }

  const CommitFlow: Flow := Flow(MidMatchPriority, MatchAll.(ip := true, ctNew := Some(true), ctTrk := Some(true)), [],
    Commit(CtDropTable))

  function CommitFlows(c: Config): set<Flow> { {FilterFlow, LabelFlow(c), CommitFlow, Miss(CtDropTable)} }

  const DropFlow: Flow := Flow(MidMatchPriority + FlowMatchOffset, MatchAll.(reg4 := Some(0x20)), [], Discard)
  const PassFlow: Flow := Flow(MidMatchPriority + FlowMatchOffset, MatchAll.(reg4 := Some(0x30)), [],
    Goto(SfcPolicyTable))

  const DropFlows: set<Flow> := {DropFlow, PassFlow, Miss(SfcPolicyTable)}

  function ForwardingFlows(c: Config): set<Flow> {
    { Flow(NormalMatchPriority, MatchAll.(inPort := Some(c.localPort), reg6 := Some(0)), [], Output(c.clsPort)),
      Flow(NormalMatchPriority, MatchAll.(inPort := Some(c.clsPort), reg6 := Some(0)), [], Output(c.localPort)) }
  }

  /** GetTierTable: the table of a rule and where a matching packet goes; None where both are nil. */
  function GetTierTable(direction: Direction, tier: Tier, mode: Mode): Option<(nat, nat)> {
    match (mode, direction, tier)
    case (Work, Out, Tier1) => Some((EgressTier1Table, CtCommitTable))
    case (Work, Out, Tier2) => Some((EgressTier2Table, CtCommitTable))
    case (Work, Out, Tier3) => Some((EgressTier3Table, CtCommitTable))
    case (Work, In, Tier1) => Some((IngressTier1Table, CtCommitTable))
    case (Work, In, Tier2) => Some((IngressTier2Table, CtCommitTable))
    case (Work, In, Tier3) => Some((IngressTier3Table, CtCommitTable))
    case (Monitor, _, Tier1) => None
    case (Monitor, Out, Tier2) => Some((EgressTier2MonitorTable, EgressTier2Table))
    case (Monitor, Out, Tier3) => Some((EgressTier3MonitorTable, EgressTier3Table))
    case (Monitor, In, Tier2) => Some((IngressTier2MonitorTable, IngressTier2Table))
    case (Monitor, In, Tier3) => Some((IngressTier3MonitorTable, IngressTier3Table))
  }

  function WorkTable(d: Direction, tier: Tier): nat { GetTierTable(d, tier, Work).value.0 }

  function MonitorTable(d: Direction, tier: Tier): nat
    requires tier != Tier1
  {
    GetTierTable(d, tier, Monitor).value.0
  }

  /** Where initPolicyTable sends a packet that no work rule of the tier matches. */
  function WorkMiss(d: Direction, tier: Tier): nat {
    match tier
    case Tier1 => MonitorTable(d, Tier2)
    case Tier2 => MonitorTable(d, Tier3)
    case Tier3 => CtCommitTable
  }

  /** A policy rule as it is handed to AddMicroSegmentRule, with the id of its flow. */
  datatype PolicyFlow = PolicyFlow(direction: Direction, tier: Tier, mode: Mode, rule: EveroutePolicyRule, id: Word)

  /** The tier has such a table and the action is known. */
  predicate Installable(r: PolicyFlow) {
    GetTierTable(r.direction, r.tier, r.mode).Some?
    && (r.mode == Work ==> r.rule.action == "allow" || r.rule.action == "deny")
  }

  function RuleLoads(r: PolicyFlow): seq<Load> {
    if r.mode == Monitor then [LoadMonitorID(r.id)]
    else if r.rule.action == "deny" then [LoadReg4(0x20), LoadWorkID(r.id, true)]
    else if r.rule.priority == GlobalDefaultPriority then [LoadReg4(0x30), LoadWorkID(r.id, false)]
    else [LoadWorkID(r.id, false)]
  }

  function RuleFlow(r: PolicyFlow): Flow
    requires Installable(r)
  {
    Flow(r.rule.priority, MatchAll.(ip := true, rule := Some(r.rule)), RuleLoads(r),
      Goto(GetTierTable(r.direction, r.tier, r.mode).value.1))
  }

  predicate AllInstallable(rs: set<PolicyFlow>) { forall r :: r in rs ==> Installable(r) }

  function FlowsOf(rs: set<PolicyFlow>): set<Flow>
    requires AllInstallable(rs)
  {
    set r | r in rs :: RuleFlow(r)
  }

  /** The rules that share a policy table. */
  function RulesIn(rs: set<PolicyFlow>, d: Direction, tier: Tier, mode: Mode): set<PolicyFlow> {
    set r | r in rs && r.direction == d && r.tier == tier && r.mode == mode
  }

  function WorkFlows(rs: set<PolicyFlow>, d: Direction, tier: Tier): set<Flow>
    requires AllInstallable(rs)
  {
    FlowsOf(RulesIn(rs, d, tier, Work)) + {Miss(WorkMiss(d, tier))}
  }

  function MonitorFlows(rs: set<PolicyFlow>, d: Direction, tier: Tier): set<Flow>
    requires AllInstallable(rs)
  {
    FlowsOf(RulesIn(rs, d, tier, Monitor)) + {Miss(WorkTable(d, tier))}
  }

  /** The tables that every packet ends up in are as BridgeInit leaves them. */
  ghost predicate HasBase(tables: Tables, c: Config) {
    && CtStateTable in tables && tables[CtStateTable] == CtStateFlows()
    && DirectionSelectionTable in tables && tables[DirectionSelectionTable] == DirectionFlows(c)
    && CtCommitTable in tables && tables[CtCommitTable] == CommitFlows(c)
    && CtDropTable in tables && tables[CtDropTable] == DropFlows
    && SfcPolicyTable in tables && tables[SfcPolicyTable] == {Miss(PolicyForwardingTable)}
    && PolicyForwardingTable in tables && tables[PolicyForwardingTable] == ForwardingFlows(c)
  }

  predicate IsConfig(c: Config) { c.localPort != c.clsPort && c.labelBit < 128 }

  /** A packet that entered through one of the two patch ports, with reg6 untouched. */
  predicate Entered(p: Packet, c: Config) { (p.inPort == c.localPort || p.inPort == c.clsPort) && p.reg6 == 0 }

  function OtherPort(p: Packet, c: Config): nat { if p.inPort == c.localPort then c.clsPort else c.localPort }

  lemma ForwardingStage(tables: Tables, c: Config, tie: TieBreak, p: Packet, hits: EveroutePolicyRule -> bool)
    requires HasBase(tables, c) && IsConfig(c) && Chooses(tie) && Entered(p, c)
    ensures Exec(tables, tie, PolicyForwardingTable, p, hits) == Outcome(Some(OtherPort(p, c)), p.committed)
  {
    var out := Flow(NormalMatchPriority, MatchAll.(inPort := Some(p.inPort), reg6 := Some(0)), [],
                    Output(OtherPort(p, c)));
    var f := TakesBest(tables, tie, PolicyForwardingTable, p, hits, out);
    assert f == out;
  }

  lemma SfcStage(tables: Tables, c: Config, tie: TieBreak, p: Packet, hits: EveroutePolicyRule -> bool)
    requires HasBase(tables, c) && IsConfig(c) && Chooses(tie) && Entered(p, c)
    ensures Exec(tables, tie, SfcPolicyTable, p, hits) == Outcome(Some(OtherPort(p, c)), p.committed)
  {
    var f := TakesBest(tables, tie, SfcPolicyTable, p, hits, Miss(PolicyForwardingTable));
    ForwardingStage(tables, c, tie, p, hits);
  }

  /** Table 71: register 4 decides. */
  lemma DropStage(tables: Tables, c: Config, tie: TieBreak, p: Packet, hits: EveroutePolicyRule -> bool)
    requires HasBase(tables, c) && IsConfig(c) && Chooses(tie) && Entered(p, c)
    ensures Exec(tables, tie, CtDropTable, p, hits)
         == Outcome(if p.reg4 == 0x20 then None else Some(OtherPort(p, c)), p.committed)
  {
    SfcStage(tables, c, tie, p, hits);
    var f := TakesBest(tables, tie, CtDropTable, p, hits, Miss(SfcPolicyTable));
    if p.reg4 == 0x20 {
      assert Matches(DropFlow.match_, p, hits);
      assert f == DropFlow;
    } else {
      assert f == PassFlow || f == Miss(SfcPolicyTable);
    }
  }

  predicate Labelled(p: Packet, c: Config)
    requires IsConfig(c)
  {
    p.ctLabel[c.labelBit]
  }

  predicate IsNew(p: Packet) { p.ct.new_ && p.ct.trk }

  /** A denied TCP packet without SYN must not create a connection. */
  predicate Filtered(p: Packet) { p.reg4 == 0x20 && p.isTCP && !p.syn }

  /** Table 70: a labelled packet is dropped, a filtered one passes by, and a new one is committed. */
  lemma CommitStage(tables: Tables, c: Config, tie: TieBreak, p: Packet, hits: EveroutePolicyRule -> bool)
    requires HasBase(tables, c) && IsConfig(c) && Chooses(tie) && Entered(p, c) && p.isIP && p.committed.None?
    ensures Exec(tables, tie, CtCommitTable, p, hits) ==
      Outcome(if p.reg4 == 0x20 || Labelled(p, c) then None else Some(OtherPort(p, c)),
              if IsNew(p) && !Labelled(p, c) && !Filtered(p) then Some(p.xxreg0) else None)
  {
    var f := TakesBest(tables, tie, CtCommitTable, p, hits, Miss(CtDropTable));
    DropStage(tables, c, tie, p, hits);
    DropStage(tables, c, tie, p.(reg4 := 0x20), hits);
    DropStage(tables, c, tie, p.(committed := Some(p.xxreg0)), hits);
    CommitChoice(c, p, hits, f);
    LoadOne(p, LoadReg4(0x20));
  }

  lemma LoadOne(p: Packet, load: Load)
    ensures ApplyLoads(p, [load]) == ApplyLoad(p, load)
  {
  }

  lemma LoadTwo(p: Packet, load: Load, load': Load)
    ensures ApplyLoads(p, [load, load']) == ApplyLoad(ApplyLoad(p, load), load')
  {
    assert [load, load'][1..] == [load'];
    LoadOne(ApplyLoad(p, load), load');
  }

  /** Which flow of table 70 can be the best one. */
  lemma CommitChoice(c: Config, p: Packet, hits: EveroutePolicyRule -> bool, f: Flow)
    requires IsConfig(c) && p.isIP && f in Best(CommitFlows(c), p, hits)
    ensures Labelled(p, c) ==> f == LabelFlow(c) || (f == FilterFlow && p.reg4 == 0x20)
    ensures !Labelled(p, c) && IsNew(p) && Filtered(p) ==> f == FilterFlow
    ensures !Labelled(p, c) && IsNew(p) && !Filtered(p) ==> f == CommitFlow
    ensures !Labelled(p, c) && !IsNew(p) ==> f == Miss(CtDropTable)
  {
  }

  ghost predicate HasTable(tables: Tables, table: nat, flows: set<Flow>) { table in tables && tables[table] == flows }

  /** The policy tables of a direction hold the flows of their rules and a miss flow. */
  ghost predicate HasDirection(tables: Tables, rs: set<PolicyFlow>, d: Direction)
    requires AllInstallable(rs)
  {
    && (forall tier :: HasTable(tables, WorkTable(d, tier), WorkFlows(rs, d, tier)))
    && (forall tier :: tier != Tier1 ==> HasTable(tables, MonitorTable(d, tier), MonitorFlows(rs, d, tier)))
  }

  ghost predicate HasRules(tables: Tables, rs: set<PolicyFlow>) {
    AllInstallable(rs) && HasDirection(tables, rs, Out) && HasDirection(tables, rs, In)
  }

  /** The rules among those of a table that match the packet. */
  function Hitting(ws: set<PolicyFlow>, hits: EveroutePolicyRule -> bool): set<PolicyFlow> {
    set r | r in ws && hits(r.rule)
  }

  predicate IsTop(r: PolicyFlow, ws: set<PolicyFlow>) {
    r in ws && forall r' :: r' in ws ==> r'.rule.priority <= r.rule.priority
  }

  /** Every rule outranks a table's miss flow. */
  predicate Outranks(rs: set<PolicyFlow>) { forall r :: r in rs ==> r.rule.priority > FlowMissPriority }

  /** In a policy table the packet takes a matching rule of top priority, or the miss flow if no rule matches. */
  lemma PolicyTable(tables: Tables, tie: TieBreak, table: nat, ws: set<PolicyFlow>, next: nat, p: Packet,
                    hits: EveroutePolicyRule -> bool)
    returns (r: Option<PolicyFlow>)
    requires AllInstallable(ws) && Outranks(ws) && Chooses(tie) && p.isIP
    requires HasTable(tables, table, FlowsOf(ws) + {Miss(next)})
    ensures r.None? <==> Hitting(ws, hits) == {}
    ensures r.Some? ==> IsTop(r.value, Hitting(ws, hits))
    ensures r.Some? ==> Exec(tables, tie, table, p, hits) == Take(tables, tie, table, p, hits, RuleFlow(r.value))
    ensures r.None? ==> Exec(tables, tie, table, p, hits) == Take(tables, tie, table, p, hits, Miss(next))
  {
    var f := TakesBest(tables, tie, table, p, hits, Miss(next));
    if f in FlowsOf(ws) {
      var x :| x in ws && RuleFlow(x) == f;
      r := Some(x);
      forall x' | x' in Hitting(ws, hits)
        ensures x'.rule.priority <= x.rule.priority
      {
        RuleFlowMatches(x', p, hits);
        assert RuleFlow(x') in tables[table];
      }
      RuleFlowMatches(x, p, hits);
    } else {
      r := None;
      assert f == Miss(next);
      forall x | x in ws
        ensures !hits(x.rule)
      {
        RuleFlowMatches(x, p, hits);
        assert RuleFlow(x) in tables[table];
      }
    }
  }

  lemma RuleFlowMatches(r: PolicyFlow, p: Packet, hits: EveroutePolicyRule -> bool)
    requires Installable(r) && p.isIP
    ensures Matches(RuleFlow(r).match_, p, hits) <==> hits(r.rule)
  {
  }

  function WorkMatches(rs: set<PolicyFlow>, d: Direction, tier: Tier,
                       hits: EveroutePolicyRule -> bool): set<PolicyFlow> {
    Hitting(RulesIn(rs, d, tier, Work), hits)
  }

  /** Only the label register may differ, and not in its deny bit. */
  predicate SameButLabel(p: Packet, p': Packet) { p' == p.(xxreg0 := p'.xxreg0) && p'.xxreg0[127] == p.xxreg0[127] }

  /** A monitor table passes every packet on to its work table. */
  lemma MonitorStage(tables: Tables, rs: set<PolicyFlow>, tie: TieBreak, d: Direction, tier: Tier, p: Packet,
                     hits: EveroutePolicyRule -> bool)
    returns (p': Packet)
    requires HasRules(tables, rs) && Outranks(rs) && Chooses(tie) && p.isIP && tier != Tier1
    ensures SameButLabel(p, p')
    ensures Exec(tables, tie, MonitorTable(d, tier), p, hits) == Exec(tables, tie, WorkTable(d, tier), p', hits)
  {
    var r := PolicyTable(tables, tie, MonitorTable(d, tier), RulesIn(rs, d, tier, Monitor), WorkTable(d, tier), p,
                         hits);
    if r.None? {
      p' := p;
    } else {
      p' := MonitorLoaded(p, r.value.id);
    }
  }

  lemma MonitorLoaded(p: Packet, id: Word) returns (p': Packet)
    ensures p' == ApplyLoads(p, [LoadMonitorID(id)]) && SameButLabel(p, p')
  {
    LoadOne(p, LoadMonitorID(id));
    HighBits(p.xxreg0, id, false);
    p' := p.(xxreg0 := MonitorLoad(p.xxreg0, id));
    assert p'.xxreg0[127] == p'.xxreg0[88..][39] && p.xxreg0[127] == p.xxreg0[88..][39];
  }

  predicate Denies(r: PolicyFlow) { r.rule.action == "deny" }

  /** Work rules of equal priority do the same, as all generated rules do. */
  predicate SameAction(rs: set<PolicyFlow>) {
    forall r, r' :: r in rs && r' in rs && r.mode == Work && r'.mode == Work && r.rule.priority == r'.rule.priority ==>
                    r.rule.action == r'.rule.action
  }

  predicate TopDenies(ws: set<PolicyFlow>) { exists r :: r in ws && IsTop(r, ws) && Denies(r) }

  /** The outcome that goes with a verdict. */
  ghost predicate Concludes(out: Outcome, p: Packet, c: Config, denied: bool)
    requires IsConfig(c)
  {
    && out.output == (if denied || Labelled(p, c) then None else Some(OtherPort(p, c)))
    && (out.committed.Some? <==> IsNew(p) && !Labelled(p, c) && !(denied && p.isTCP && !p.syn))
    && (out.committed.Some? ==> out.committed.value[127] == denied)
  }

  /** A packet on which no verdict has been passed. */
  predicate Undecided(p: Packet, c: Config) {
    Entered(p, c) && p.isIP && p.reg4 == 0 && p.committed.None? && !p.xxreg0[127]
  }

  /** A work table decides if one of its rules matches. */
  lemma WorkStage(tables: Tables, c: Config, rs: set<PolicyFlow>, tie: TieBreak, d: Direction, tier: Tier, p: Packet,
                  hits: EveroutePolicyRule -> bool)
    requires HasBase(tables, c) && HasRules(tables, rs) && IsConfig(c)
    requires Outranks(rs) && SameAction(rs) && Chooses(tie) && Undecided(p, c)
    ensures WorkMatches(rs, d, tier, hits) == {} ==>
      Exec(tables, tie, WorkTable(d, tier), p, hits) == Exec(tables, tie, WorkMiss(d, tier), p, hits)
    ensures WorkMatches(rs, d, tier, hits) != {} ==>
      Concludes(Exec(tables, tie, WorkTable(d, tier), p, hits), p, c, TopDenies(WorkMatches(rs, d, tier, hits)))
  {
    HasWork(tables, rs, d, tier);
    var r := PolicyTable(tables, tie, WorkTable(d, tier), RulesIn(rs, d, tier, Work), WorkMiss(d, tier), p, hits);
    if r.Some? {
      RuleStage(tables, c, tie, WorkTable(d, tier), p, hits, r.value);
      TopUniform(rs, WorkMatches(rs, d, tier, hits), r.value);
    } else {
      MissTaken(tables, tie, WorkTable(d, tier), p, hits, WorkMiss(d, tier));
    }
  }

  lemma HasWork(tables: Tables, rs: set<PolicyFlow>, d: Direction, tier: Tier)
    requires HasRules(tables, rs) && Outranks(rs)
    ensures AllInstallable(RulesIn(rs, d, tier, Work)) && Outranks(RulesIn(rs, d, tier, Work))
    ensures HasTable(tables, WorkTable(d, tier), FlowsOf(RulesIn(rs, d, tier, Work)) + {Miss(WorkMiss(d, tier))})
    ensures WorkTable(d, tier) < WorkMiss(d, tier) <= CtCommitTable
  {
    assert HasDirection(tables, rs, d);
    assert HasTable(tables, WorkTable(d, tier), WorkFlows(rs, d, tier));
  }

  lemma MissTaken(tables: Tables, tie: TieBreak, table: nat, p: Packet, hits: EveroutePolicyRule -> bool, next: nat)
    requires table < next < NumTables
    ensures Take(tables, tie, table, p, hits, Miss(next)) == Exec(tables, tie, next, p, hits)
  {
  }

  lemma TopUniform(rs: set<PolicyFlow>, ws: set<PolicyFlow>, r: PolicyFlow)
    requires SameAction(rs) && ws <= rs && (forall x :: x in ws ==> x.mode == Work) && IsTop(r, ws)
    ensures TopDenies(ws) <==> Denies(r)
  {
  }

  lemma RuleLoaded(p: Packet, c: Config, r: PolicyFlow) returns (p': Packet)
    requires Installable(r) && r.mode == Work && Undecided(p, c)
    ensures p' == ApplyLoads(p, RuleLoads(r))
    ensures p' == p.(reg4 := p'.reg4, xxreg0 := p'.xxreg0)
    ensures (p'.reg4 == 0x20 <==> Denies(r)) && p'.xxreg0[127] == Denies(r)
  {
    p' := ApplyLoads(p, RuleLoads(r));
    HighBits(p.xxreg0, r.id, Denies(r));
    LoadTwo(p, LoadReg4(0x20), LoadWorkID(r.id, true));
    LoadTwo(p, LoadReg4(0x30), LoadWorkID(r.id, false));
    LoadOne(p, LoadWorkID(r.id, false));
  }

  /** The flow of a work rule leads to table 70 with its loads applied. */
  lemma RuleTaken(tables: Tables, tie: TieBreak, table: nat, p: Packet, hits: EveroutePolicyRule -> bool, r: PolicyFlow)
    requires Installable(r) && r.mode == Work && table < CtCommitTable
    ensures Take(tables, tie, table, p, hits, RuleFlow(r))
         == Exec(tables, tie, CtCommitTable, ApplyLoads(p, RuleLoads(r)), hits)
  {
  }

  /** Taking the flow of a work rule. */
  lemma RuleStage(tables: Tables, c: Config, tie: TieBreak, table: nat, p: Packet, hits: EveroutePolicyRule -> bool,
                  r: PolicyFlow)
    requires HasBase(tables, c) && IsConfig(c) && Chooses(tie) && Undecided(p, c) && table < CtCommitTable
    requires Installable(r) && r.mode == Work
    ensures Concludes(Take(tables, tie, table, p, hits, RuleFlow(r)), p, c, Denies(r))
  {
    var p' := RuleLoaded(p, c, r);
    RuleTaken(tables, tie, table, p, hits, r);
    Concluded(tables, c, tie, p, p', hits, Denies(r));
  }

  lemma Concluded(tables: Tables, c: Config, tie: TieBreak, p: Packet, p': Packet, hits: EveroutePolicyRule -> bool,
                  denied: bool)
    requires HasBase(tables, c) && IsConfig(c) && Chooses(tie) && Undecided(p, c)
    requires p' == p.(reg4 := p'.reg4, xxreg0 := p'.xxreg0) && (p'.reg4 == 0x20 <==> denied) && p'.xxreg0[127] == denied
    ensures Concludes(Exec(tables, tie, CtCommitTable, p', hits), p, c, denied)
  {
    CommitStage(tables, c, tie, p', hits);
  }

  /** Distinct places for rules are distinct tables, below those that every packet ends up in. */
  lemma TablesApart(d: Direction, tier: Tier, mode: Mode, d': Direction, tier': Tier, mode': Mode)
    requires GetTierTable(d, tier, mode).Some? && GetTierTable(d', tier', mode').Some?
    ensures GetTierTable(d, tier, mode).value.0 == GetTierTable(d', tier', mode').value.0 ==>
      (d, tier, mode) == (d', tier', mode')
    ensures DirectionSelectionTable < GetTierTable(d, tier, mode).value.0 < CtCommitTable
  {
  }

  datatype Installation = Installed | Refused | Crashed

  /** ParseIPAddrMaskString accepts both addresses; an empty one is not parsed. */
  predicate AddressesParse(r: PolicyFlow, parses: string -> bool) {
    (r.rule.dstIPAddr == "" || parses(r.rule.dstIPAddr)) && (r.rule.srcIPAddr == "" || parses(r.rule.srcIPAddr))
  }

  /** BridgeInit and AddMicroSegmentRule, on the tables of the switch. */
  class PolicyBridge {
    const config: Config
    var tables: Tables
    ghost var rules: set<PolicyFlow>

    ghost predicate Valid()
      reads this
    {
      HasBase(tables, config) && HasRules(tables, rules)
    }

    constructor (config: Config)
      ensures this.config == config && tables == map[] && rules == {}
    {
      this.config, tables, rules := config, map[], {};
    }

    method InitCTFlow()
      modifies this`tables
      ensures tables
           == old(tables)[CtStateTable := CtStateFlows()][CtCommitTable := CommitFlows(config)]
              [CtDropTable := DropFlows]
    {
      tables := tables[CtStateTable := CtStateFlows()];
      tables := tables[CtCommitTable := CommitFlows(config)];
      tables := tables[CtDropTable := DropFlows];
    }

    /** The miss flows of one direction, tier by tier. */
    method InitDirectionPolicy(d: Direction)
      modifies this`tables
      ensures HasDirection(tables, {}, d)
      ensures forall t :: t in old(tables) && !InDirection(t, d) ==> t in tables && tables[t] == old(tables)[t]
    {
      tables := tables[WorkTable(d, Tier1) := {Miss(MonitorTable(d, Tier2))}];
      tables := tables[MonitorTable(d, Tier2) := {Miss(WorkTable(d, Tier2))}];
      tables := tables[WorkTable(d, Tier2) := {Miss(MonitorTable(d, Tier3))}];
      tables := tables[MonitorTable(d, Tier3) := {Miss(WorkTable(d, Tier3))}];
      tables := tables[WorkTable(d, Tier3) := {Miss(CtCommitTable)}];
      MissesInstalled(old(tables), d);
    }

    method InitPolicyTable()
      modifies this`tables
      ensures HasRules(tables, {})
    {
      InitDirectionPolicy(Out);
      ghost var before := tables;
      InitDirectionPolicy(In);
      DirectionKept(before, tables, {}, Out);
    }

    method InitOtherTables()
      modifies this`tables
      ensures HasBase(tables, config)
      ensures forall t :: t in old(tables) && (InDirection(t, Out) || InDirection(t, In)) ==>
        t in tables && tables[t] == old(tables)[t]
    {
      InitCTFlow();
      tables := tables[DirectionSelectionTable := DirectionFlows(config)];
      tables := tables[SfcPolicyTable := {Miss(PolicyForwardingTable)}];
      tables := tables[PolicyForwardingTable := ForwardingFlows(config)];
    }

    method BridgeInit()
      modifies this
      ensures Valid() && rules == {}
    {
      rules := {};
      InitPolicyTable();
      ghost var before := tables;
      InitOtherTables();
      DirectionKept(before, tables, {}, Out);
      DirectionKept(before, tables, {}, In);
    }

    /**
     Adds exactly one flow to one table, or reports an error. A tier-1 monitor
     rule has no table: NewFlow is called on nil before the mode is looked at.
     */
    method AddMicroSegmentRule(r: PolicyFlow, parses: string -> bool) returns (done: Installation)
      requires Valid()
      modifies this
      ensures Valid()
      ensures done.Installed? <==> AddressesParse(r, parses) && Installable(r)
      ensures done.Crashed? <==> AddressesParse(r, parses) && r.mode == Monitor && r.tier == Tier1
      ensures rules == if done.Installed? then old(rules) + {r} else old(rules)
      ensures !done.Installed? ==> tables == old(tables)
    {
      var place := GetTierTable(r.direction, r.tier, r.mode);
      if r.rule.dstIPAddr != "" && !parses(r.rule.dstIPAddr) {
        return Refused;
      }
      if r.rule.srcIPAddr != "" && !parses(r.rule.srcIPAddr) {
        return Refused;
      }
      if place.None? {
        return Crashed;
      }
      if r.mode == Work && r.rule.action != "allow" && r.rule.action != "deny" {
        return Refused;
      }
      var table := place.value.0;
      RuleAdded(tables, config, rules, r);
      tables := tables[table := tables[table] + {RuleFlow(r)}];
      rules := rules + {r};
      done := Installed;
    }
  }

  predicate InDirection(t: nat, d: Direction) {
    if d == Out then EgressTier1Table <= t <= EgressTier3Table else IngressTier1Table <= t <= IngressTier3Table
  }

  lemma DirectionKept(tables: Tables, tables': Tables, rs: set<PolicyFlow>, d: Direction)
    requires AllInstallable(rs) && HasDirection(tables, rs, d)
    requires forall t :: t in tables && InDirection(t, d) ==> t in tables' && tables'[t] == tables[t]
    ensures HasDirection(tables', rs, d)
  {
  }

  function WithMisses(tables: Tables, d: Direction): Tables {
    tables[WorkTable(d, Tier1) := {Miss(MonitorTable(d, Tier2))}][MonitorTable(d, Tier2) := {Miss(WorkTable(d, Tier2))}]
          [WorkTable(d, Tier2) := {Miss(MonitorTable(d, Tier3))}][MonitorTable(d, Tier3) := {Miss(WorkTable(d, Tier3))}]
          [WorkTable(d, Tier3) := {Miss(CtCommitTable)}]
  }

  lemma MissesInstalled(tables: Tables, d: Direction)
    ensures HasDirection(WithMisses(tables, d), {}, d)
    ensures forall t :: t in tables && !InDirection(t, d) ==>
      t in WithMisses(tables, d) && WithMisses(tables, d)[t] == tables[t]
  {
    OnlyMisses(WithMisses(tables, d), d);
  }

  lemma OnlyMisses(tables: Tables, d: Direction)
    requires HasTable(tables, WorkTable(d, Tier1), {Miss(WorkMiss(d, Tier1))})
    requires HasTable(tables, WorkTable(d, Tier2), {Miss(WorkMiss(d, Tier2))})
    requires HasTable(tables, WorkTable(d, Tier3), {Miss(WorkMiss(d, Tier3))})
    requires HasTable(tables, MonitorTable(d, Tier2), {Miss(WorkTable(d, Tier2))})
    requires HasTable(tables, MonitorTable(d, Tier3), {Miss(WorkTable(d, Tier3))})
    ensures HasDirection(tables, {}, d)
  {
    forall tier
      ensures HasTable(tables, WorkTable(d, tier), WorkFlows({}, d, tier))
    {
      NoRules(d, tier);
    }
    forall tier | tier != Tier1
      ensures HasTable(tables, MonitorTable(d, tier), MonitorFlows({}, d, tier))
    {
      NoRules(d, tier);
    }
  }

  lemma NoRules(d: Direction, tier: Tier)
    ensures WorkFlows({}, d, tier) == {Miss(WorkMiss(d, tier))}
    ensures MonitorFlows({}, d, tier) == {Miss(WorkTable(d, tier))}
  {
  }

  /** One more rule changes one table by one flow. */
  lemma RulesInAdded(rs: set<PolicyFlow>, r: PolicyFlow, d: Direction, tier: Tier, mode: Mode)
    requires AllInstallable(rs) && Installable(r)
    ensures FlowsOf(RulesIn(rs + {r}, d, tier, mode)) ==
      FlowsOf(RulesIn(rs, d, tier, mode)) +
      (if (r.direction, r.tier, r.mode) == (d, tier, mode) then {RuleFlow(r)} else {})
  {
  }

  lemma RuleAdded(tables: Tables, c: Config, rs: set<PolicyFlow>, r: PolicyFlow)
    requires HasBase(tables, c) && HasRules(tables, rs) && Installable(r)
    ensures var table := GetTierTable(r.direction, r.tier, r.mode).value.0;
      && table in tables
      && HasBase(tables[table := tables[table] + {RuleFlow(r)}], c)
      && HasRules(tables[table := tables[table] + {RuleFlow(r)}], rs + {r})
  {
    var table := GetTierTable(r.direction, r.tier, r.mode).value.0;
    if r.mode == Work { assert HasTable(tables, WorkTable(r.direction, r.tier), WorkFlows(rs, r.direction, r.tier)); }
    else { assert HasTable(tables, MonitorTable(r.direction, r.tier), MonitorFlows(rs, r.direction, r.tier)); }
    TablesApart(r.direction, r.tier, r.mode, r.direction, r.tier, r.mode);
    var tables' := tables[table := tables[table] + {RuleFlow(r)}];
    RuleAddedIn(tables, tables', rs, r, Out);
    RuleAddedIn(tables, tables', rs, r, In);
  }

  lemma RuleAddedIn(tables: Tables, tables': Tables, rs: set<PolicyFlow>, r: PolicyFlow, d: Direction)
    requires AllInstallable(rs) && Installable(r) && HasDirection(tables, rs, d)
    requires GetTierTable(r.direction, r.tier, r.mode).value.0 in tables
    requires var table := GetTierTable(r.direction, r.tier, r.mode).value.0;
      tables' == tables[table := tables[table] + {RuleFlow(r)}]
    ensures HasDirection(tables', rs + {r}, d)
  {
    forall tier
      ensures HasTable(tables', WorkTable(d, tier), WorkFlows(rs + {r}, d, tier))
    {
      assert HasTable(tables, WorkTable(d, tier), WorkFlows(rs, d, tier));
      TablesApart(d, tier, Work, r.direction, r.tier, r.mode);
      RulesInAdded(rs, r, d, tier, Work);
    }
    forall tier | tier != Tier1
      ensures HasTable(tables', MonitorTable(d, tier), MonitorFlows(rs + {r}, d, tier))
    {
      assert HasTable(tables, MonitorTable(d, tier), MonitorFlows(rs, d, tier));
      TablesApart(d, tier, Monitor, r.direction, r.tier, r.mode);
      RulesInAdded(rs, r, d, tier, Monitor);
    }
  }

  /** Whatever its rule says, a tier-1 monitor policy crashes a fresh bridge. */
  method MonitorTier1Example(config: Config, direction: Direction, id: Word) returns (done: Installation)
    ensures done.Crashed?
  {
    var bridge := new PolicyBridge(config);
    bridge.BridgeInit();
    var rule := EveroutePolicyRule("r", 100, "", "", 0, 0, 0, 0, 0, "allow");
    done := bridge.AddMicroSegmentRule(PolicyFlow(direction, Tier1, Monitor, rule, id), _ => true);
  }
}
