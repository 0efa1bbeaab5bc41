/**
 Connections over time: conntrack remembers the label that the committing packet
 left, and packets of an established connection are judged by it alone.
 */
module Connections {
  import opened Strings
  import opened PolicyRules
  import opened CtLabel
  import opened FlowTables
  import opened PolicyBridge
  import opened PolicyVerdict

  /** A conntrack entry, with the verdict on the packet that committed it last. */
  datatype Entry = Entry(ctLabel: Register, denied: bool)

  type Connections = map<nat, Entry>

  /** The switch as a packet meets it: rules and tie-break may change from packet to packet. */
  datatype Setting = Setting(tables: Tables, rs: set<PolicyFlow>, tie: TieBreak, hits: EveroutePolicyRule -> bool)

  datatype Event = Arrives(conn: nat, p: Packet, setting: Setting) | Flushed(conn: nat)

  function LabelOf(cs: Connections, conn: nat): Register { if conn in cs then cs[conn].ctLabel else FreshRegister }

  /**
   A packet fresh from the input table: it carries its connection's label, and only
   a known connection is established.
   */
  ghost predicate Enabled(cs: Connections, e: Event, c: Config) {
    e.Arrives? ==>
      && Ready(e.setting.tables, c, e.setting.rs, e.setting.tie)
      && Entered(e.p, c) && e.p.isIP && e.p.reg4 == 0 && e.p.committed.None? && e.p.xxreg0 == FreshRegister
      && e.p.ctLabel == LabelOf(cs, e.conn) && (IsEstablished(e.p) ==> e.conn in cs)
  }

  ghost function OutcomeOf(e: Event): Outcome
    requires e.Arrives?
  {
    Exec(e.setting.tables, e.setting.tie, CtStateTable, e.p, e.setting.hits)
  }

  predicate PolicyDenies(e: Event, c: Config)
    requires e.Arrives?
  {
    Denied(e.setting.rs, DirectionOf(e.p, c), e.setting.hits)
  }

  ghost function Next(cs: Connections, e: Event, c: Config): Connections {
    match e
    case Flushed(conn) => cs - {conn}
    case Arrives(conn, _, _) =>
      if OutcomeOf(e).committed.Some? then cs[conn := Entry(OutcomeOf(e).committed.value, PolicyDenies(e, c))] else cs
  }

  /** Every label carries the verdict of the packet that committed it. */
  ghost predicate LabelsTell(cs: Connections) { forall conn :: conn in cs ==> cs[conn].ctLabel[127] == cs[conn].denied }

  lemma FreshBit()
    ensures forall i :: 0 <= i < 128 ==> !FreshRegister[i]
  {
  }

  /** What can come out of a packet, whatever its connection state. */
  lemma ArrivalOutcome(cs: Connections, e: Event, c: Config)
    requires IsConfig(c) && Enabled(cs, e, c) && e.Arrives?
    ensures OutcomeOf(e).committed.Some? ==>
      IsNew(e.p) && !Labelled(e.p, c) && OutcomeOf(e).committed.value[127] == PolicyDenies(e, c)
      && !(PolicyDenies(e, c) && e.p.isTCP && !e.p.syn)
    ensures !IsEstablished(e.p) && !IsInvalid(e.p) ==>
      OutcomeOf(e).output == if PolicyDenies(e, c) || Labelled(e.p, c) then None else Some(OtherPort(e.p, c))
    ensures IsEstablished(e.p) ==>
      OutcomeOf(e) == Outcome(if Labelled(e.p, c) then None else Some(OtherPort(e.p, c)), None)
  {
    FreshBit();
    var st := e.setting;
    if IsEstablished(e.p) {
      EstablishedPacket(st.tables, c, st.tie, e.p, st.hits);
    } else {
      OtherPacket(st.tables, c, st.tie, e.p, st.hits);
      if !IsInvalid(e.p) { Verdict(st.tables, c, st.rs, st.tie, e.p, st.hits); }
    }
  }

  lemma StepLabelsTell(cs: Connections, e: Event, c: Config)
    requires IsConfig(c) && LabelsTell(cs) && Enabled(cs, e, c)
    ensures LabelsTell(Next(cs, e, c))
  {
    if e.Arrives? { ArrivalOutcome(cs, e, c); }
  }

  ghost predicate Behaviour(css: seq<Connections>, events: seq<Event>, c: Config) {
    && |css| == |events| + 1 && css[0] == map[]
    && forall i :: 0 <= i < |events| ==> Enabled(css[i], events[i], c) && css[i + 1] == Next(css[i], events[i], c)
  }

  /** Holds whatever bit the drop flow tests. */
  lemma {:induction false} EveryLabelTells(css: seq<Connections>, events: seq<Event>, c: Config, i: nat)
    requires IsConfig(c) && Behaviour(css, events, c) && i < |css|
    ensures LabelsTell(css[i])
  {
    if i > 0 {
      EveryLabelTells(css, events, c, i - 1);
      StepLabelsTell(css[i - 1], events[i - 1], c);
    }
  }

  /**
   With the drop flow testing bit 127, over every run: an established packet is
   dropped iff the packet that committed its connection was denied, a packet of
   a denied connection is dropped in any state, and a denied TCP packet without
   SYN commits nothing.
   */
  lemma ConnectionsRemember(css: seq<Connections>, events: seq<Event>, c: Config, i: nat)
    requires IsConfig(c) && c.labelBit == 127 && Behaviour(css, events, c) && i < |events| && events[i].Arrives?
    ensures var cs, e := css[i], events[i];
      && (IsEstablished(e.p) ==>
            e.conn in cs && OutcomeOf(e).output == if cs[e.conn].denied then None else Some(OtherPort(e.p, c)))
      && (e.conn in cs && cs[e.conn].denied && !IsInvalid(e.p) ==> OutcomeOf(e).output.None? && css[i + 1] == cs)
      && (PolicyDenies(e, c) && e.p.isTCP && !e.p.syn ==> css[i + 1] == cs)
  {
    EveryLabelTells(css, events, c, i);
    ArrivalOutcome(css[i], events[i], c);
  }

  /** The label that a lone deny rule leaves. */
  function DenyLabel(id: Word): Register { WorkLoad(FreshRegister, id, true) }

  /** A flow id of a real round with a real sequence number, whose label lacks the given bit. */
  function DenyID(bit: nat): Word {
    seq(64, i => i == (if bit == 0 then 29 else 28) || i == (if bit == 60 then 1 else 0))
  }

  lemma DenyIDLacks(bit: nat)
    requires bit < 127
    ensures IsFlowID(DenyID(bit)) && RoundNumber(DenyID(bit)) != Zero && SequenceNumber(DenyID(bit)) != Zero
    ensures !DenyLabel(DenyID(bit))[bit]
  {
    var id := DenyID(bit);
    assert RoundNumber(id)[if bit == 0 then 1 else 0];
    assert SequenceNumber(id)[if bit == 60 then 1 else 0];
    assert !Zero[0] && !Zero[1];
  }

  /** A bridge whose only rule denies everything that leaves through the first egress tier. */
  ghost predicate DeniesAll(st: Setting, c: Config, r: PolicyFlow) {
    && Ready(st.tables, c, st.rs, st.tie) && st.rs == {r} && st.hits(r.rule)
    && r.direction == Out && r.tier == Tier1 && r.mode == Work && Denies(r)
  }

  function Syn(c: Config): Packet {
    Packet(c.localPort, true, true, true, CtState(true, false, false, true), FreshRegister, 0, 0, FreshRegister, None)
  }

  lemma SynLoaded(st: Setting, c: Config, r: PolicyFlow)
    requires DeniesAll(st, c, r)
    ensures ApplyLoads(Syn(c), RuleLoads(r)) == Syn(c).(reg4 := 0x20, xxreg0 := DenyLabel(r.id))
  {
    LoadTwo(Syn(c), LoadReg4(0x20), LoadWorkID(r.id, true));
  }

  lemma SynTakes(st: Setting, c: Config, r: PolicyFlow)
    requires IsConfig(c) && DeniesAll(st, c, r)
    ensures Installable(r)
    ensures Exec(st.tables, st.tie, WorkTable(Out, Tier1), Syn(c), st.hits)
         == Take(st.tables, st.tie, WorkTable(Out, Tier1), Syn(c), st.hits, RuleFlow(r))
  {
    assert RulesIn(st.rs, Out, Tier1, Work) == {r} && r in Hitting({r}, st.hits);
    HasWork(st.tables, st.rs, Out, Tier1);
    var x := PolicyTable(st.tables, st.tie, WorkTable(Out, Tier1), {r}, WorkMiss(Out, Tier1), Syn(c), st.hits);
  }

  lemma SynAtTier1(st: Setting, c: Config, r: PolicyFlow)
    requires IsConfig(c) && DeniesAll(st, c, r)
    ensures Exec(st.tables, st.tie, WorkTable(Out, Tier1), Syn(c), st.hits).committed == Some(DenyLabel(r.id))
  {
    SynTakes(st, c, r);
    RuleTaken(st.tables, st.tie, WorkTable(Out, Tier1), Syn(c), st.hits, r);
    SynLoaded(st, c, r);
    DeniedSynCommits(st, c, DenyLabel(r.id));
  }

  lemma DeniedSynCommits(st: Setting, c: Config, ctLabel: Register)
    requires IsConfig(c) && HasBase(st.tables, c) && Chooses(st.tie)
    ensures Exec(st.tables, st.tie, CtCommitTable, Syn(c).(reg4 := 0x20, xxreg0 := ctLabel), st.hits).committed
         == Some(ctLabel)
  {
    FreshBit();
    CommitStage(st.tables, c, st.tie, Syn(c).(reg4 := 0x20, xxreg0 := ctLabel), st.hits);
  }

  lemma SynCommits(st: Setting, c: Config, r: PolicyFlow)
    requires IsConfig(c) && DeniesAll(st, c, r)
    ensures PolicyDenies(Arrives(0, Syn(c), st), c)
    ensures OutcomeOf(Arrives(0, Syn(c), st)).committed == Some(DenyLabel(r.id))
  {
    FreshBit();
    OtherPacket(st.tables, c, st.tie, Syn(c), st.hits);
    DirectionStage(st.tables, c, st.tie, Syn(c), st.hits);
    SynAtTier1(st, c, r);
    assert IsTop(r, WorkMatches(st.rs, Out, Tier1, st.hits));
  }

  function Established(c: Config, ctLabel: Register): Packet {
    Syn(c).(ct := CtState(false, true, false, true), ctLabel := ctLabel)
  }

  lemma EstablishedPasses(st: Setting, c: Config, r: PolicyFlow)
    requires IsConfig(c) && !DenyLabel(r.id)[c.labelBit] && DeniesAll(st, c, r)
    ensures OutcomeOf(Arrives(0, Established(c, DenyLabel(r.id)), st)) == Outcome(Some(c.clsPort), None)
  {
    FreshBit();
    EstablishedPacket(st.tables, c, st.tie, Established(c, DenyLabel(r.id)), st.hits);
  }

  function DeniedEntry(id: Word): Connections { map[0 := Entry(DenyLabel(id), true)] }

  lemma SynStep(st: Setting, c: Config, r: PolicyFlow)
    requires IsConfig(c) && DeniesAll(st, c, r)
    ensures Enabled(map[], Arrives(0, Syn(c), st), c) && Next(map[], Arrives(0, Syn(c), st), c) == DeniedEntry(r.id)
  {
    SynCommits(st, c, r);
  }

  lemma EstablishedStep(st: Setting, c: Config, r: PolicyFlow)
    requires IsConfig(c) && !DenyLabel(r.id)[c.labelBit] && DeniesAll(st, c, r)
    ensures var e := Arrives(0, Established(c, DenyLabel(r.id)), st);
      Enabled(DeniedEntry(r.id), e, c) && Next(DeniedEntry(r.id), e, c) == DeniedEntry(r.id)
  {
    EstablishedPasses(st, c, r);
  }

  /** An established packet passes although the packet that committed its connection was denied. */
  ghost predicate Forgets(css: seq<Connections>, events: seq<Event>, c: Config, i: nat) {
    && Behaviour(css, events, c) && i < |events| && events[i].Arrives? && IsEstablished(events[i].p)
    && events[i].conn in css[i] && css[i][events[i].conn].denied && OutcomeOf(events[i]).output.Some?
  }

  lemma TwoSteps(c: Config, e: Event, e': Event) returns (events: seq<Event>, css: seq<Connections>)
    requires Enabled(map[], e, c) && Enabled(Next(map[], e, c), e', c)
    ensures events == [e, e'] && Behaviour(css, events, c) && css[1] == Next(map[], e, c)
  {
    events := [e, e'];
    var after := Next(map[], e, c);
    css := [map[], after, Next(after, e', c)];
    forall i | 0 <= i < 2
      ensures Enabled(css[i], events[i], c) && css[i + 1] == Next(css[i], events[i], c)
    {
      assert i == 0 || i == 1;
    }
  }

  lemma ForgetfulRun(st: Setting, c: Config, r: PolicyFlow) returns (css: seq<Connections>, events: seq<Event>)
    requires IsConfig(c) && !DenyLabel(r.id)[c.labelBit] && DeniesAll(st, c, r)
    ensures Forgets(css, events, c, 1)
  {
    SynStep(st, c, r);
    EstablishedStep(st, c, r);
    EstablishedPasses(st, c, r);
    events, css := TwoSteps(c, Arrives(0, Syn(c), st), Arrives(0, Established(c, DenyLabel(r.id)), st));
  }

  /** Some tie-break. */
  ghost function AnyChoice(): TieBreak {
    (t: nat, flows: set<Flow>) => if flows == {} then Miss(0) else var f :| f in flows; f
  }

  /** The default drop of a policy that applies to everything. */
  function DropAll(bit: nat): PolicyFlow {
    PolicyFlow(Out, Tier1, Work, EveroutePolicyRule("drop-all", 70, "", "", 0, 0, 0, 0, 0, "deny"), DenyID(bit))
  }

  /** A freshly initialised bridge with the one rule. */
  method DropAllBridge(c: Config) returns (bridge: PolicyBridge)
    ensures bridge.config == c && HasBase(bridge.tables, c) && HasRules(bridge.tables, {DropAll(c.labelBit)})
  {
    bridge := new PolicyBridge(c);
    bridge.BridgeInit();
    var done := bridge.AddMicroSegmentRule(DropAll(c.labelBit), _ => true);
    assert bridge.rules == {DropAll(c.labelBit)};
  }

  lemma DropAllDenies(tables: Tables, c: Config) returns (st: Setting)
    requires IsConfig(c) && HasBase(tables, c) && HasRules(tables, {DropAll(c.labelBit)})
    ensures st.tables == tables && DeniesAll(st, c, DropAll(c.labelBit))
  {
    st := Setting(tables, {DropAll(c.labelBit)}, AnyChoice(), _ => true);
  }

  /**
   No other bit will do: on the bridge of DropAllBridge, whose rule has a flow id
   with a round and a sequence number as the allocator hands them out, there is a
   run in which an established packet of a denied connection passes.
   */
  lemma OtherBitsForget(tables: Tables, c: Config) returns (css: seq<Connections>, events: seq<Event>)
    requires IsConfig(c) && c.labelBit != 127 && HasBase(tables, c) && HasRules(tables, {DropAll(c.labelBit)})
    ensures IsFlowID(DenyID(c.labelBit)) && RoundNumber(DenyID(c.labelBit)) != Zero
    ensures SequenceNumber(DenyID(c.labelBit)) != Zero
    ensures Forgets(css, events, c, 1)
  {
    DenyIDLacks(c.labelBit);
    var st := DropAllDenies(tables, c);
    css, events := ForgetfulRun(st, c, DropAll(c.labelBit));
  }
}
