/**
 The verdict on a packet: the policy bridge drops a new packet iff the first
 tier with a matching work rule denies it, whatever the switch does with ties.
 */
module PolicyVerdict {
  import opened Strings
  import opened PolicyRules
  import opened FlowTables
  import opened PolicyBridge

  /** The first tier with a matching work rule decides by its rules of top priority. */
  predicate Denied(rs: set<PolicyFlow>, d: Direction, hits: EveroutePolicyRule -> bool) {
    if WorkMatches(rs, d, Tier1, hits) != {} then TopDenies(WorkMatches(rs, d, Tier1, hits))
    else if WorkMatches(rs, d, Tier2, hits) != {} then TopDenies(WorkMatches(rs, d, Tier2, hits))
    else WorkMatches(rs, d, Tier3, hits) != {} && TopDenies(WorkMatches(rs, d, Tier3, hits))
  }

  /**
   Rules as the agent generates them: internal whitelist (120) and normal rules
   (100) allow, policy defaults (70) deny, and the one global default (40) has
   one action.
   */
  predicate AsGenerated(rs: set<PolicyFlow>) {
    && (forall r :: r in rs ==> r.rule.priority in {120, 100, 70, 40})
    && (forall r :: r in rs && r.rule.priority in {120, 100} ==> r.rule.action == "allow")
    && (forall r :: r in rs && r.rule.priority == 70 ==> r.rule.action == "deny")
    && (forall r, r' :: r in rs && r' in rs && r.rule.priority == 40 && r'.rule.priority == 40 ==>
                        r.rule.action == r'.rule.action)
  }

  lemma GeneratedRulesAgree(rs: set<PolicyFlow>)
    requires AsGenerated(rs)
    ensures Outranks(rs) && SameAction(rs)
  {
  }

  /** The bridge with its rules, and a switch. */
  ghost predicate Ready(tables: Tables, c: Config, rs: set<PolicyFlow>, tie: TieBreak) {
    HasBase(tables, c) && HasRules(tables, rs) && IsConfig(c) && Outranks(rs) && SameAction(rs) && Chooses(tie)
  }

  lemma SameConclusion(out: Outcome, p: Packet, p': Packet, c: Config, denied: bool)
    requires IsConfig(c) && SameButLabel(p, p') && Concludes(out, p', c, denied)
    ensures Concludes(out, p, c, denied)
  {
  }

  lemma FromTier3(tables: Tables, c: Config, rs: set<PolicyFlow>, tie: TieBreak, d: Direction, p: Packet,
                  hits: EveroutePolicyRule -> bool)
    requires Ready(tables, c, rs, tie) && Undecided(p, c)
    ensures var ws := WorkMatches(rs, d, Tier3, hits);
      Concludes(Exec(tables, tie, WorkTable(d, Tier3), p, hits), p, c, ws != {} && TopDenies(ws))
  {
    WorkStage(tables, c, rs, tie, d, Tier3, p, hits);
    Concluded(tables, c, tie, p, p, hits, false);
  }

  lemma FromTier2(tables: Tables, c: Config, rs: set<PolicyFlow>, tie: TieBreak, d: Direction, p: Packet,
                  hits: EveroutePolicyRule -> bool)
    requires Ready(tables, c, rs, tie) && Undecided(p, c) && WorkMatches(rs, d, Tier1, hits) == {}
    ensures Concludes(Exec(tables, tie, WorkTable(d, Tier2), p, hits), p, c, Denied(rs, d, hits))
  {
    WorkStage(tables, c, rs, tie, d, Tier2, p, hits);
    if WorkMatches(rs, d, Tier2, hits) == {} {
      var p' := MonitorStage(tables, rs, tie, d, Tier3, p, hits);
      FromTier3(tables, c, rs, tie, d, p', hits);
      SameConclusion(Exec(tables, tie, WorkTable(d, Tier3), p', hits), p, p', c, Denied(rs, d, hits));
    }
  }

  lemma FromTier1(tables: Tables, c: Config, rs: set<PolicyFlow>, tie: TieBreak, d: Direction, p: Packet,
                  hits: EveroutePolicyRule -> bool)
    requires Ready(tables, c, rs, tie) && Undecided(p, c)
    ensures Concludes(Exec(tables, tie, WorkTable(d, Tier1), p, hits), p, c, Denied(rs, d, hits))
  {
    WorkStage(tables, c, rs, tie, d, Tier1, p, hits);
    if WorkMatches(rs, d, Tier1, hits) == {} {
      var p' := MonitorStage(tables, rs, tie, d, Tier2, p, hits);
      FromTier2(tables, c, rs, tie, d, p', hits);
      SameConclusion(Exec(tables, tie, WorkTable(d, Tier2), p', hits), p, p', c, Denied(rs, d, hits));
    }
  }

  function DirectionOf(p: Packet, c: Config): Direction { if p.inPort == c.localPort then Out else In }

  /** Table 10 leads to the first tier of the packet's direction. */
  lemma DirectionStage(tables: Tables, c: Config, tie: TieBreak, p: Packet, hits: EveroutePolicyRule -> bool)
    requires HasBase(tables, c) && IsConfig(c) && Chooses(tie) && Entered(p, c)
    ensures Exec(tables, tie, DirectionSelectionTable, p, hits)
         == Exec(tables, tie, WorkTable(DirectionOf(p, c), Tier1), p, hits)
  {
    var some :=
      if DirectionOf(p, c) == Out
      then Flow(MidMatchPriority, MatchAll.(inPort := Some(c.localPort)), [], Goto(EgressTier1Table))
      else Flow(MidMatchPriority, MatchAll.(inPort := Some(c.clsPort)), [], Goto(IngressTier1Table));
    var f := TakesBest(tables, tie, DirectionSelectionTable, p, hits, some);
    assert f == some;
  }

  /**
   From the direction-selection table on, for every set of generated rules and
   every tie-break: the outcome is the one that goes with Denied.
   */
  lemma Verdict(tables: Tables, c: Config, rs: set<PolicyFlow>, tie: TieBreak, p: Packet,
                hits: EveroutePolicyRule -> bool)
    requires Ready(tables, c, rs, tie) && Undecided(p, c)
    ensures Concludes(Exec(tables, tie, DirectionSelectionTable, p, hits), p, c, Denied(rs, DirectionOf(p, c), hits))
  {
    DirectionStage(tables, c, tie, p, hits);
    FromTier1(tables, c, rs, tie, DirectionOf(p, c), p, hits);
  }

  /** The same, read off: a new packet without a deny label is dropped iff it is denied. */
  lemma NewPacketDroppedIff(tables: Tables, c: Config, rs: set<PolicyFlow>, tie: TieBreak, p: Packet,
                            hits: EveroutePolicyRule -> bool)
    requires HasBase(tables, c) && HasRules(tables, rs) && IsConfig(c) && AsGenerated(rs) && Chooses(tie)
    requires Undecided(p, c) && IsNew(p) && !Labelled(p, c)
    ensures Exec(tables, tie, DirectionSelectionTable, p, hits).output
         == if Denied(rs, DirectionOf(p, c), hits) then None else Some(OtherPort(p, c))
  {
    GeneratedRulesAgree(rs);
    Verdict(tables, c, rs, tie, p, hits);
  }

  function WorkRules(rs: set<PolicyFlow>): set<PolicyFlow> { set r | r in rs && r.mode == Work }

  /** Monitor rules never change the verdict. */
  lemma MonitorNeverDecides(
      tables: Tables, tables': Tables, c: Config, rs: set<PolicyFlow>, rs': set<PolicyFlow>, tie: TieBreak,
        tie': TieBreak,
      p: Packet, hits: EveroutePolicyRule -> bool)
    requires Ready(tables, c, rs, tie) && Ready(tables', c, rs', tie') && Undecided(p, c)
    requires WorkRules(rs) == WorkRules(rs')
    ensures Exec(tables, tie, DirectionSelectionTable, p, hits).output
         == Exec(tables', tie', DirectionSelectionTable, p, hits).output
  {
    Verdict(tables, c, rs, tie, p, hits);
    Verdict(tables', c, rs', tie', p, hits);
    forall tier
      ensures WorkMatches(rs, DirectionOf(p, c), tier, hits) == WorkMatches(rs', DirectionOf(p, c), tier, hits)
    {
      SameWorkMatches(rs, rs', DirectionOf(p, c), tier, hits);
    }
  }

  lemma SameWorkMatches(rs: set<PolicyFlow>, rs': set<PolicyFlow>, d: Direction, tier: Tier,
                        hits: EveroutePolicyRule -> bool)
    requires WorkRules(rs) == WorkRules(rs')
    ensures WorkMatches(rs, d, tier, hits) == WorkMatches(rs', d, tier, hits)
  {
    assert forall r :: r in rs && r.mode == Work <==> r in WorkRules(rs);
    assert forall r :: r in rs' && r.mode == Work <==> r in WorkRules(rs');
  }

  predicate IsEstablished(p: Packet) { !p.ct.new_ && p.ct.est }

  predicate IsInvalid(p: Packet) { !IsEstablished(p) && p.ct.inv && p.ct.trk }

  /** Table 1: established packets skip the policy tables and are judged by their label. */
  lemma EstablishedPacket(tables: Tables, c: Config, tie: TieBreak, p: Packet, hits: EveroutePolicyRule -> bool)
    requires HasBase(tables, c) && IsConfig(c) && Chooses(tie) && Undecided(p, c) && IsEstablished(p)
    ensures Exec(tables, tie, CtStateTable, p, hits)
         == Outcome(if Labelled(p, c) then None else Some(OtherPort(p, c)), None)
  {
    var est := Flow(MidMatchPriority + FlowMatchOffset, MatchAll.(ctNew := Some(false), ctEst := Some(true)), [],
                    Goto(CtCommitTable));
    var f := TakesBest(tables, tie, CtStateTable, p, hits, est);
    assert f == est;
    CommitStage(tables, c, tie, p, hits);
  }

  /** Table 1: other packets are dropped if invalid and otherwise go through the policy tables. */
  lemma OtherPacket(tables: Tables, c: Config, tie: TieBreak, p: Packet, hits: EveroutePolicyRule -> bool)
    requires HasBase(tables, c) && IsConfig(c) && Chooses(tie) && Undecided(p, c) && !IsEstablished(p)
    ensures IsInvalid(p) ==> Exec(tables, tie, CtStateTable, p, hits) == Outcome(None, None)
    ensures !IsInvalid(p) ==>
      Exec(tables, tie, CtStateTable, p, hits) == Exec(tables, tie, DirectionSelectionTable, p, hits)
  {
    var inv := Flow(MidMatchPriority, MatchAll.(ctInv := Some(true), ctTrk := Some(true)), [], Discard);
    var other := Flow(FlowMissPriority, MatchAll.(ip := true), [], Goto(DirectionSelectionTable));
    var f := TakesBest(tables, tie, CtStateTable, p, hits, if IsInvalid(p) then inv else other);
    assert f == if IsInvalid(p) then inv else other;
  }
}
