/**
 Flow tables as OpenFlow 1.3 has them: a packet takes one of the matching flows
 of highest priority, and which of several such flows is left open (section 5.3
 of the OpenFlow Switch Specification 1.3). A tie-break stands for that choice.
 */
module FlowTables {
  import opened Strings
  import opened PolicyRules
  import opened CtLabel

  datatype CtState = CtState(new_: bool, est: bool, inv: bool, trk: bool)

  /** The fields that flows match on; None and false match anything. */
  datatype Match = Match(
    inPort: Option<nat>, ip: bool, tcpWithoutSyn: bool,
    ctNew: Option<bool>, ctEst: Option<bool>, ctInv: Option<bool>, ctTrk: Option<bool>, labelBit: Option<nat>,
    reg4: Option<nat>, reg6: Option<nat>, rule: Option<EveroutePolicyRule>)

  const MatchAll: Match := Match(None, false, false, None, None, None, None, None, None, None, None)

  datatype Load = LoadReg4(value: nat) | LoadMonitorID(id: Word) | LoadWorkID(id: Word, deny: bool)

  /** Where a packet goes next; Commit commits the connection with xxreg0 as its label first. */
  datatype Target = Goto(table: nat) | Commit(table: nat) | Output(port: nat) | Discard

  datatype Flow = Flow(priority: nat, match_: Match, loads: seq<Load>, target: Target)

  type Tables = map<nat, set<Flow>>

  /** A packet on its way: headers, connection state, registers. */
  datatype Packet = Packet(
    inPort: nat, isIP: bool, isTCP: bool, syn: bool, ct: CtState, ctLabel: Register,
    reg4: nat, reg6: nat, xxreg0: Register, committed: Option<Register>)

  predicate Meets<T(==)>(want: Option<T>, have: T) { want.None? || want.value == have }

  /** `hits` says which policy rules match the packet's addresses, protocol and ports. */
  predicate Matches(m: Match, p: Packet, hits: EveroutePolicyRule -> bool) {
    && Meets(m.inPort, p.inPort) && (m.ip ==> p.isIP) && (m.tcpWithoutSyn ==> p.isTCP && !p.syn)
    && Meets(m.ctNew, p.ct.new_) && Meets(m.ctEst, p.ct.est) && Meets(m.ctInv, p.ct.inv) && Meets(m.ctTrk, p.ct.trk)
    && (m.labelBit.Some? ==> m.labelBit.value < 128 && p.ctLabel[m.labelBit.value])
    && Meets(m.reg4, p.reg4) && Meets(m.reg6, p.reg6)
    && (m.rule.Some? ==> hits(m.rule.value))
  }

  function ApplyLoad(p: Packet, load: Load): Packet {
    match load
    case LoadReg4(v) => p.(reg4 := v)
    case LoadMonitorID(id) => p.(xxreg0 := MonitorLoad(p.xxreg0, id))
    case LoadWorkID(id, deny) => p.(xxreg0 := WorkLoad(p.xxreg0, id, deny))
  }

  function ApplyLoads(p: Packet, loads: seq<Load>): Packet
    decreases |loads|
  {
    if loads == [] then p else ApplyLoads(ApplyLoad(p, loads[0]), loads[1..])
  }

  /** The matching flows of highest priority. */
  function Best(flows: set<Flow>, p: Packet, hits: EveroutePolicyRule -> bool): set<Flow> {
    set f | f in flows && Matches(f.match_, p, hits) && forall g :: g in flows && Matches(g.match_, p, hits) ==>
                                                                    g.priority <= f.priority
  }

  /** The switch's choice among equals, for each table. */
  type TieBreak = (nat, set<Flow>) -> Flow

  ghost predicate Chooses(tie: TieBreak) { forall t, flows :: flows != {} ==> tie(t, flows) in flows }

  datatype Outcome = Outcome(output: Option<nat>, committed: Option<Register>)

  const NumTables: nat := 256

  /** Runs the packet from a table on; a table miss drops it, and tables only lead upwards. */
  ghost function Exec(tables: Tables, tie: TieBreak, table: nat, p: Packet, hits: EveroutePolicyRule -> bool): Outcome
    decreases NumTables - table
  {
    var best := if table in tables then Best(tables[table], p, hits) else {};
    if best == {} then Outcome(None, p.committed)
    else Take(tables, tie, table, p, hits, tie(table, best))
  }

  ghost function Take(tables: Tables, tie: TieBreak, table: nat, p: Packet, hits: EveroutePolicyRule -> bool,
                      f: Flow): Outcome
    decreases NumTables - table, 0
  {
    var p' := ApplyLoads(p, f.loads);
    match f.target
    case Goto(t) => if table < t < NumTables then Exec(tables, tie, t, p', hits) else Outcome(None, p'.committed)
    case Commit(t) => if table < t < NumTables then Exec(tables, tie, t, p'.(committed := Some(p'.xxreg0)), hits)
      else Outcome(None, Some(p'.xxreg0))
    case Output(port) => Outcome(Some(port), p'.committed)
    case Discard => Outcome(None, p'.committed)
  }

  /** If some flow matches, there is a best one. */
  lemma {:induction false} BestExists(flows: set<Flow>, p: Packet, hits: EveroutePolicyRule -> bool, f: Flow)
    requires f in flows && Matches(f.match_, p, hits)
    ensures Best(flows, p, hits) != {}
    decreases flows
  {
    if g :| g in flows && Matches(g.match_, p, hits) && g.priority > f.priority {
      var rest := flows - {f};
      BestExists(rest, p, hits, g);
      var b :| b in Best(rest, p, hits);
      assert b.priority >= g.priority;
      assert b in Best(flows, p, hits);
    } else {
      assert f in Best(flows, p, hits);
    }
  }

  /** The flow taken at a table is one of the best, and there is one whenever some flow matches. */
  lemma TakesBest(tables: Tables, tie: TieBreak, table: nat, p: Packet, hits: EveroutePolicyRule -> bool, some: Flow)
    returns (f: Flow)
    requires Chooses(tie) && table in tables && some in tables[table] && Matches(some.match_, p, hits)
    ensures f in Best(tables[table], p, hits)
    ensures Exec(tables, tie, table, p, hits) == Take(tables, tie, table, p, hits, f)
  {
    BestExists(tables[table], p, hits, some);
    f := tie(table, Best(tables[table], p, hits));
  }
}
