/**
 Restart rounds of one virtual switch: flows carry the round of the agent run
 that installed them; a new run installs under the next round, waits, purges
 the previous round and only then persists its own.
 */
module RestartRounds {
  import opened Strings

  const MaxRoundNum: nat := 15

  datatype RoundInfo = RoundInfo(previousRoundNum: nat, curRoundNum: nat)

  /** The round after num, flipping to 1 at the maximum. */
  function NextRound(num: nat): nat { if num >= MaxRoundNum then 1 else num + 1 }

  /** getRoundInfo on the stored round; no stored round counts as round 0. */
  function GetRoundInfo(stored: Option<nat>): RoundInfo {
    match stored
    case None => RoundInfo(0, 1)
    case Some(num) => RoundInfo(num, NextRound(num))
  }

  datatype Flow = Flow(id: nat, round: nat)

  /** How far InitializeVDS has come. */
  datatype Phase =
    | Initialising(pending: set<string>)
    | Purging(pending: set<string>)
    | Settled

  datatype Process = Process(info: RoundInfo, phase: Phase)

  /** What survives a crash: the stored round and the flows on the bridges. */
  datatype State = State(
    bridges: set<string>, stored: Option<nat>, flows: map<string, set<Flow>>,
    process: Option<Process>, allocators: map<string, nat>)

  datatype Step =
    | Start
    | InitBridge(bridge: string)
    | Install(bridge: string, id: nat)
    | RemoveFlow(bridge: string, flow: Flow)
    | Reconnect(bridge: string, lost: bool)
    | BeginPurge
    | PurgeBridge(bridge: string)
    | Persist
    | Crash

  /** DeleteFlowByRoundInfo. */
  function WithoutRound(flows: set<Flow>, round: nat): set<Flow> { set f | f in flows && f.round != round }

  ghost predicate Enabled(s: State, step: Step) {
    match step
    case Start => s.process.None?
    case InitBridge(b) => s.process.Some? && s.process.value.phase.Initialising? && b in s.process.value.phase.pending
                          && b in s.flows
    case Install(b, _) => s.process.Some? && b in s.allocators && b in s.flows
    case RemoveFlow(b, _) => b in s.flows
    case Reconnect(b, _) => s.process.Some? && b in s.flows
    case BeginPurge => s.process.Some? && s.process.value.phase == Initialising({})
    case PurgeBridge(b) => s.process.Some? && s.process.value.phase.Purging? && b in s.process.value.phase.pending
                           && b in s.flows
    case Persist => s.process.Some? && s.process.value.phase == Purging({})
    case Crash => true
  }

  function Next(s: State, step: Step): State
    requires Enabled(s, step)
  {
    match step
    case Start => s.(process := Some(Process(GetRoundInfo(s.stored), Initialising(s.bridges))))
    case InitBridge(b) =>
      var p := s.process.value;
      s.(flows := s.flows[b := WithoutRound(s.flows[b], p.info.curRoundNum)],
         allocators := s.allocators[b := p.info.curRoundNum],
         process := Some(p.(phase := Initialising(p.phase.pending - {b}))))
    case Install(b, id) => s.(flows := s.flows[b := s.flows[b] + {Flow(id, s.allocators[b])}])
    case RemoveFlow(b, f) => s.(flows := s.flows[b := s.flows[b] - {f}])
    case Reconnect(b, lost) =>
      // replayVDSFlow reads the stored round again
      s.(flows := if lost then s.flows[b := {}] else s.flows,
         allocators := s.allocators[b := GetRoundInfo(s.stored).curRoundNum])
    case BeginPurge => s.(process := Some(s.process.value.(phase := Purging(s.bridges))))
    case PurgeBridge(b) =>
      var p := s.process.value;
      s.(flows := s.flows[b := WithoutRound(s.flows[b], p.info.previousRoundNum)],
         process := Some(p.(phase := Purging(p.phase.pending - {b}))))
    case Persist =>
      s.(stored := Some(s.process.value.info.curRoundNum), process := Some(s.process.value.(phase := Settled)))
    case Crash => s.(process := None, allocators := map[])
  }

  function Stored(s: State): nat { GetRoundInfo(s.stored).previousRoundNum }

  function Upcoming(s: State): nat { GetRoundInfo(s.stored).curRoundNum }

  /** Rounds in use, and what the running process knows about them. */
  ghost predicate Inv(s: State) {
    && s.flows.Keys == s.bridges
    && (s.stored.Some? ==> 1 <= s.stored.value <= MaxRoundNum)
    && (forall b, f :: b in s.flows && f in s.flows[b] ==> f.round == Stored(s) || f.round == Upcoming(s))
    && (s.process.None? ==> s.allocators == map[])
    && (forall b :: b in s.allocators ==> s.allocators[b] == Upcoming(s)
                                          || (s.allocators[b] == Stored(s) && s.process.Some?
                                              && s.process.value.phase.Settled?))
    && (s.process.Some? && !s.process.value.phase.Settled? ==> s.process.value.info == GetRoundInfo(s.stored))
    && (s.process.Some? && s.process.value.phase.Purging? ==>
          forall b, f :: b in s.flows && b !in s.process.value.phase.pending && f in s.flows[b] ==>
                         f.round == Upcoming(s))
  }

  /** The stored round and its successor are always different, across the flip too. */
  lemma RoundsDiffer(s: State)
    requires Inv(s)
    ensures Stored(s) != Upcoming(s) && 1 <= Upcoming(s) <= MaxRoundNum
  {
  }

  lemma StepInv(s: State, step: Step)
    requires Inv(s) && Enabled(s, step)
    ensures Inv(Next(s, step))
  {
    RoundsDiffer(s);
  }

  ghost predicate OfRound(flows: map<string, set<Flow>>, round: nat) {
    forall b, f :: b in flows && f in flows[b] ==> f.round == round
  }

  /** When the round is persisted, every flow on any bridge is of that round, and none of the previous one. */
  lemma PersistIsClean(s: State)
    requires Inv(s) && Enabled(s, Persist)
    ensures OfRound(s.flows, s.process.value.info.curRoundNum)
    ensures s.process.value.info.curRoundNum != s.process.value.info.previousRoundNum
  {
  }

  lemma PersistStep(s: State)
    requires Inv(s) && Enabled(s, Persist)
    ensures OfRound(s.flows, Upcoming(s)) && Upcoming(s) == Stored(Next(s, Persist))
  {
    PersistIsClean(s);
  }

  /** A fresh switch: nothing stored, nothing installed. */
  function Init(bridges: set<string>): State { State(bridges, None, map b | b in bridges :: {}, None, map[]) }

  ghost predicate Behaviour(states: seq<State>, steps: seq<Step>, bridges: set<string>) {
    && |states| == |steps| + 1 && states[0] == Init(bridges)
    && forall i :: 0 <= i < |steps| ==> Enabled(states[i], steps[i]) && states[i + 1] == Next(states[i], steps[i])
  }

  /**
   Over every run: each installed flow has the stored round or its successor,
   those two differ, and persisting happens on a clean switch.
   */
  lemma {:induction false} EveryState(states: seq<State>, steps: seq<Step>, bridges: set<string>, i: nat)
    requires Behaviour(states, steps, bridges) && i < |states|
    ensures Inv(states[i]) && Stored(states[i]) != Upcoming(states[i])
    ensures i < |steps| && steps[i].Persist? ==>
      OfRound(states[i].flows, Upcoming(states[i])) && Upcoming(states[i]) == Stored(states[i + 1])
  {
    if i > 0 {
      EveryState(states, steps, bridges, i - 1);
      StepInv(states[i - 1], steps[i - 1]);
    }
    RoundsDiffer(states[i]);
    if i < |steps| && steps[i].Persist? { PersistStep(states[i]); }
  }

  /** How often a round has been persisted. */
  function Persisted(steps: seq<Step>): nat {
    if steps == [] then 0 else Persisted(steps[..|steps| - 1]) + (if steps[|steps| - 1].Persist? then 1 else 0)
  }

  /** The stored round after n of them. */
  function NthRound(n: nat): Option<nat> { if n == 0 then None else Some(1 + (n - 1) % 15) }

  lemma StepStores(s: State, step: Step)
    requires Inv(s) && Enabled(s, step)
    ensures Next(s, step).stored == if step.Persist? then Some(Upcoming(s)) else s.stored
  {
  }

  lemma NextRoundCounts(n: nat)
    ensures Some(GetRoundInfo(NthRound(n)).curRoundNum) == NthRound(n + 1)
  {
  }

  /**
   Over every run, crashes at any point included, the stored round is a count of
   the rounds persisted so far: none, then 1 to 15 and again from 1.
   */
  lemma {:induction false} StoredRoundCounts(states: seq<State>, steps: seq<Step>, bridges: set<string>, i: nat)
    requires Behaviour(states, steps, bridges) && i < |states|
    ensures states[i].stored == NthRound(Persisted(steps[..i]))
  {
    if i > 0 {
      StoredRoundCounts(states, steps, bridges, i - 1);
      EveryState(states, steps, bridges, i - 1);
      StepStores(states[i - 1], steps[i - 1]);
      NextRoundCounts(Persisted(steps[..i - 1]));
      assert steps[..i][..i - 1] == steps[..i - 1];
    }
  }
}
