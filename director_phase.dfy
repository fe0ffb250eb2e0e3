/** The phase director: a boss encounter split into phases by health
    thresholds. Its phase index only moves forward; each step plans
    budget-gated operations in the style of the current phase. */
module PhaseDirecting {
  import opened Base
  import opened Schema
  import opened Util
  import opened Director

  datatype PhaseSpec = PhaseSpec(name: string, hpThreshold: int, terrainBias: real, aggression: real)

  datatype PhasePlan = PhasePlan(phaseName: string, telegraphs: seq<string>, director: DirectorPlan)

  function ShiftLine(name: string): string {
    "Boss shifts into phase: " + name
  }

  /** The announcement that goes with each kind of operation. */
  function OpLine(op: DirectorOp): string {
    match op
    case Fortify(_) => "The ground trembles\U{2014}ramparts rise!"
    case SpawnWave(_, _, _) => "A spectral cohort joins the fray!"
    case Collapse(_, _) => "Bridges shatter\U{2014}paths rerouted!"
  }

  /** Where the phase switch loop stops: it moves to the next phase while
      there is one and the boss's health is at or below its threshold. */
  function Advance(phases: seq<PhaseSpec>, i: nat, hp: int): (r: nat)
    requires i < |phases|
    ensures i <= r < |phases|
    ensures r + 1 == |phases| || hp > phases[r + 1].hpThreshold
    ensures forall j :: i < j <= r ==> hp <= phases[j].hpThreshold
    decreases |phases| - i
  {
    if i + 1 < |phases| && hp <= phases[i + 1].hpThreshold then Advance(phases, i + 1, hp) else i
  }

  /** The announcements of the phases entered when moving from `i` to `j`. */
  function Shifts(phases: seq<PhaseSpec>, i: nat, j: nat): (r: seq<string>)
    requires i <= j < |phases|
    ensures |r| == j - i
    ensures forall k :: 0 <= k < j - i ==> r[k] == ShiftLine(phases[i + 1 + k].name)
  {
    seq(j - i, k requires 0 <= k < j - i => ShiftLine(phases[i + 1 + k].name))
  }

  lemma ShiftsSnoc(phases: seq<PhaseSpec>, i: nat, j: nat)
    requires i <= j && j + 1 < |phases|
    ensures Shifts(phases, i, j + 1) == Shifts(phases, i, j) + [ShiftLine(phases[j + 1].name)]
  {
  }

  function OpLines(ops: seq<DirectorOp>): (r: seq<string>)
    ensures |r| == |ops|
    ensures forall k :: 0 <= k < |ops| ==> r[k] == OpLine(ops[k])
  {
    seq(|ops|, k requires 0 <= k < |ops| => OpLine(ops[k]))
  }

  /** The operations of one phase: fortify when the phase leans to terrain
      (bias above one half) and terrain edits remain; otherwise a wave of four
      adds and a collapse, each while its counter is positive. */
  function PhaseOps(phase: PhaseSpec, snap: WorldSnapshot, budget: DirectorBudget): (ops: seq<DirectorOp>)
    ensures |ops| <= 2 && AllAffordable(ops, budget)
    ensures phase.terrainBias > 0.5 && budget.terrainEdits > 0 ==>
      ops == [Fortify(ChokeRect(Midpoint(snap.player.pos, Target(snap))))]
  {
    Ops(phase.terrainBias > 0.5 && budget.terrainEdits > 0, "phase_add", 4, snap.player.pos, Target(snap), budget)
  }

  class PhaseDirector {
    var phases: seq<PhaseSpec>
    var idx: nat
    var lastSwitchT: real
    var telegraph: Option<string>

    /** The index is a phase, or 0 for a director with no phases. */
    predicate Valid()
      reads this
    {
      idx == 0 || idx < |phases|
    }

    /** `PhaseDirector::new`: first phase, no switch yet, nothing announced. */
    constructor (phases: seq<PhaseSpec>)
      ensures Valid()
      ensures this.phases == phases && idx == 0 && lastSwitchT == 0.0 && telegraph == None
    {
      this.phases := phases;
      idx := 0;
      lastSwitchT := 0.0;
      telegraph := None;
    }

    /** The phase switch loop of `step`: moves forward while the boss's
        health is at or below the next phase's threshold, announcing each
        phase entered. */
    method SwitchPhases(hp: int) returns (tele: seq<string>)
      requires |phases| > 0 && Valid()
      modifies this
      ensures Valid()
      ensures phases == old(phases) && lastSwitchT == old(lastSwitchT)
      ensures idx == Advance(phases, old(idx), hp)
      ensures telegraph == (if idx == old(idx) then old(telegraph) else Some(ShiftLine(phases[idx].name)))
      ensures tele == Shifts(phases, old(idx), idx)
    {
      tele := [];
      while idx + 1 < |phases| && hp <= phases[idx + 1].hpThreshold
        invariant phases == old(phases) && lastSwitchT == old(lastSwitchT)
        invariant old(idx) <= idx < |phases|
        invariant Advance(phases, idx, hp) == Advance(phases, old(idx), hp)
        invariant tele == Shifts(phases, old(idx), idx)
        invariant telegraph == (if idx == old(idx) then old(telegraph) else Some(ShiftLine(phases[idx].name)))
        decreases |phases| - idx
      {
        ShiftsSnoc(phases, old(idx), idx);
        idx := idx + 1;
        telegraph := Some(ShiftLine(phases[idx].name));
        tele := tele + [telegraph.value];
      }
    }

    /** `step`: with a boss (the first enemy), move forward through every
        phase whose threshold its health has reached, announcing each; then
        plan in the style of the phase reached. The budget is only read. */
    method Step(snap: WorldSnapshot, budget: DirectorBudget) returns (plan: PhasePlan)
      requires Valid() && |phases| > 0
      modifies this
      ensures Valid()
      ensures phases == old(phases) && lastSwitchT == old(lastSwitchT)
      ensures idx == (if snap.enemies == [] then old(idx) else Advance(phases, old(idx), snap.enemies[0].hp))
      ensures telegraph == (if idx == old(idx) then old(telegraph) else Some(ShiftLine(phases[idx].name)))
      ensures plan.phaseName == phases[idx].name
      ensures plan.director == DirectorPlan(PhaseOps(phases[idx], snap, budget))
      ensures plan.telegraphs == Shifts(phases, old(idx), idx) + OpLines(plan.director.ops)
    {
      var tele: seq<string> := [];
      if snap.enemies != [] {
        tele := SwitchPhases(snap.enemies[0].hp);
      }
      var phase := phases[idx];
      var ops := PhaseOps(phase, snap, budget);
      tele := tele + OpLines(ops);
      plan := PhasePlan(phase.name, tele, DirectorPlan(ops));
    }
  }

  /** The index never moves backward and stays a phase. */
  lemma AdvanceForward(phases: seq<PhaseSpec>, i: nat, hp: int)
    requires i < |phases|
    ensures i <= Advance(phases, i, hp) < |phases|
  {
  }

  /** The first phase's threshold is never consulted. */
  lemma {:induction false} FirstThresholdIgnored(phases: seq<PhaseSpec>, i: nat, hp: int, p: PhaseSpec)
    requires i < |phases|
    ensures Advance(phases[0 := p], i, hp) == Advance(phases, i, hp)
    decreases |phases| - i
  {
    if i + 1 < |phases| && hp <= phases[i + 1].hpThreshold {
      FirstThresholdIgnored(phases, i + 1, hp, p);
    }
  }

  /** With thresholds 250, 150 and 50, the boss drops to 40 in one
      update, so a single step moves from the first phase to the third and
      announces two shifts. */
  lemma ScenarioSharpDrop(a: PhaseSpec, b: PhaseSpec, c: PhaseSpec)
    requires a.hpThreshold == 250 && b.hpThreshold == 150 && c.hpThreshold == 50
    ensures Advance([a, b, c], 0, 40) == 2
    ensures Shifts([a, b, c], 0, 2) == [ShiftLine(b.name), ShiftLine(c.name)]
  {
    assert Advance([a, b, c], 2, 40) == 2;
    assert Advance([a, b, c], 1, 40) == 2;
  }
}
