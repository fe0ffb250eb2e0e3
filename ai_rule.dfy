/** The rule planner (`RuleOrchestrator`): a pure function from a snapshot to
    a plan, looking only at the clock, the companion and the first enemy. */
module RulePlanner {
  import opened Base
  import opened Schema
  import opened Util

  /** `format!("plan-{}", (t * 1000.0) as i64)`. */
  function PlanId(t: real): (id: string)
    ensures |id| > 5 && id[..5] == "plan-"
  {
    "plan-" + IntToString(Trunc(t * 1000.0))
  }

  /** A missing cooldown reads as 0. */
  function SmokeCooldown(me: CompanionState): real {
    if "throw:smoke" in me.cooldowns then me.cooldowns["throw:smoke"] else 0.0
  }

  /** `from` moved `k` cells toward `to` on each axis that differs. */
  function StepToward(from: IVec2, to: IVec2, k: int): IVec2 {
    IVec2(from.x + Signum(to.x - from.x) * k, from.y + Signum(to.y - from.y) * k)
  }

  /** `propose_plan`. */
  function ProposePlan(snap: WorldSnapshot): (p: PlanIntent)
    ensures p.planId == PlanId(snap.t)
    ensures snap.enemies == [] <==> p.steps == []
    ensures snap.enemies != [] && SmokeCooldown(snap.me) <= 0.0 ==>
      var first := snap.enemies[0];
      p.steps == [Throw("smoke", Midpoint(snap.me.pos, first.pos).x, Midpoint(snap.me.pos, first.pos).y),
                  MoveTo(StepToward(snap.me.pos, first.pos, 2).x, StepToward(snap.me.pos, first.pos, 2).y),
                  CoverFire(first.id, 2.5)]
    ensures snap.enemies != [] && SmokeCooldown(snap.me) > 0.0 ==>
      var first := snap.enemies[0];
      p.steps == [MoveTo(StepToward(snap.me.pos, first.pos, 1).x, StepToward(snap.me.pos, first.pos, 1).y),
                  CoverFire(first.id, 1.5)]
  {
    var planId := PlanId(snap.t);
    if snap.enemies == [] then PlanIntent(planId, [])
    else
      var m := snap.me;
      var first := snap.enemies[0];
      var mid := Midpoint(m.pos, first.pos);
      if SmokeCooldown(m) <= 0.0 then
        var to := StepToward(m.pos, first.pos, 2);
        PlanIntent(planId, [Throw("smoke", mid.x, mid.y), MoveTo(to.x, to.y), CoverFire(first.id, 2.5)])
      else
        var to := StepToward(m.pos, first.pos, 1);
        PlanIntent(planId, [MoveTo(to.x, to.y), CoverFire(first.id, 1.5)])
  }

  /** The plan's move target is within Chebyshev distance 2 of the companion
      when smoke is thrown and within 1 otherwise. */
  lemma MoveTargetNearCompanion(snap: WorldSnapshot)
    requires snap.enemies != []
    ensures var p := ProposePlan(snap);
      var k := if SmokeCooldown(snap.me) <= 0.0 then 2 else 1;
      var mv := if k == 2 then p.steps[1] else p.steps[0];
      mv.MoveTo? && Abs(mv.x - snap.me.pos.x) <= k && Abs(mv.y - snap.me.pos.y) <= k
  {
  }

  /** The smoke lands between the companion and the first enemy. */
  lemma SmokeBetween(snap: WorldSnapshot)
    requires snap.enemies != [] && SmokeCooldown(snap.me) <= 0.0
    ensures var t := ProposePlan(snap).steps[0]; var a := snap.me.pos; var b := snap.enemies[0].pos;
      t == Throw("smoke", t.x, t.y)
      && Min(a.x, b.x) <= t.x <= Max(a.x, b.x) && Min(a.y, b.y) <= t.y <= Max(a.y, b.y)
  {
  }

  /** Only the clock, the companion and the first enemy are read: two
      snapshots that agree on those get the same plan. */
  lemma ReadsOnlyFirstEnemy(a: WorldSnapshot, b: WorldSnapshot)
    requires a.t == b.t && a.me == b.me
    requires (a.enemies == []) == (b.enemies == [])
    requires a.enemies != [] ==> a.enemies[0] == b.enemies[0]
    ensures ProposePlan(a) == ProposePlan(b)
  {
  }
}
