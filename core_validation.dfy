/** The plan executor: validates each step of a plan against the live world
    and applies it at once, stopping at the first failing step without undoing
    the steps already applied. */
module Validation {
  import opened Base
  import opened Schema
  import opened WorldStore
  import opened Tools

  datatype ValidateCfg = ValidateCfg(worldBounds: Bounds)

  /** The lines handed to the log sink, as structured values. */
  datatype LogLine =
    | PlanHeader(planId: string, count: nat)
    | MoveLine(i: nat, x: int, y: int)
    | ThrowLine(i: nat, item: string, x: int, y: int)
    | CoverFireLine(i: nat, target: Entity, duration: real)
    | ReviveLine(i: nat, ally: Entity)

  /** Seconds a thrown item stays on cooldown. */
  const ThrowCooldown: real := 8.0

  /** The health a downed ally is revived to. */
  const ReviveHp: int := 20

  /** Rounds spent by one cover-fire step. */
  const CoverFireRounds: int := 3

  function ThrowKey(item: string): (k: string)
    ensures |k| == |item| + 6 && k[6..] == item
  {
    "throw:" + item
  }

  /** Damage of a cover-fire step: five per second, truncated, at least one. */
  function CoverFireDamage(duration: real): (d: int)
    ensures d >= 1
    ensures duration >= 0.0 ==> d == 1 || (d as real <= duration * 5.0 < d as real + 1.0)
  {
    Max(Trunc(duration * 5.0), 1)
  }

  /** The components a step unwraps on the actor. */
  predicate StepReady(s: WorldState, actor: Entity, step: ActionStep) {
    match step
    case MoveTo(_, _) => actor in s.poses
    case Throw(_, _, _) => actor in s.poses && actor in s.cds
    case CoverFire(_, _) => actor in s.poses && actor in s.ammo
    case Revive(_) => true
  }

  predicate PlanReady(s: WorldState, actor: Entity, steps: seq<ActionStep>) {
    forall i :: 0 <= i < |steps| ==> StepReady(s, actor, steps[i])
  }

  /** One step on a world state: the error it raises, or the new state and
      its log line. */
  ghost function ApplyStep(s: WorldState, actor: Entity, step: ActionStep, i: nat, b: Bounds)
    : (r: Result<(WorldState, LogLine), EngineError>)
    requires StepReady(s, actor, step)
    ensures r.Ok? ==> var s2 := r.value.0;
      s2.t == s.t && s2.nextId == s.nextId && s2.obstacles == s.obstacles
      && s2.team == s.team && s2.names == s.names
      && s2.poses.Keys == s.poses.Keys && s2.health.Keys == s.health.Keys
      && s2.ammo.Keys == s.ammo.Keys && s2.cds.Keys == s.cds.Keys
    ensures step.MoveTo? ==> (r.Ok? <==> Reachable(s.obstacles, b, s.poses[actor], IVec2(step.x, step.y)))
    ensures step.MoveTo? && r.Err? ==> r.error == NoPath
    ensures step.MoveTo? && r.Ok? ==> r.value.0 == s.(poses := s.poses[actor := IVec2(step.x, step.y)])
    ensures step.Throw? && !LosSpec(s.obstacles, s.poses[actor], IVec2(step.x, step.y)) ==> r == Err(LosBlocked)
    ensures step.Throw? && LosSpec(s.obstacles, s.poses[actor], IVec2(step.x, step.y)) ==>
      var key := ThrowKey(step.item);
      (r.Err? <==> key in s.cds[actor] && s.cds[actor][key] > 0.0)
      && (r.Err? ==> r.error == Cooldown(key))
      && (r.Ok? ==> r.value.0.poses == s.poses && r.value.0.health == s.health && r.value.0.ammo == s.ammo
                    && r.value.0.cds == s.cds[actor := s.cds[actor][key := ThrowCooldown]])
    ensures step.CoverFire? && step.targetId !in s.poses ==> r == Err(InvalidAction("target gone"))
    ensures step.CoverFire? && step.targetId in s.poses ==>
      (r.Ok? <==> LosSpec(s.obstacles, s.poses[actor], s.poses[step.targetId]))
      && (r.Err? ==> r.error == LosBlocked)
    ensures step.CoverFire? && r.Ok? ==> var s2 := r.value.0;
      s2.poses == s.poses && s2.cds == s.cds
      && s2.ammo == s.ammo[actor := Max(s.ammo[actor] - CoverFireRounds, 0)]
      && (step.targetId in s.health ==>
            s2.health == s.health[step.targetId := s.health[step.targetId] - CoverFireDamage(step.duration)])
      && (step.targetId !in s.health ==> s2.health == s.health)
    ensures step.Revive? ==> r.Ok? && r.value.0.poses == s.poses && r.value.0.ammo == s.ammo && r.value.0.cds == s.cds
    ensures step.Revive? && step.allyId in s.health ==>
      r.value.0.health == s.health[step.allyId := if s.health[step.allyId] <= 0 then ReviveHp else s.health[step.allyId]]
    ensures step.Revive? && step.allyId !in s.health ==> r.value.0.health == s.health
  {
    match step
    case MoveTo(x, y) =>
      if Reachable(s.obstacles, b, s.poses[actor], IVec2(x, y)) then
        Ok((s.(poses := s.poses[actor := IVec2(x, y)]), MoveLine(i, x, y)))
      else Err(NoPath)
    case Throw(item, x, y) =>
      if !LosSpec(s.obstacles, s.poses[actor], IVec2(x, y)) then Err(LosBlocked)
      else
        var table := s.cds[actor];
        var key := ThrowKey(item);
        if key in table && table[key] > 0.0 then Err(Cooldown(key))
        else Ok((s.(cds := s.cds[actor := table[key := ThrowCooldown]]), ThrowLine(i, item, x, y)))
    case CoverFire(target, duration) =>
      if target !in s.poses then Err(InvalidAction("target gone"))
      else if !LosSpec(s.obstacles, s.poses[actor], s.poses[target]) then Err(LosBlocked)
      else
        var health := if target in s.health then s.health[target := s.health[target] - CoverFireDamage(duration)]
                       else s.health;
        Ok((s.(health := health, ammo := s.ammo[actor := Max(s.ammo[actor] - CoverFireRounds, 0)]),
            CoverFireLine(i, target, duration)))
    case Revive(ally) =>
      var health := if ally in s.health && s.health[ally] <= 0 then s.health[ally := ReviveHp] else s.health;
      Ok((s.(health := health), ReviveLine(i, ally)))
  }

  /** The world, the step log and the result after running a plan's steps
      in order, stopping at the first error. */
  datatype Outcome = Outcome(s: WorldState, log: seq<LogLine>, result: Result<(), EngineError>)

  ghost function Run(s: WorldState, actor: Entity, steps: seq<ActionStep>, b: Bounds): (o: Outcome)
    requires PlanReady(s, actor, steps)
    ensures o.s.poses.Keys == s.poses.Keys && o.s.ammo.Keys == s.ammo.Keys && o.s.cds.Keys == s.cds.Keys
    ensures o.s.obstacles == s.obstacles && o.s.t == s.t
    ensures |o.log| <= |steps|
    ensures o.result.Ok? ==> |o.log| == |steps|
    decreases |steps|
  {
    if steps == [] then Outcome(s, [], Ok(()))
    else
      var n := |steps| - 1;
      assert PlanReady(s, actor, steps[..n]);
      var o := Run(s, actor, steps[..n], b);
      if o.result.Err? then o
      else
        assert StepReady(s, actor, steps[n]);
        match ApplyStep(o.s, actor, steps[n], n, b)
        case Err(e) => Outcome(o.s, o.log, Err(e))
        case Ok((s2, line)) => Outcome(s2, o.log + [line], Ok(()))
  }

  /** Once a step has failed, later steps are never looked at. */
  lemma {:induction false} RunStopsAtError(s: WorldState, actor: Entity, p: seq<ActionStep>, q: seq<ActionStep>, b: Bounds)
    requires PlanReady(s, actor, p + q)
    requires PlanReady(s, actor, p) && Run(s, actor, p, b).result.Err?
    ensures Run(s, actor, p + q, b) == Run(s, actor, p, b)
    decreases |q|
  {
    if q == [] {
      assert p + q == p;
    } else {
      var n := |p + q| - 1;
      var q' := q[..|q| - 1];
      assert (p + q)[..n] == p + q';
      assert PlanReady(s, actor, p + q');
      RunStopsAtError(s, actor, p, q', b);
    }
  }

  /** A failed run stopped at some step `k`: the steps before it all
      succeeded, step `k` raised the error returned, and the world keeps the
      effects of steps `0..k` (nothing is rolled back). */
  lemma {:induction false} RunFirstError(s: WorldState, actor: Entity, steps: seq<ActionStep>, b: Bounds)
    returns (k: nat)
    requires PlanReady(s, actor, steps) && Run(s, actor, steps, b).result.Err?
    ensures k < |steps|
    ensures PlanReady(s, actor, steps[..k]) && Run(s, actor, steps[..k], b).result.Ok?
    ensures var o := Run(s, actor, steps[..k], b);
      StepReady(o.s, actor, steps[k])
      && ApplyStep(o.s, actor, steps[k], k, b).Err?
      && Run(s, actor, steps, b) == Outcome(o.s, o.log, Err(ApplyStep(o.s, actor, steps[k], k, b).error))
    decreases |steps|
  {
    var n := |steps| - 1;
    assert PlanReady(s, actor, steps[..n]);
    if Run(s, actor, steps[..n], b).result.Err? {
      k := RunFirstError(s, actor, steps[..n], b);
      assert steps[..n][..k] == steps[..k];
      assert steps[..n][k] == steps[k];
    } else {
      k := n;
    }
  }

  /** Executes one step on the live world, as `ApplyStep` describes. */
  method ExecuteStep(w: World, actor: Entity, step: ActionStep, i: nat, b: Bounds)
    returns (r: Result<LogLine, EngineError>)
    requires StepReady(w.State(), actor, step)
    modifies w
    ensures match ApplyStep(old(w.State()), actor, step, i, b)
      case Err(e) => r == Err(e) && w.State() == old(w.State())
      case Ok((s2, line)) => r == Ok(line) && w.State() == s2
  {
    match step
    case MoveTo(x, y) =>
      var found := PathExists(w.obstacles, w.poses[actor], IVec2(x, y), b);
      if !found {
        return Err(NoPath);
      }
      w.poses := w.poses[actor := IVec2(x, y)];
      r := Ok(MoveLine(i, x, y));
    case Throw(item, x, y) =>
      var clear := LosClear(w.obstacles, w.poses[actor], IVec2(x, y));
      if !clear {
        return Err(LosBlocked);
      }
      var table := w.cds[actor];
      var key := ThrowKey(item);
      if key in table && table[key] > 0.0 {
        return Err(Cooldown(key));
      }
      w.cds := w.cds[actor := table[key := ThrowCooldown]];
      r := Ok(ThrowLine(i, item, x, y));
    case CoverFire(target, duration) =>
      if target !in w.poses {
        return Err(InvalidAction("target gone"));
      }
      var clear := LosClear(w.obstacles, w.poses[actor], w.poses[target]);
      if !clear {
        return Err(LosBlocked);
      }
      if target in w.health {
        w.health := w.health[target := w.health[target] - CoverFireDamage(duration)];
      }
      w.ammo := w.ammo[actor := Max(w.ammo[actor] - CoverFireRounds, 0)];
      r := Ok(CoverFireLine(i, target, duration));
    case Revive(ally) =>
      if ally in w.health && w.health[ally] <= 0 {
        w.health := w.health[ally := ReviveHp];
      }
      r := Ok(ReviveLine(i, ally));
  }

  /** `validate_and_execute`: logs the plan header, then runs the steps in
      order; the world ends as `Run` says, and the log is the header followed
      by one line per step that succeeded. */
  method ValidateAndExecute(w: World, actor: Entity, intent: PlanIntent, cfg: ValidateCfg)
    returns (result: Result<(), EngineError>, log: seq<LogLine>)
    requires PlanReady(w.State(), actor, intent.steps)
    modifies w
    ensures var o := Run(old(w.State()), actor, intent.steps, cfg.worldBounds);
      w.State() == o.s && result == o.result
      && log == [PlanHeader(intent.planId, |intent.steps|)] + o.log
  {
    ghost var s0 := w.State();
    var steps := intent.steps;
    log := [PlanHeader(intent.planId, |steps|)];
    var i := 0;
    while i < |steps|
      invariant 0 <= i <= |steps|
      invariant PlanReady(s0, actor, steps[..i])
      invariant var o := Run(s0, actor, steps[..i], cfg.worldBounds);
        w.State() == o.s && o.result.Ok? && log == [PlanHeader(intent.planId, |steps|)] + o.log
    {
      assert steps[..i + 1][..i] == steps[..i] && steps[..i + 1][i] == steps[i];
      assert PlanReady(s0, actor, steps[..i + 1]);
      var r := ExecuteStep(w, actor, steps[i], i, cfg.worldBounds);
      if r.Err? {
        assert steps[..i + 1] + steps[i + 1..] == steps;
        RunStopsAtError(s0, actor, steps[..i + 1], steps[i + 1..], cfg.worldBounds);
        return Err(r.error), log;
      }
      log := log + [r.value];
      i := i + 1;
    }
    assert steps[..i] == steps;
    result := Ok(());
  }

  /** The 20 by 10 arena of the example runs below. */
  const Arena: Bounds := (0, 0, 19, 9)

  /** On an empty arena, moving from (2,2) to (10,2) succeeds
      and leaves the actor at (10,2). */
  lemma ScenarioMoveOnOpenGrid(s: WorldState, actor: Entity)
    requires s.obstacles == {} && actor in s.poses && s.poses[actor] == IVec2(2, 2)
    ensures PlanReady(s, actor, [MoveTo(10, 2)])
    ensures Run(s, actor, [MoveTo(10, 2)], Arena)
      == Outcome(s.(poses := s.poses[actor := IVec2(10, 2)]), [MoveLine(0, 10, 2)], Ok(()))
  {
    var p := seq(9, k requires 0 <= k < 9 => IVec2(2 + k, 2));
    assert IsPath(s.obstacles, Arena, p, IVec2(2, 2), IVec2(10, 2));
    assert [MoveTo(10, 2)][..0] == [];
  }

  /** A smoke grenade still cooling down fails the throw with
      `Cooldown("throw:smoke")`; the plan stops there and the actor has not
      moved, although a later step would have moved it. */
  lemma ScenarioThrowOnCooldown(s: WorldState, actor: Entity)
    requires s.obstacles == {} && actor in s.poses && actor in s.cds
    requires "throw:smoke" in s.cds[actor] && s.cds[actor]["throw:smoke"] == 5.0
    ensures PlanReady(s, actor, [Throw("smoke", 5, 5), MoveTo(3, 3)])
    ensures var o := Run(s, actor, [Throw("smoke", 5, 5), MoveTo(3, 3)], Arena);
      o.result == Err(Cooldown("throw:smoke")) && o.s == s && o.log == []
  {
    var plan := [Throw("smoke", 5, 5), MoveTo(3, 3)];
    assert plan[..1][..0] == [] && plan[..1][0] == Throw("smoke", 5, 5);
    SmokeKey();
    assert LosSpec(s.obstacles, s.poses[actor], IVec2(5, 5));
    assert plan == plan[..1] + [MoveTo(3, 3)];
    RunStopsAtError(s, actor, plan[..1], [MoveTo(3, 3)], Arena);
  }

  lemma SmokeKey()
    ensures ThrowKey("smoke") == "throw:smoke"
  {
    assert ("throw:" + "smoke")[6..] == "smoke";
  }

  /** A wall across the arena: column 10 blocked from top to bottom. */
  function Wall(): Obstacles {
    set y | 0 <= y <= 9 :: (10, y)
  }

  /** With the wall across column 10, (19,9) cannot be reached from (0,0), so the
      move fails with `NoPath` and the actor stays put. */
  lemma ScenarioWallBlocksMove(s: WorldState, actor: Entity)
    requires s.obstacles == Wall() && actor in s.poses && s.poses[actor] == IVec2(0, 0)
    ensures PlanReady(s, actor, [MoveTo(19, 9)])
    ensures Run(s, actor, [MoveTo(19, 9)], Arena) == Outcome(s, [], Err(NoPath))
  {
    var west := set x, y | 0 <= x < 10 && 0 <= y <= 9 :: IVec2(x, y);
    forall c | c in west
      ensures Closed(s.obstacles, Arena, c, west)
    {
      assert (10, c.y) in Wall();
    }
    ClosedUnreachable(s.obstacles, Arena, IVec2(0, 0), IVec2(19, 9), west);
    assert [MoveTo(19, 9)][..0] == [];
  }
}
