/** The boss director and the pieces both encounter directors share: the
    target they aim at, the 3 by 3 choke they fortify, and the budget gate
    every emitted operation passes. Directors only read the budget. */
module Director {
  import opened Base
  import opened Schema
  import opened Util

  /** The first enemy's position, or six cells east of the player. */
  function Target(snap: WorldSnapshot): (t: IVec2)
    ensures snap.enemies != [] ==> t == snap.enemies[0].pos
    ensures snap.enemies == [] ==> t == IVec2(snap.player.pos.x + 6, snap.player.pos.y)
  {
    if snap.enemies != [] then snap.enemies[0].pos else IVec2(snap.player.pos.x + 6, snap.player.pos.y)
  }

  /** The 3 by 3 rectangle centred on `c`. */
  function ChokeRect(c: IVec2): (r: Rect)
    ensures r.x1 - r.x0 == 2 && r.y1 - r.y0 == 2
    ensures r.x0 + 1 == c.x && r.y0 + 1 == c.y
  {
    Rect(c.x - 1, c.y - 1, c.x + 1, c.y + 1)
  }

  /** An operation is affordable when the budget counter it draws on is
      positive. */
  predicate Affordable(op: DirectorOp, budget: DirectorBudget) {
    match op
    case Fortify(_) => budget.terrainEdits > 0
    case SpawnWave(_, _, _) => budget.spawns > 0
    case Collapse(_, _) => budget.terrainEdits > 0
  }

  predicate AllAffordable(ops: seq<DirectorOp>, budget: DirectorBudget) {
    forall i :: 0 <= i < |ops| ==> Affordable(ops[i], budget)
  }

  /** The operations a director emits once it has chosen whether to fortify:
      the choke alone, or a wave behind the player (if spawns remain)
      followed by a collapse toward the target (if terrain edits remain). */
  function Ops(fortify: bool, archetype: string, count: nat, ppos: IVec2, tgt: IVec2, budget: DirectorBudget)
    : (ops: seq<DirectorOp>)
    requires fortify ==> budget.terrainEdits > 0
    ensures 1 <= |ops| <= 2 || (ops == [] && !fortify && budget.spawns <= 0 && budget.terrainEdits <= 0)
    ensures AllAffordable(ops, budget)
    ensures fortify ==> ops == [Fortify(ChokeRect(Midpoint(ppos, tgt)))]
    ensures !fortify ==>
      (SpawnWave(archetype, count, IVec2(ppos.x - 2, ppos.y + 1)) in ops <==> budget.spawns > 0)
      && (Collapse(ppos, Midpoint(ppos, tgt)) in ops <==> budget.terrainEdits > 0)
      && (|ops| == 2 ==> ops[0].SpawnWave? && ops[1].Collapse?)
      && forall i :: 0 <= i < |ops| ==> !ops[i].Fortify?
  {
    if fortify then [Fortify(ChokeRect(Midpoint(ppos, tgt)))]
    else
      (if budget.spawns > 0 then [SpawnWave(archetype, count, IVec2(ppos.x - 2, ppos.y + 1))] else [])
      + (if budget.terrainEdits > 0 then [Collapse(ppos, Midpoint(ppos, tgt))] else [])
  }

  /** `BossDirector::plan`: fortify when the target is more than 8 cells
      away and terrain edits remain; otherwise a wave of three minions and a
      collapse, each only while its counter is positive. */
  function BossPlan(snap: WorldSnapshot, budget: DirectorBudget): (p: DirectorPlan)
    ensures |p.ops| <= 2 && AllAffordable(p.ops, budget)
    ensures var ppos := snap.player.pos; var tgt := Target(snap);
      (p.ops == [Fortify(ChokeRect(Midpoint(ppos, tgt)))] <==> Manhattan(ppos, tgt) > 8 && budget.terrainEdits > 0)
  {
    var ppos := snap.player.pos;
    var tgt := Target(snap);
    var fortify := Abs(ppos.x - tgt.x) + Abs(ppos.y - tgt.y) > 8 && budget.terrainEdits > 0;
    DirectorPlan(Ops(fortify, "minion", 3, ppos, tgt, budget))
  }

  /** With no budget left the boss director emits nothing. */
  lemma BossPlanEmptyBudget(snap: WorldSnapshot, budget: DirectorBudget)
    requires budget.spawns <= 0 && budget.terrainEdits <= 0
    ensures BossPlan(snap, budget).ops == []
  {
  }

  /** Close to the target, a positive spawn counter always yields a wave of
      three minions behind the player. */
  lemma BossPlanSpawnsWhenClose(snap: WorldSnapshot, budget: DirectorBudget)
    requires Manhattan(snap.player.pos, Target(snap)) <= 8 && budget.spawns > 0
    ensures BossPlan(snap, budget).ops[0]
      == SpawnWave("minion", 3, IVec2(snap.player.pos.x - 2, snap.player.pos.y + 1))
  {
  }
}
