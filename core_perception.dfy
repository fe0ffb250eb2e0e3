/** The snapshot builder: a detached, read-only projection of the world for
    one planning cycle. */
module Perception {
  import opened Base
  import opened Schema
  import opened Util
  import opened WorldStore

  datatype PerceptionConfig = PerceptionConfig(losMax: int)

  /** The one point of interest every snapshot carries. */
  const BreachDoor: Poi := Poi("breach_door", IVec2(15, 8))

  /** What `build_snapshot` unwraps: the player's pose and health and the
      companion's pose, ammunition and cooldown table. */
  predicate Perceivable(s: WorldState, player: Entity, companion: Entity) {
    player in s.poses && player in s.health
    && companion in s.poses && companion in s.ammo && companion in s.cds
  }

  /** The radius-only cover estimate, measured from the player. */
  function CoverLabel(pos: IVec2, ppos: IVec2, losMax: int): (r: string)
    ensures r == "unknown" || r == "low"
    ensures r == "unknown" <==> Manhattan(pos, ppos) > losMax
  {
    if Abs(pos.x - ppos.x) + Abs(pos.y - ppos.y) > losMax then "unknown" else "low"
  }

  /** One enemy as the snapshot sees it; entities without a pose or without
      health are not seen. */
  function SeeEnemy(s: WorldState, e: Entity, ppos: IVec2, losMax: int): (r: Option<EnemyState>)
    ensures r.Some? <==> e in s.poses && e in s.health
  {
    if e in s.poses && e in s.health then
      Some(EnemyState(e, s.poses[e], s.health[e], CoverLabel(s.poses[e], ppos, losMax), s.t))
    else None
  }

  /** The `filter_map` over the requested enemies, in their order. */
  function SeeEnemies(s: WorldState, es: seq<Entity>, ppos: IVec2, losMax: int): (r: seq<EnemyState>)
    ensures |r| <= |es|
  {
    if es == [] then []
    else
      var rest := SeeEnemies(s, es[1..], ppos, losMax);
      match SeeEnemy(s, es[0], ppos, losMax)
      case Some(v) => [v] + rest
      case None => rest
  }

  /** `build_snapshot`: reads the world and never changes it. */
  function BuildSnapshot(w: World, player: Entity, companion: Entity, enemies: seq<Entity>,
                         objective: Option<string>, cfg: PerceptionConfig): (r: WorldSnapshot)
    reads w
    requires Perceivable(w.State(), player, companion)
    ensures r.t == w.t
    ensures r.player == PlayerState(w.health[player], w.poses[player], "crouch", ["hold_east"])
    ensures r.me == CompanionState(w.ammo[companion], w.cds[companion], 0.8, w.poses[companion])
    ensures r.pois == [BreachDoor]
    ensures r.objective == objective
    ensures |r.enemies| <= |enemies|
  {
    var s := w.State();
    var ppos := s.poses[player];
    WorldSnapshot(
      s.t,
      PlayerState(s.health[player], ppos, "crouch", ["hold_east"]),
      CompanionState(s.ammo[companion], s.cds[companion], 0.8, s.poses[companion]),
      SeeEnemies(s, enemies, ppos, cfg.losMax),
      [BreachDoor],
      objective)
  }

  /** The enemy filter keeps input order: it distributes over concatenation. */
  lemma {:induction false} SeeEnemiesAppend(s: WorldState, a: seq<Entity>, b: seq<Entity>, ppos: IVec2, losMax: int)
    ensures SeeEnemies(s, a + b, ppos, losMax) == SeeEnemies(s, a, ppos, losMax) + SeeEnemies(s, b, ppos, losMax)
  {
    if a == [] {
      assert a + b == b;
    } else {
      assert (a + b)[0] == a[0] && (a + b)[1..] == a[1..] + b;
      SeeEnemiesAppend(s, a[1..], b, ppos, losMax);
      match SeeEnemy(s, a[0], ppos, losMax)
      case Some(v) =>
        assert SeeEnemies(s, a + b, ppos, losMax) == [v] + SeeEnemies(s, a[1..] + b, ppos, losMax);
      case None =>
    }
  }

  /** Every reported enemy is a requested entity, with its pose and health,
      seen at the world clock, with its cover judged by distance to the
      player. */
  lemma {:induction false} SeenEnemiesFaithful(s: WorldState, es: seq<Entity>, ppos: IVec2, losMax: int, i: nat)
    requires i < |SeeEnemies(s, es, ppos, losMax)|
    ensures var v := SeeEnemies(s, es, ppos, losMax)[i];
      v.id in es && v.id in s.poses && v.id in s.health
      && v.pos == s.poses[v.id] && v.hp == s.health[v.id] && v.lastSeen == s.t
      && (v.cover == "unknown" <==> Manhattan(v.pos, ppos) > losMax)
      && (v.cover == "low" <==> Manhattan(v.pos, ppos) <= losMax)
  {
    var rest := SeeEnemies(s, es[1..], ppos, losMax);
    match SeeEnemy(s, es[0], ppos, losMax)
    case Some(v) =>
      if i > 0 {
        SeenEnemiesFaithful(s, es[1..], ppos, losMax, i - 1);
      }
    case None =>
      SeenEnemiesFaithful(s, es[1..], ppos, losMax, i);
  }

  /** Every requested entity that has a pose and health is reported. */
  lemma {:induction false} SeenEnemiesComplete(s: WorldState, es: seq<Entity>, ppos: IVec2, losMax: int, e: Entity)
    requires e in es && e in s.poses && e in s.health
    ensures exists i :: 0 <= i < |SeeEnemies(s, es, ppos, losMax)| && SeeEnemies(s, es, ppos, losMax)[i].id == e
  {
    var r := SeeEnemies(s, es, ppos, losMax);
    if es[0] == e {
      assert r[0].id == e;
    } else {
      SeenEnemiesComplete(s, es[1..], ppos, losMax, e);
      var rest := SeeEnemies(s, es[1..], ppos, losMax);
      var j :| 0 <= j < |rest| && rest[j].id == e;
      if SeeEnemy(s, es[0], ppos, losMax).Some? {
        assert r[j + 1] == rest[j];
      } else {
        assert r[j] == rest[j];
      }
    }
  }

  /** When every requested entity has a pose and health, none is dropped
      and the snapshot lists them in the requested order. */
  lemma {:induction false} SeeAllEnemies(s: WorldState, es: seq<Entity>, ppos: IVec2, losMax: int)
    requires forall i :: 0 <= i < |es| ==> es[i] in s.poses && es[i] in s.health
    ensures |SeeEnemies(s, es, ppos, losMax)| == |es|
    ensures forall i :: 0 <= i < |es| ==> SeeEnemies(s, es, ppos, losMax)[i].id == es[i]
  {
    if es != [] {
      SeeAllEnemies(s, es[1..], ppos, losMax);
    }
  }

  /** The snapshot's enemies each carry the world clock as `last_seen`, and
      their cover is "unknown" exactly when they are farther from the player
      than `los_max`. */
  lemma SnapshotEnemies(w: World, player: Entity, companion: Entity, enemies: seq<Entity>,
                        objective: Option<string>, cfg: PerceptionConfig, i: nat)
    requires Perceivable(w.State(), player, companion)
    requires i < |BuildSnapshot(w, player, companion, enemies, objective, cfg).enemies|
    ensures var r := BuildSnapshot(w, player, companion, enemies, objective, cfg);
      r.enemies[i].lastSeen == r.t
      && r.enemies[i].id in enemies
      && (r.enemies[i].cover == "unknown" <==> Manhattan(r.enemies[i].pos, r.player.pos) > cfg.losMax)
  {
    SeenEnemiesFaithful(w.State(), enemies, w.poses[player], cfg.losMax, i);
  }
}
