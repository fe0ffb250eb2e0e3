/** The shared value types of the tactics core: grid points, the world
    snapshot handed to planners, plans and their steps, the tool registry,
    engine errors and director operations. */
module Schema {
  import opened Base

  /** `Entity` is a `u32` id; ids are handed out from 1 upwards. */
  type Entity = nat

  datatype IVec2 = IVec2(x: int, y: int)

  datatype PlayerState = PlayerState(hp: int, pos: IVec2, stance: string, orders: seq<string>)

  /** The companion's cooldowns: ability key to remaining seconds (an ordered
      map in the source; a map here, since only lookups are made). */
  datatype CompanionState = CompanionState(ammo: int, cooldowns: map<string, real>, morale: real, pos: IVec2)

  datatype EnemyState = EnemyState(id: Entity, pos: IVec2, hp: int, cover: string, lastSeen: real)

  datatype Poi = Poi(k: string, pos: IVec2)

  datatype WorldSnapshot = WorldSnapshot(
    t: real,
    player: PlayerState,
    me: CompanionState,
    enemies: seq<EnemyState>,
    pois: seq<Poi>,
    objective: Option<string>)

  /** One step of a plan; a closed sum of exactly four kinds. */
  datatype ActionStep =
    | MoveTo(x: int, y: int)
    | Throw(item: string, x: int, y: int)
    | CoverFire(targetId: Entity, duration: real)
    | Revive(allyId: Entity)

  /** A plan: an id and its steps, in execution order. */
  datatype PlanIntent = PlanIntent(planId: string, steps: seq<ActionStep>)

  datatype ToolSpec = ToolSpec(name: string, args: map<string, string>)

  datatype Constraints = Constraints(enforceCooldowns: bool, enforceLos: bool, enforceStamina: bool)

  datatype ToolRegistry = ToolRegistry(tools: seq<ToolSpec>, constraints: Constraints)

  datatype EngineError =
    | InvalidAction(msg: string)
    | Cooldown(key: string)
    | LosBlocked
    | NoPath

  datatype Rect = Rect(x0: int, y0: int, x1: int, y1: int)

  datatype DirectorOp =
    | Fortify(rect: Rect)
    | SpawnWave(archetype: string, count: nat, origin: IVec2)
    | Collapse(a: IVec2, b: IVec2)

  /** Three independent signed counters; zero and negative values are
      representable and mean "none left". */
  datatype DirectorBudget = DirectorBudget(traps: int, terrainEdits: int, spawns: int)

  datatype DirectorPlan = DirectorPlan(ops: seq<DirectorOp>)
}
