/** The world store: per-entity component maps, the blocked-cell set, the id
    counter and the clock. `World` is updated in place; `State()` projects it
    to a `WorldState` value, on which the rest of the core is specified. */
module WorldStore {
  import opened Base
  import opened Schema

  /** `Team.id` is a `u8`: 0 player, 1 companion, 2 enemy. */
  type TeamId = x: int | 0 <= x < 256

  type Cooldowns = map<string, real>

  datatype WorldState = WorldState(
    t: real,
    nextId: Entity,
    obstacles: set<(int, int)>,
    poses: map<Entity, IVec2>,
    health: map<Entity, int>,
    team: map<Entity, TeamId>,
    ammo: map<Entity, int>,
    cds: map<Entity, Cooldowns>,
    names: map<Entity, string>)

  /** Every id in use is below the counter, so the counter is a fresh id. */
  predicate IdsBelow(s: WorldState) {
    s.nextId >= 1
    && (forall e :: e in s.poses ==> e < s.nextId)
    && (forall e :: e in s.health ==> e < s.nextId)
    && (forall e :: e in s.team ==> e < s.nextId)
    && (forall e :: e in s.ammo ==> e < s.nextId)
    && (forall e :: e in s.cds ==> e < s.nextId)
    && (forall e :: e in s.names ==> e < s.nextId)
  }

  /** One cooldown table after `dt` seconds: each value decays, floored at 0. */
  function Decay(m: Cooldowns, dt: real): (r: Cooldowns)
    ensures r.Keys == m.Keys
    ensures forall k :: k in r ==> r[k] >= 0.0 && r[k] >= m[k] - dt
    ensures forall k :: k in r ==> (r[k] == 0.0 || r[k] == m[k] - dt)
  {
    map k | k in m :: MaxReal(m[k] - dt, 0.0)
  }

  function DecayAll(cds: map<Entity, Cooldowns>, dt: real): map<Entity, Cooldowns>
  {
    map e | e in cds :: Decay(cds[e], dt)
  }

  /** `tick(dt)` as a function of the state: the clock advances by `dt`, every
      cooldown decays, and nothing else changes. */
  function TickState(s: WorldState, dt: real): (r: WorldState)
    ensures r.t == s.t + dt
    ensures r.cds.Keys == s.cds.Keys
    ensures forall e, k :: e in r.cds && k in r.cds[e] ==> r.cds[e][k] >= 0.0
    ensures r == s.(t := r.t, cds := r.cds)
  {
    s.(t := s.t + dt, cds := DecayAll(s.cds, dt))
  }

  /** Two decays in a row are one decay by the summed time, for non-negative
      steps. */
  lemma DecayCompose(m: Cooldowns, a: real, b: real)
    requires a >= 0.0 && b >= 0.0
    ensures Decay(Decay(m, a), b) == Decay(m, a + b)
  {
    var l, r := Decay(Decay(m, a), b), Decay(m, a + b);
    forall k | k in m ensures l[k] == r[k] {
    }
  }

  lemma DecayAllCompose(cds: map<Entity, Cooldowns>, a: real, b: real)
    requires a >= 0.0 && b >= 0.0
    ensures DecayAll(DecayAll(cds, a), b) == DecayAll(cds, a + b)
  {
    forall e | e in cds ensures DecayAll(DecayAll(cds, a), b)[e] == DecayAll(cds, a + b)[e] {
      DecayCompose(cds[e], a, b);
    }
  }

  /** `n` ticks of the same `dt`. */
  function TickN(s: WorldState, dt: real, n: nat): WorldState
  {
    if n == 0 then s else TickState(TickN(s, dt, n - 1), dt)
  }

  /** After `n` ticks the clock moved by `n * dt` and every component except
      the cooldowns is as before. */
  lemma {:induction false} TickNClock(s: WorldState, dt: real, n: nat)
    ensures TickN(s, dt, n).t == s.t + (n as real) * dt
    ensures TickN(s, dt, n) == s.(t := TickN(s, dt, n).t, cds := TickN(s, dt, n).cds)
  {
    if n > 0 {
      TickNClock(s, dt, n - 1);
      assert (n as real) * dt == ((n - 1) as real) * dt + dt;
    }
  }

  /** For `dt >= 0`, `n >= 1` ticks leave the cooldowns as one decay by
      `n * dt`. */
  lemma TickNCooldowns(s: WorldState, dt: real, n: nat)
    requires dt >= 0.0 && n >= 1
    ensures TickN(s, dt, n).cds == DecayAll(s.cds, (n as real) * dt)
  {
    TickNDecay(s, dt, n);
    ElapsedIsProduct(dt, n);
  }

  function Elapsed(dt: real, n: nat): real {
    if n == 0 then 0.0 else Elapsed(dt, n - 1) + dt
  }

  lemma {:induction false} ElapsedIsProduct(dt: real, n: nat)
    ensures Elapsed(dt, n) == (n as real) * dt
  {
    if n > 0 {
      ElapsedIsProduct(dt, n - 1);
    }
  }

  lemma {:induction false} TickNDecay(s: WorldState, dt: real, n: nat)
    requires dt >= 0.0 && n >= 1
    ensures Elapsed(dt, n) >= dt
    ensures TickN(s, dt, n).cds == DecayAll(s.cds, Elapsed(dt, n))
  {
    if n == 1 {
      assert Elapsed(dt, 1) == dt;
      assert TickN(s, dt, 1) == TickState(s, dt);
    } else {
      TickNDecay(s, dt, n - 1);
      DecayAllCompose(s.cds, Elapsed(dt, n - 1), dt);
    }
  }

  /** The world store, updated in place. */
  class World {
    var t: real
    var nextId: Entity
    var obstacles: set<(int, int)>
    var poses: map<Entity, IVec2>
    var health: map<Entity, int>
    var team: map<Entity, TeamId>
    var ammo: map<Entity, int>
    var cds: map<Entity, Cooldowns>
    var names: map<Entity, string>

    function State(): WorldState
      reads this
    {
      WorldState(t, nextId, obstacles, poses, health, team, ammo, cds, names)
    }

    ghost predicate Valid()
      reads this
    {
      IdsBelow(State())
    }

    /** `World::new`: clock 0, first id 1, everything else empty. */
    constructor ()
      ensures Valid()
      ensures State() == WorldState(0.0, 1, {}, map[], map[], map[], map[], map[], map[])
    {
      t, nextId, obstacles := 0.0, 1, {};
      poses, health, team, ammo, cds, names := map[], map[], map[], map[], map[], map[];
    }

    /** Allocates the next id and gives it every component, with an empty
        cooldown table. The id was not in use, so ids are never reused. */
    method Spawn(name: string, pos: IVec2, tm: TeamId, hp: int, rounds: int) returns (id: Entity)
      requires Valid()
      modifies this
      ensures Valid()
      ensures id == old(nextId) && nextId == id + 1
      ensures id !in old(poses) && id !in old(team) && id !in old(names)
      ensures State() == old(State()).(
        nextId := id + 1,
        poses := old(poses)[id := pos],
        health := old(health)[id := hp],
        team := old(team)[id := tm],
        ammo := old(ammo)[id := rounds],
        cds := old(cds)[id := map[]],
        names := old(names)[id := name])
    {
      id := nextId;
      nextId := nextId + 1;
      poses := poses[id := pos];
      health := health[id := hp];
      team := team[id := tm];
      ammo := ammo[id := rounds];
      cds := cds[id := map[]];
      names := names[id := name];
    }

    /** `tick(dt)`: walks every entity's cooldown table and decays it. */
    method Tick(dt: real)
      modifies this
      ensures State() == TickState(old(State()), dt)
      ensures old(Valid()) ==> Valid()
    {
      t := t + dt;
      cds := DecayTables(cds, dt);
    }

    function Pose(e: Entity): (r: Option<IVec2>)
      reads this
      ensures r.Some? <==> e in poses
      ensures r.Some? ==> r.value == poses[e]
    {
      if e in poses then Some(poses[e]) else None
    }

    function Health(e: Entity): (r: Option<int>)
      reads this
      ensures r.Some? <==> e in health
      ensures r.Some? ==> r.value == health[e]
    {
      if e in health then Some(health[e]) else None
    }

    function Team(e: Entity): (r: Option<TeamId>)
      reads this
      ensures r.Some? <==> e in team
      ensures r.Some? ==> r.value == team[e]
    {
      if e in team then Some(team[e]) else None
    }

    /** Read accessor for ammunition (the source reads it through the
        mutable accessor). */
    function Ammo(e: Entity): (r: Option<int>)
      reads this
      ensures r.Some? <==> e in ammo
      ensures r.Some? ==> r.value == ammo[e]
    {
      if e in ammo then Some(ammo[e]) else None
    }

    /** Read accessor for a cooldown table. */
    function Cooldowns(e: Entity): (r: Option<Cooldowns>)
      reads this
      ensures r.Some? <==> e in cds
      ensures r.Some? ==> r.value == cds[e]
    {
      if e in cds then Some(cds[e]) else None
    }

    function Name(e: Entity): (r: Option<string>)
      reads this
      ensures r.Some? <==> e in names
      ensures r.Some? ==> r.value == names[e]
    {
      if e in names then Some(names[e]) else None
    }

    /** `pos_of`: the same lookup as `pose`. */
    function PosOf(e: Entity): (r: Option<IVec2>)
      reads this
      ensures r == Pose(e)
    {
      if e in poses then Some(poses[e]) else None
    }

    predicate Obstacle(p: IVec2)
      reads this
    {
      (p.x, p.y) in obstacles
    }

    /** The entities whose team id is `k` (in no particular order). */
    function AllOfTeam(k: TeamId): (r: set<Entity>)
      reads this
      ensures forall e :: e in r <==> e in team && team[e] == k
    {
      set e | e in team && team[e] == k
    }

    /** The entities that have a team other than `k`. */
    function EnemiesOf(k: TeamId): (r: set<Entity>)
      reads this
      ensures forall e :: e in r <==> e in team && team[e] != k
    {
      set e | e in team && team[e] != k
    }
  }

  /** Decays every entity's cooldown table, one entity at a time. */
  method DecayTables(cds: map<Entity, Cooldowns>, dt: real) returns (out: map<Entity, Cooldowns>)
    ensures out == DecayAll(cds, dt)
  {
    var todo := cds.Keys;
    out := map[];
    while todo != {}
      invariant todo <= cds.Keys
      invariant out.Keys == cds.Keys - todo
      invariant forall e :: e in out ==> out[e] == Decay(cds[e], dt)
      decreases |todo|
    {
      var e :| e in todo;
      var m := DecayTable(cds[e], dt);
      out := out[e := m];
      todo := todo - {e};
    }
    forall e | e in cds ensures out[e] == DecayAll(cds, dt)[e] {
    }
  }

  /** Decays one cooldown table entry by entry. */
  method DecayTable(m: Cooldowns, dt: real) returns (r: Cooldowns)
    ensures r == Decay(m, dt)
  {
    r := map[];
    var todo := m.Keys;
    while todo != {}
      invariant todo <= m.Keys
      invariant r.Keys == m.Keys - todo
      invariant forall k :: k in r ==> r[k] == MaxReal(m[k] - dt, 0.0)
      decreases |todo|
    {
      var k :| k in todo;
      r := r[k := MaxReal(m[k] - dt, 0.0)];
      todo := todo - {k};
    }
  }

  /** `all_of_team(k)` and `enemies_of(k)` split the entities that have a team. */
  lemma TeamsPartition(w: World, k: TeamId)
    ensures w.AllOfTeam(k) + w.EnemiesOf(k) == w.team.Keys
    ensures w.AllOfTeam(k) * w.EnemiesOf(k) == {}
  {
  }
}
