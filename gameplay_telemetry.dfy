/** Weaving telemetry: counters of applied weave operations and their
    terrain and weather costs. */
module Telemetry {
  /** One recorded weave operation and its cost. */
  datatype WeaveOp = TerrainOp(cost: int) | WeatherOp(cost: int)

  /** The counters: operations applied, terrain cost, weather cost. */
  datatype Tally = Tally(ops: nat, terrain: int, weather: int)

  /** The counters after recording one operation. */
  function Record(t: Tally, op: WeaveOp): Tally {
    match op
    case TerrainOp(c) => Tally(t.ops + 1, t.terrain + c, t.weather)
    case WeatherOp(c) => Tally(t.ops + 1, t.terrain, t.weather + c)
  }

  /** The counters after recording operations in order. */
  function Replay(t: Tally, ops: seq<WeaveOp>): Tally
    decreases |ops|
  {
    if ops == [] then t else Record(Replay(t, ops[..|ops| - 1]), ops[|ops| - 1])
  }

  function TerrainTotal(ops: seq<WeaveOp>): int
    decreases |ops|
  {
    if ops == [] then 0
    else TerrainTotal(ops[..|ops| - 1]) + (if ops[|ops| - 1].TerrainOp? then ops[|ops| - 1].cost else 0)
  }

  function WeatherTotal(ops: seq<WeaveOp>): int
    decreases |ops|
  {
    if ops == [] then 0
    else WeatherTotal(ops[..|ops| - 1]) + (if ops[|ops| - 1].WeatherOp? then ops[|ops| - 1].cost else 0)
  }

  class WeaveTelemetry {
    var opsApplied: nat
    var terrainCost: int
    var weatherCost: int
    var estTimeSavedSec: real
    var riskScore: real
    var rewardScore: real

    function Counters(): Tally
      reads this
    {
      Tally(opsApplied, terrainCost, weatherCost)
    }

    /** `WeaveTelemetry::default`: every counter and score at zero. */
    constructor ()
      ensures Counters() == Tally(0, 0, 0)
      ensures estTimeSavedSec == 0.0 && riskScore == 0.0 && rewardScore == 0.0
    {
      opsApplied, terrainCost, weatherCost := 0, 0, 0;
      estTimeSavedSec, riskScore, rewardScore := 0.0, 0.0, 0.0;
    }

    /** `add_terrain`. */
    method AddTerrain(cost: int)
      modifies this
      ensures Counters() == Record(old(Counters()), TerrainOp(cost))
      ensures estTimeSavedSec == old(estTimeSavedSec) && riskScore == old(riskScore) && rewardScore == old(rewardScore)
    {
      opsApplied := opsApplied + 1;
      terrainCost := terrainCost + cost;
    }

    /** `add_weather`. */
    method AddWeather(cost: int)
      modifies this
      ensures Counters() == Record(old(Counters()), WeatherOp(cost))
      ensures estTimeSavedSec == old(estTimeSavedSec) && riskScore == old(riskScore) && rewardScore == old(rewardScore)
    {
      opsApplied := opsApplied + 1;
      weatherCost := weatherCost + cost;
    }
  }

  /** From zero, the operation count is the number of recorded operations
      and each cost is the sum of the costs of its own kind. */
  lemma {:induction false} ReplayTotals(ops: seq<WeaveOp>)
    ensures Replay(Tally(0, 0, 0), ops) == Tally(|ops|, TerrainTotal(ops), WeatherTotal(ops))
    decreases |ops|
  {
    if ops != [] {
      ReplayTotals(ops[..|ops| - 1]);
    }
  }

  /** Recording is additive: replaying two batches one after the other is
      replaying them together. */
  lemma {:induction false} ReplayConcat(t: Tally, a: seq<WeaveOp>, b: seq<WeaveOp>)
    ensures Replay(Replay(t, a), b) == Replay(t, a + b)
    decreases |b|
  {
    if b == [] {
      assert a + b == a;
    } else {
      ReplayConcat(t, a, b[..|b| - 1]);
      assert (a + b)[..|a + b| - 1] == a + b[..|b| - 1];
    }
  }
}
