/** Combat statistics: hit points with defence-mitigated damage, and
    timed status effects whose bleeding deals damage over time. */
module CombatStats {
  import opened Base
  import opened GameTypes

  datatype StatusEffect =
    | Stagger(time: real)
    | Bleed(dps: real, time: real)
    | Chill(slow: real, time: real)

  /** The damage a hit of `amount` deals through `defense`: half the defence
      is subtracted, at least 1 is dealt, and the result is truncated. */
  function Mitigate(amount: int, defense: int): int {
    Trunc(MaxReal(amount as real - defense as real * 0.5, 1.0))
  }

  /** An effect with its timer run down by `dt`. */
  function Elapse(e: StatusEffect, dt: real): StatusEffect {
    e.(time := e.time - dt)
  }

  /** The effects still running after `dt`, in their order: each timer runs
      down, and those no longer positive are dropped. */
  function Remaining(es: seq<StatusEffect>, dt: real): seq<StatusEffect>
    decreases |es|
  {
    if es == [] then []
    else
      var rest := Remaining(es[..|es| - 1], dt);
      var e := Elapse(es[|es| - 1], dt);
      if e.time > 0.0 then rest + [e] else rest
  }

  /** The damage over time of one tick: every bleed, expiring or not, deals
      its rate times `dt`, summed in order. */
  function Dot(es: seq<StatusEffect>, dt: real): real
    decreases |es|
  {
    if es == [] then 0.0
    else
      var e := es[|es| - 1];
      Dot(es[..|es| - 1], dt) + (if e.Bleed? then e.dps * dt else 0.0)
  }

  class Stats {
    var hp: int
    var stamina: int
    var power: int
    var defense: int
    var echoAmp: real
    var effects: seq<StatusEffect>

    /** `Stats::new`: the given hit points, stamina 100, power 10,
        defence 5, echo amplification 1 and no effects. */
    constructor (hp: int)
      ensures this.hp == hp && stamina == 100 && power == 10 && defense == 5
      ensures echoAmp == 1.0 && effects == []
    {
      this.hp := hp;
      stamina, power, defense := 100, 10, 5;
      echoAmp := 1.0;
      effects := [];
    }

    /** `apply_damage`: the damage type plays no part. */
    method ApplyDamage(amount: int, dtype: DamageType) returns (dealt: int)
      modifies this
      ensures dealt == Mitigate(amount, defense) && hp == old(hp) - dealt
      ensures defense == old(defense) && effects == old(effects)
      ensures stamina == old(stamina) && power == old(power) && echoAmp == old(echoAmp)
    {
      var raw := amount as real - defense as real * 0.5;
      dealt := Trunc(if raw >= 1.0 then raw else 1.0);
      hp := hp - dealt;
    }

    /** `tick`: runs every effect's timer down, drops the expired, and
        deals the bleeding damage, truncated. */
    method Tick(dt: real) returns (d: int)
      modifies this
      ensures effects == Remaining(old(effects), dt)
      ensures d == Trunc(Dot(old(effects), dt)) && hp == old(hp) - d
      ensures defense == old(defense)
      ensures stamina == old(stamina) && power == old(power) && echoAmp == old(echoAmp)
    {
      var es := effects;
      var kept: seq<StatusEffect> := [];
      var dot := 0.0;
      var i := 0;
      while i < |es|
        invariant i <= |es|
        invariant kept == Remaining(es[..i], dt)
        invariant dot == Dot(es[..i], dt)
      {
        var e := es[i];
        if e.Bleed? {
          dot := dot + e.dps * dt;
        }
        e := e.(time := e.time - dt);
        if e.time > 0.0 {
          kept := kept + [e];
        }
        assert es[..i + 1][..i] == es[..i];
        i := i + 1;
      }
      assert es[..i] == es;
      effects := kept;
      d := Trunc(dot);
      hp := hp - d;
    }
  }

  /** Every hit deals at least 1, and never more than its amount when the
      amount is at least 1 and the defence is not negative. */
  lemma MitigateBounds(amount: int, defense: int)
    ensures Mitigate(amount, defense) >= 1
    ensures amount >= 1 && defense >= 0 ==> Mitigate(amount, defense) <= amount
  {
  }

  /** After a tick every remaining effect still has time left, none is new,
      and the order is kept. */
  lemma {:induction false} RemainingAlive(es: seq<StatusEffect>, dt: real)
    ensures |Remaining(es, dt)| <= |es|
    ensures forall k :: 0 <= k < |Remaining(es, dt)| ==> Remaining(es, dt)[k].time > 0.0
    ensures forall k :: 0 <= k < |Remaining(es, dt)| ==> Elapse(Remaining(es, dt)[k], -dt) in es
    decreases |es|
  {
    if es != [] {
      var init := es[..|es| - 1];
      RemainingAlive(init, dt);
      forall k | 0 <= k < |Remaining(init, dt)|
        ensures Elapse(Remaining(init, dt)[k], -dt) in es
      {
        assert Elapse(Remaining(init, dt)[k], -dt) in init;
      }
      assert Elapse(Elapse(es[|es| - 1], dt), -dt) == es[|es| - 1];
    }
  }

  /** Two ticks of non-negative length leave the same effects as one tick
      of their combined length. */
  lemma {:induction false} RemainingCompose(es: seq<StatusEffect>, a: real, b: real)
    requires b >= 0.0
    ensures Remaining(Remaining(es, a), b) == Remaining(es, a + b)
    decreases |es|
  {
    if es != [] {
      var init := es[..|es| - 1];
      var e := Elapse(es[|es| - 1], a);
      RemainingCompose(init, a, b);
      if e.time > 0.0 {
        var r := Remaining(init, a) + [e];
        assert r[..|r| - 1] == Remaining(init, a);
        assert Elapse(e, b) == Elapse(es[|es| - 1], a + b);
      }
    }
  }

  /** Bleeds at non-negative rates over a non-negative tick never heal. */
  lemma {:induction false} DotNonNegative(es: seq<StatusEffect>, dt: real)
    requires dt >= 0.0
    requires forall k :: 0 <= k < |es| && es[k].Bleed? ==> es[k].dps >= 0.0
    ensures Dot(es, dt) >= 0.0
    decreases |es|
  {
    if es != [] {
      DotNonNegative(es[..|es| - 1], dt);
    }
  }
}
