/** Melee combos: a chain of attack steps, each taken when its button is
    pressed inside its timing window; a step that lands within reach
    damages and staggers the target. */
module Combat {
  import opened Base
  import opened GameTypes
  import opened Items
  import opened CombatStats

  datatype AttackKind = Light | Heavy

  datatype ComboStep = ComboStep(kind: AttackKind, windowOpen: real, windowClose: real,
                                 damage: int, reach: real, stagger: real)

  datatype ComboChain = ComboChain(name: string, steps: seq<ComboStep>)

  /** The progress through a chain: the next step, the time since the last
      one, and whether the combo is running. */
  datatype Combo = Combo(idx: nat, t: real, active: bool)

  /** A running combo points at a step of its chain. */
  predicate Playable(c: Combo, chain: ComboChain) {
    c.active ==> c.idx < |chain.steps|
  }

  /** Whether the input taking step `s` is pressed. */
  function Wants(s: ComboStep, light: bool, heavy: bool): bool {
    match s.kind
    case Light => light
    case Heavy => heavy
  }

  /** Whether `t` lies in the step's window, both ends included. */
  predicate InWindow(s: ComboStep, t: real) {
    s.windowOpen <= t <= s.windowClose
  }

  /** Whether a tick of a running combo takes its step. */
  predicate Takes(c: Combo, chain: ComboChain, dt: real, light: bool, heavy: bool)
    requires c.active && c.idx < |chain.steps|
  {
    var s := chain.steps[c.idx];
    Wants(s, light, heavy) && InWindow(s, c.t + dt)
  }

  /** The combo after one tick: a stopped combo stays as it is; a running
      one advances its clock, and takes its step when the step's input is
      pressed within its window, whether it lands or not; taking the last
      step ends the combo. */
  function Next(c: Combo, chain: ComboChain, dt: real, light: bool, heavy: bool): (r: Combo)
    requires Playable(c, chain)
    ensures Playable(r, chain)
    ensures c.active ==> r.idx <= |chain.steps|
  {
    if !c.active then c
    else if Takes(c, chain, dt, light, heavy) then Combo(c.idx + 1, 0.0, c.idx + 1 < |chain.steps|)
    else Combo(c.idx, c.t + dt, true)
  }

  /** The damage a landing step asks for, and its damage type: the step's
      damage plus the attacker's power; a weapon adds its base damage, is
      scaled by its echo's multiplier and takes its echo's type override; a
      non-weapon item or no item deals physical damage. */
  function Damage(s: ComboStep, power: int, weapon: Option<Item>): (DamageType, int) {
    var base := s.damage + power;
    if weapon.Some? && weapon.value.kind.Weapon? then
      var w := weapon.value;
      var mult := if w.echo.Some? then w.echo.value.powerMult else 1.0;
      var dtype := if w.echo.Some? && w.echo.value.dtypeOverride.Some? then w.echo.value.dtypeOverride.value
                   else w.kind.dtype;
      (dtype, Trunc((base + w.kind.baseDamage) as real * mult))
    else (Physical, base)
  }

  class AttackState {
    var chain: ComboChain
    var idx: nat
    var tSinceLast: real
    var active: bool

    function State(): Combo
      reads this
    {
      Combo(idx, tSinceLast, active)
    }

    /** `AttackState::new`: stopped, at the first step. */
    constructor (chain: ComboChain)
      ensures this.chain == chain && State() == Combo(0, 0.0, false)
    {
      this.chain := chain;
      idx, tSinceLast, active := 0, 0.0, false;
    }

    /** `start`: running from the first step with a fresh clock. */
    method Start()
      modifies this
      ensures chain == old(chain) && State() == Combo(0, 0.0, true)
    {
      active, idx, tSinceLast := true, 0, 0.0;
    }

    /** `tick`, with the attacker-to-target distance given: a step taken
        within its reach applies its damage to the target through the
        target's mitigation and staggers it; the reported damage is the one
        asked for, before mitigation. */
    method Tick(dt: real, light: bool, heavy: bool, distance: real, attacker: Stats,
                weapon: Option<Item>, target: Stats) returns (hit: bool, dmg: int)
      requires Playable(State(), chain)
      modifies this, target
      ensures chain == old(chain) && State() == Next(old(State()), chain, dt, light, heavy)
      ensures var taken := old(active) && Takes(old(State()), chain, dt, light, heavy);
        hit == (taken && distance <= chain.steps[old(idx)].reach)
      ensures !hit ==> dmg == 0 && target.hp == old(target.hp) && target.effects == old(target.effects)
      ensures hit ==>
        var s := chain.steps[old(idx)];
        dmg == Damage(s, old(attacker.power), weapon).1
        && target.hp == old(target.hp) - Mitigate(dmg, old(target.defense))
        && target.effects == old(target.effects) + [Stagger(s.stagger)]
      ensures target.defense == old(target.defense)
      ensures target.stamina == old(target.stamina) && target.power == old(target.power)
      ensures target.echoAmp == old(target.echoAmp)
    {
      hit, dmg := false, 0;
      if !active {
        return;
      }
      tSinceLast := tSinceLast + dt;
      var s := chain.steps[idx];
      var want := match s.kind case Light => light case Heavy => heavy;
      var inWin := tSinceLast >= s.windowOpen && tSinceLast <= s.windowClose;
      if want && inWin {
        if distance <= s.reach {
          var (dtype, out) := Damage(s, attacker.power, weapon);
          var _ := target.ApplyDamage(out, dtype);
          dmg := out;
          target.effects := target.effects + [Stagger(s.stagger)];
          hit := true;
        }
        idx := idx + 1;
        tSinceLast := 0.0;
        if idx >= |chain.steps| {
          active := false;
        }
      }
    }
  }

  /** The combo after a sequence of ticks with the given inputs. */
  function Run(c: Combo, chain: ComboChain, ticks: seq<(real, bool, bool)>): (r: Combo)
    requires Playable(c, chain)
    ensures Playable(r, chain)
    decreases |ticks|
  {
    if ticks == [] then c
    else Run(Next(c, chain, ticks[0].0, ticks[0].1, ticks[0].2), chain, ticks[1..])
  }

  /** A combo never goes back a step, never passes the end of its chain,
      and once stopped stays stopped. */
  lemma {:induction false} RunForward(c: Combo, chain: ComboChain, ticks: seq<(real, bool, bool)>)
    requires Playable(c, chain) && c.idx <= |chain.steps|
    ensures c.idx <= Run(c, chain, ticks).idx <= |chain.steps|
    ensures !c.active ==> Run(c, chain, ticks) == c
    ensures Run(c, chain, ticks).active ==> c.active
    decreases |ticks|
  {
    if ticks != [] {
      RunForward(Next(c, chain, ticks[0].0, ticks[0].1, ticks[0].2), chain, ticks[1..]);
    }
  }

  /** A started combo stops exactly when its last step is taken: pressing
      every step's button right on time walks through the whole chain. */
  lemma {:induction false} OnTimeFinishes(c: Combo, chain: ComboChain, ticks: seq<(real, bool, bool)>)
    requires c.active && c.t == 0.0 && |ticks| > 0 && c.idx + |ticks| == |chain.steps|
    requires forall k :: 0 <= k < |ticks| ==>
      InWindow(chain.steps[c.idx + k], ticks[k].0)
      && Wants(chain.steps[c.idx + k], ticks[k].1, ticks[k].2)
    ensures Run(c, chain, ticks) == Combo(|chain.steps|, 0.0, false)
    decreases |ticks|
  {
    var c1 := Next(c, chain, ticks[0].0, ticks[0].1, ticks[0].2);
    assert Takes(c, chain, ticks[0].0, ticks[0].1, ticks[0].2);
    if |ticks| > 1 {
      forall k | 0 <= k < |ticks[1..]|
        ensures InWindow(chain.steps[c1.idx + k], ticks[1..][k].0)
             && Wants(chain.steps[c1.idx + k], ticks[1..][k].1, ticks[1..][k].2)
      {
        assert ticks[1..][k] == ticks[k + 1];
      }
      OnTimeFinishes(c1, chain, ticks[1..]);
    } else {
      assert ticks[1..] == [];
    }
  }

  /** Unarmed, the reported damage is the step's damage plus power, while
      the target loses only the mitigated amount, at least 1. */
  lemma UnarmedDamage(s: ComboStep, power: int, defense: int)
    requires defense >= 0 && s.damage + power >= 1
    ensures Damage(s, power, None) == (Physical, s.damage + power)
    ensures 1 <= Mitigate(s.damage + power, defense) <= s.damage + power
  {
    MitigateBounds(s.damage + power, defense);
  }

  /** A weapon without an echo adds its base damage at its own type. */
  lemma PlainWeaponDamage(s: ComboStep, power: int, w: Item)
    requires w.kind.Weapon? && w.echo.None?
    ensures Damage(s, power, Some(w)) == (w.kind.dtype, s.damage + power + w.kind.baseDamage)
  {
    var total := s.damage + power + w.kind.baseDamage;
    assert (total as real) * 1.0 == total as real;
    assert Trunc(total as real) == total;
  }
}
