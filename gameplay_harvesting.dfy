/** Resource nodes: harvesting moves resources into an inventory; an
    exhausted node counts down and then respawns. */
module Harvesting {
  import opened Base
  import opened GameTypes
  import opened Items

  /** The respawned amount for a random byte `roll`: 1 to 5. */
  function RespawnAmount(roll: nat): (a: nat)
    ensures 1 <= a <= 5
  {
    1 + (3 * roll) % 5
  }

  class ResourceNode {
    var kind: ResourceKind
    var pos: Vec3
    var amount: nat
    var respawnTime: real
    var timer: real

    constructor (kind: ResourceKind, pos: Vec3, amount: nat, respawnTime: real)
      ensures this.kind == kind && this.pos == pos && this.amount == amount
      ensures this.respawnTime == respawnTime && timer == 0.0
    {
      this.kind, this.pos, this.amount := kind, pos, amount;
      this.respawnTime, timer := respawnTime, 0.0;
    }

    /** `harvest`: takes as much as asked for, up to what is left, into the
        inventory; an emptied node starts its respawn timer. */
    method Harvest(inv: Inventory, n: nat) returns (take: nat)
      modifies this, inv
      ensures take == Min(n, old(amount)) && amount == old(amount) - take
      ensures inv.resources == AddSpec(old(inv.resources), kind, take) && inv.items == old(inv.items)
      ensures timer == (if amount == 0 then respawnTime else old(timer))
      ensures kind == old(kind) && pos == old(pos) && respawnTime == old(respawnTime)
    {
      take := if n <= amount then n else amount;
      amount := amount - take;
      inv.AddResource(kind, take);
      if amount == 0 {
        timer := respawnTime;
      }
    }

    /** `tick`: nothing happens while resources remain; an empty node's timer
        runs down and, once it reaches 0, the node respawns with an amount
        drawn from the random byte `roll`. */
    method Tick(dt: real, roll: nat)
      requires roll < 256
      modifies this
      ensures old(amount) > 0 ==> amount == old(amount) && timer == old(timer)
      ensures old(amount) == 0 && old(timer) - dt > 0.0 ==> amount == 0 && timer == old(timer) - dt
      ensures old(amount) == 0 && old(timer) - dt <= 0.0 ==> amount == RespawnAmount(roll) && timer == 0.0
      ensures kind == old(kind) && pos == old(pos) && respawnTime == old(respawnTime)
    {
      if amount == 0 {
        timer := timer - dt;
        if timer <= 0.0 {
          amount := RespawnAmount(roll);
          timer := 0.0;
        }
      }
    }
  }

  /** A harvest never takes more than was asked or was left, and the taken
      amount is exactly what the node loses and the inventory gains. */
  lemma HarvestConserves(res: Holdings, kind: ResourceKind, amount: nat, n: nat)
    ensures Min(n, amount) <= n && Min(n, amount) <= amount
    ensures Amount(AddSpec(res, kind, Min(n, amount)), kind) + (amount - Min(n, amount)) == Amount(res, kind) + amount
  {
    AddAmounts(res, kind, Min(n, amount), if kind == Wood then Ore else Wood);
  }
}
