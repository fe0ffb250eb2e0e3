/** Crafting: a recipe's costs are checked against the inventory, then paid
    one by one, and the recipe's item is made. */
module Crafting {
  import opened Base
  import opened GameTypes
  import opened Items

  datatype CraftCost = CraftCost(kind: ResourceKind, count: nat)

  datatype CraftRecipe = CraftRecipe(name: string, outputItem: ItemKind, costs: seq<CraftCost>)

  datatype RecipeBook = RecipeBook(recipes: seq<CraftRecipe>)

  /** The first recipe with the given name. */
  function FindRecipe(recipes: seq<CraftRecipe>, name: string): (r: Option<nat>)
    ensures r.Some? ==> (r.value < |recipes| && recipes[r.value].name == name
                         && forall j :: 0 <= j < r.value ==> recipes[j].name != name)
    ensures r.None? ==> forall j :: 0 <= j < |recipes| ==> recipes[j].name != name
  {
    if recipes == [] then None
    else if recipes[0].name == name then Some(0)
    else match FindRecipe(recipes[1..], name)
      case None => None
      case Some(i) => Some(i + 1)
  }

  /** The check pass: every single cost is covered by what is held. */
  predicate Covered(res: Holdings, costs: seq<CraftCost>) {
    forall i :: 0 <= i < |costs| ==> Amount(res, costs[i].kind) >= costs[i].count
  }

  /** The payment pass: removes each cost in order and stops at the first
      removal that fails, keeping the removals already made. */
  function Pay(res: Holdings, costs: seq<CraftCost>): (Holdings, bool)
    decreases |costs|
  {
    if costs == [] then (res, true)
    else match RemoveSpec(res, costs[0].kind, costs[0].count)
      case None => (res, false)
      case Some(res1) => Pay(res1, costs[1..])
  }

  predicate DistinctKinds(costs: seq<CraftCost>) {
    forall i, j :: 0 <= i < j < |costs| ==> costs[i].kind != costs[j].kind
  }

  /** Every costed kind has an entry in the holdings. */
  predicate Held(res: Holdings, costs: seq<CraftCost>) {
    forall i :: 0 <= i < |costs| ==> FindKind(res, costs[i].kind).Some?
  }

  /** With distinct kinds, all held and covered, payment succeeds, lowers
      each costed kind by exactly its cost and leaves other kinds alone. */
  lemma {:induction false} PayDistinct(res: Holdings, costs: seq<CraftCost>, k: ResourceKind)
    requires DistinctKinds(costs) && Held(res, costs) && Covered(res, costs)
    ensures Pay(res, costs).1
    ensures forall i :: 0 <= i < |costs| && costs[i].kind == k ==>
      Amount(Pay(res, costs).0, k) == Amount(res, k) - costs[i].count
    ensures (forall i :: 0 <= i < |costs| ==> costs[i].kind != k) ==> Amount(Pay(res, costs).0, k) == Amount(res, k)
    decreases |costs|
  {
    if costs != [] {
      var c := costs[0];
      var at := FindKind(res, c.kind).value;
      RemoveAmounts(res, c.kind, c.count, if c.kind == Wood then Crystal else Wood);
      var res1 := RemoveSpec(res, c.kind, c.count).value;
      assert res1 == res[at := (c.kind, res[at].1 - c.count)];
      var tail := costs[1..];
      forall i | 0 <= i < |tail|
        ensures FindKind(res1, tail[i].kind).Some? && Amount(res1, tail[i].kind) >= tail[i].count
      {
        assert tail[i] == costs[i + 1];
        RemoveAmounts(res, c.kind, c.count, costs[i + 1].kind);
        FindOther(res, res1, costs[i + 1].kind, at);
      }
      PayDistinct(res1, tail, k);
      assert Pay(res, costs) == Pay(res1, tail);
      if k != c.kind {
        RemoveAmounts(res, c.kind, c.count, k);
        forall i | 0 <= i < |costs| && costs[i].kind == k
          ensures Amount(Pay(res, costs).0, k) == Amount(res, k) - costs[i].count
        {
          assert tail[i - 1] == costs[i];
        }
      } else {
        forall j | 0 <= j < |tail|
          ensures tail[j].kind != k
        {
          assert tail[j] == costs[j + 1];
        }
      }
    }
  }

  /** A kind named twice can pass the check and fail midway through
      payment: 3 wood covers each of two costs of 2 wood, the first removal
      leaves 1, the second fails, and the 2 already removed stay removed. */
  lemma RepeatedKindPartialPayment()
    ensures Covered([(Wood, 3)], [CraftCost(Wood, 2), CraftCost(Wood, 2)])
    ensures Pay([(Wood, 3)], [CraftCost(Wood, 2), CraftCost(Wood, 2)]) == ([(Wood, 1)], false)
  {
    assert FindKind([(Wood, 3)], Wood) == Some(0);
    assert FindKind([(Wood, 1)], Wood) == Some(0);
    assert [(Wood, 3)][0 := (Wood, 1)] == [(Wood, 1)];
  }

  /** A cost of zero for a kind with no entry passes the check, but its
      removal finds no entry and fails. */
  lemma ZeroCostOfMissingKind()
    ensures Covered([], [CraftCost(Ore, 0)])
    ensures Pay([], [CraftCost(Ore, 0)]) == ([], false)
  {
  }

  /** `craft`: the first recipe of that name; None if there is none or any
      single cost is not covered (nothing changes then); otherwise each cost
      is paid in order, and a failing payment returns None keeping the
      payments made. The new item has the recipe's name and output kind, no
      echo, and the id the caller draws. */
  method Craft(book: RecipeBook, name: string, inv: Inventory, newId: nat) returns (r: Option<Item>)
    modifies inv
    ensures inv.items == old(inv.items)
    ensures FindRecipe(book.recipes, name).None? ==> r.None? && inv.resources == old(inv.resources)
    ensures FindRecipe(book.recipes, name).Some? ==>
      var recipe := book.recipes[FindRecipe(book.recipes, name).value];
      if !Covered(old(inv.resources), recipe.costs) then r.None? && inv.resources == old(inv.resources)
      else
        var paid := Pay(old(inv.resources), recipe.costs);
        inv.resources == paid.0
        && (r.Some? <==> paid.1)
        && (r.Some? ==> r.value == Item(newId, recipe.name, recipe.outputItem, None))
  {
    var found := FindRecipe(book.recipes, name);
    if found.None? {
      return None;
    }
    var recipe := book.recipes[found.value];
    var costs := recipe.costs;
    var i := 0;
    while i < |costs|
      invariant i <= |costs|
      invariant inv.resources == old(inv.resources) && inv.items == old(inv.items)
      invariant forall j :: 0 <= j < i ==> Amount(inv.resources, costs[j].kind) >= costs[j].count
    {
      var at := inv.Find(costs[i].kind);
      var have := if at.Some? then inv.resources[at.value].1 else 0;
      if have < costs[i].count {
        assert !Covered(old(inv.resources), recipe.costs) by {
          assert Amount(inv.resources, costs[i].kind) < costs[i].count;
        }
        return None;
      }
      i := i + 1;
    }
    i := 0;
    while i < |costs|
      invariant i <= |costs|
      invariant inv.items == old(inv.items)
      invariant Pay(old(inv.resources), costs) == Pay(inv.resources, costs[i..])
    {
      var ok := inv.RemoveResource(costs[i].kind, costs[i].count);
      if !ok {
        return None;
      }
      assert costs[i..][1..] == costs[i + 1..];
      i := i + 1;
    }
    return Some(Item(newId, recipe.name, recipe.outputItem, None));
  }
}
