/** Items and the inventory: a list of items and a list of resource
    holdings, at most one entry per kind, updated in place. */
module Items {
  import opened Base
  import opened GameTypes

  datatype ItemKind =
    | Weapon(baseDamage: int, dtype: DamageType)
    | Armor(defense: int)
    | Consumable(heal: int)
    | Material(rtype: ResourceKind)

  datatype EchoMod = EchoMod(name: string, powerMult: real, dtypeOverride: Option<DamageType>, special: Option<string>)

  datatype Item = Item(id: nat, name: string, kind: ItemKind, echo: Option<EchoMod>)

  type Holdings = seq<(ResourceKind, nat)>

  /** The index of the first entry for `kind`. */
  function FindKind(res: Holdings, kind: ResourceKind): (r: Option<nat>)
    ensures r.Some? ==> (r.value < |res| && res[r.value].0 == kind
                         && forall j :: 0 <= j < r.value ==> res[j].0 != kind)
    ensures r.None? ==> forall j :: 0 <= j < |res| ==> res[j].0 != kind
  {
    if res == [] then None
    else if res[0].0 == kind then Some(0)
    else match FindKind(res[1..], kind)
      case None => None
      case Some(i) => Some(i + 1)
  }

  /** How much of `kind` is held: the first entry's count, or 0. */
  function Amount(res: Holdings, kind: ResourceKind): nat {
    match FindKind(res, kind)
    case None => 0
    case Some(i) => res[i].1
  }

  /** At most one entry per kind. */
  predicate UniqueKinds(res: Holdings) {
    forall i, j :: 0 <= i < j < |res| ==> res[i].0 != res[j].0
  }

  /** `add_resource` on the holdings. */
  function AddSpec(res: Holdings, kind: ResourceKind, n: nat): Holdings {
    match FindKind(res, kind)
    case Some(i) => res[i := (kind, res[i].1 + n)]
    case None => res + [(kind, n)]
  }

  /** `remove_resource` on the holdings: the new holdings, or None when the
      first entry for `kind` is missing or holds less than `n`. */
  function RemoveSpec(res: Holdings, kind: ResourceKind, n: nat): Option<Holdings> {
    match FindKind(res, kind)
    case Some(i) => if res[i].1 >= n then Some(res[i := (kind, res[i].1 - n)]) else None
    case None => None
  }

  /** Adding raises the amount of that kind by `n`, leaves every other kind
      alone, and keeps one entry per kind. */
  lemma AddAmounts(res: Holdings, kind: ResourceKind, n: nat, other: ResourceKind)
    requires other != kind
    ensures Amount(AddSpec(res, kind, n), kind) == Amount(res, kind) + n
    ensures Amount(AddSpec(res, kind, n), other) == Amount(res, other)
    ensures UniqueKinds(res) ==> UniqueKinds(AddSpec(res, kind, n))
  {
    var r := AddSpec(res, kind, n);
    match FindKind(res, kind)
    case Some(i) =>
      FindSame(res, r, kind, i);
      FindOther(res, r, other, i);
    case None =>
      FindAppended(res, kind, n);
      FindAppendedOther(res, kind, n, other);
  }

  lemma FindSame(res: Holdings, r: Holdings, kind: ResourceKind, i: nat)
    requires FindKind(res, kind) == Some(i) && |r| == |res| && r[i].0 == kind
    requires forall j :: 0 <= j < |res| && j != i ==> r[j] == res[j]
    ensures FindKind(r, kind) == Some(i)
  {
    FindFirst(r, kind, i);
  }

  lemma FindOther(res: Holdings, r: Holdings, other: ResourceKind, i: nat)
    requires i < |res| == |r| && r[i].0 == res[i].0
    requires forall j :: 0 <= j < |res| && j != i ==> r[j] == res[j]
    ensures FindKind(r, other).Some? == FindKind(res, other).Some?
    ensures FindKind(res, other).Some? ==>
      (FindKind(r, other) == FindKind(res, other)
       && (FindKind(res, other).value != i ==> r[FindKind(res, other).value] == res[FindKind(res, other).value]))
  {
    match FindKind(res, other)
    case Some(k) => FindFirst(r, other, k);
    case None =>
  }

  /** The first index with `kind` is found. */
  lemma {:induction false} FindFirst(res: Holdings, kind: ResourceKind, i: nat)
    requires i < |res| && res[i].0 == kind && forall j :: 0 <= j < i ==> res[j].0 != kind
    ensures FindKind(res, kind) == Some(i)
  {
    if i > 0 {
      FindFirst(res[1..], kind, i - 1);
    }
  }

  lemma FindAppended(res: Holdings, kind: ResourceKind, n: nat)
    requires FindKind(res, kind).None?
    ensures FindKind(res + [(kind, n)], kind) == Some(|res|)
  {
    FindFirst(res + [(kind, n)], kind, |res|);
  }

  lemma FindAppendedOther(res: Holdings, kind: ResourceKind, n: nat, other: ResourceKind)
    requires other != kind
    ensures FindKind(res + [(kind, n)], other) == FindKind(res, other)
  {
    match FindKind(res, other)
    case Some(k) => FindFirst(res + [(kind, n)], other, k);
    case None =>
  }

  /** Removing succeeds exactly when at least `n` is held; it then lowers
      that amount by `n` (to zero at most, the entry staying in place) and
      leaves every other kind alone. */
  lemma RemoveAmounts(res: Holdings, kind: ResourceKind, n: nat, other: ResourceKind)
    requires other != kind
    ensures RemoveSpec(res, kind, n).Some? <==> Amount(res, kind) >= n && FindKind(res, kind).Some?
    ensures RemoveSpec(res, kind, n).Some? ==>
      var r := RemoveSpec(res, kind, n).value;
      |r| == |res| && Amount(r, kind) == Amount(res, kind) - n && Amount(r, other) == Amount(res, other)
  {
    match FindKind(res, kind)
    case Some(i) =>
      if res[i].1 >= n {
        var r := res[i := (kind, res[i].1 - n)];
        FindSame(res, r, kind, i);
        FindOther(res, r, other, i);
      }
    case None =>
  }

  /** The inventory, updated in place. */
  class Inventory {
    var items: seq<Item>
    var resources: Holdings

    constructor ()
      ensures items == [] && resources == []
    {
      items := [];
      resources := [];
    }

    /** Finds the first entry for `kind`. */
    method Find(kind: ResourceKind) returns (r: Option<nat>)
      ensures r == FindKind(resources, kind)
    {
      var i := 0;
      while i < |resources|
        invariant i <= |resources|
        invariant forall j :: 0 <= j < i ==> resources[j].0 != kind
      {
        if resources[i].0 == kind {
          FindFirst(resources, kind, i);
          return Some(i);
        }
        i := i + 1;
      }
      return None;
    }

    /** `add_resource`: adds to the first entry for `kind`, or appends one. */
    method AddResource(kind: ResourceKind, n: nat)
      modifies this
      ensures resources == AddSpec(old(resources), kind, n) && items == old(items)
    {
      var f := Find(kind);
      if f.Some? {
        resources := resources[f.value := (kind, resources[f.value].1 + n)];
      } else {
        resources := resources + [(kind, n)];
      }
    }

    /** `remove_resource`: subtracts `n` from the first entry for `kind`
        when it holds at least `n`; otherwise changes nothing. */
    method RemoveResource(kind: ResourceKind, n: nat) returns (ok: bool)
      modifies this
      ensures ok == RemoveSpec(old(resources), kind, n).Some?
      ensures resources == (if ok then RemoveSpec(old(resources), kind, n).value else old(resources))
      ensures items == old(items)
    {
      var f := Find(kind);
      if f.Some? && resources[f.value].1 >= n {
        resources := resources[f.value := (kind, resources[f.value].1 - n)];
        return true;
      }
      return false;
    }
  }

  /** `infuse`: the item gets the given echo and nothing else changes. */
  function Infuse(item: Item, echo: EchoMod): (r: Item)
    ensures r.echo == Some(echo)
    ensures r.id == item.id && r.name == item.name && r.kind == item.kind
  {
    item.(echo := Some(echo))
  }
}
