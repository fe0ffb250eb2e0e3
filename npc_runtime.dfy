/** The NPC manager: NPCs under fresh ids, each with a queue of pending
    actions that runs one action per update, and a talk cooldown that
    throttles conversation. */
module NpcRuntime {
  import opened Base
  import opened GameTypes
  import opened NpcPlanner

  type NpcId = nat

  datatype NpcMode = Idle | Patrolling | Working | Conversing | Flee | Combat

  /** The parts of a profile the manager reads: the role and the display
      name, besides the id and home. */
  datatype NpcProfile = NpcProfile(id: string, role: Role, displayName: string, home: Vec3)

  datatype Npc = Npc(id: NpcId, profile: NpcProfile, body: nat, mode: NpcMode,
                     pending: seq<NpcAction>, cooldownTalk: real)

  /** The commands an executed action sends to the engine; an emote only
      logs, so it sends none. */
  datatype Command =
    | SayCmd(speaker: string, text: string)
    | MoveCmd(body: nat, dir: Vec3, speed: real)
    | OpenShopCmd(npc: NpcId)
    | GiveQuestCmd(npc: NpcId, quest: string)
    | CallGuardsCmd(pos: Vec3, reason: string)

  /** `execute_action`: a move heads for the target's x and z from the
      origin, and guards are called to the origin. */
  function Execute(n: Npc, act: NpcAction): (c: Option<Command>)
    ensures c.None? <==> act.Emote?
  {
    match act
    case Say(text) => Some(SayCmd(n.profile.displayName, text))
    case MoveTo(pos, speed) => Some(MoveCmd(n.body, Vec3(pos.x, 0.0, pos.z), speed))
    case Emote(_) => None
    case OpenShop => Some(OpenShopCmd(n.id))
    case GiveQuest(id) => Some(GiveQuestCmd(n.id, id))
    case CallGuards(reason) => Some(CallGuardsCmd(Vec3(0.0, 0.0, 0.0), reason))
  }

  /** One NPC after an update: the cooldown runs down to no less than 0,
      and the first pending action, if any, is taken off the queue. */
  function UpdateNpc(n: Npc, dt: real): (r: Npc)
    ensures r.cooldownTalk >= 0.0 && r.id == n.id && r.profile == n.profile && r.mode == n.mode
  {
    n.(cooldownTalk := MaxReal(n.cooldownTalk - dt, 0.0),
       pending := if n.pending == [] then [] else n.pending[1..])
  }

  /** A guard with nothing queued steps aside when the player is within 2. */
  predicate StepsAside(n: Npc, views: map<NpcId, NpcWorldView>) {
    n.profile.role == Guard && n.pending == [] && n.id in views
    && views[n.id].playerDist.Some? && views[n.id].playerDist.value < 2.0
  }

  /** Stepping aside reads the player's position: every view that makes a
      guard step aside has one. */
  predicate AsideDefined(npcs: map<NpcId, Npc>, views: map<NpcId, NpcWorldView>) {
    forall id :: id in npcs && StepsAside(npcs[id], views) ==> views[npcs[id].id].playerPos.Some?
  }

  /** The reply an accepted utterance queues, from the mock planner. */
  function Reply(n: Npc, view: NpcWorldView, utter: string): seq<NpcAction> {
    Respond(n.profile.role, view, utter)
  }

  class NpcManager {
    var nextId: NpcId
    var npcs: map<NpcId, Npc>

    /** Every NPC is stored under its own id, below the next id, which is
        never 0. */
    predicate Valid()
      reads this
    {
      nextId >= 1 && forall id :: id in npcs ==> npcs[id].id == id && id < nextId
    }

    /** `NpcManager::new`: no NPCs, ids starting at 1. */
    constructor ()
      ensures Valid() && nextId == 1 && npcs == map[]
    {
      nextId := 1;
      npcs := map[];
    }

    /** `alloc_id`. */
    method AllocId() returns (id: NpcId)
      modifies this
      ensures id == old(nextId) && nextId == old(nextId) + 1 && npcs == old(npcs)
    {
      id := nextId;
      nextId := nextId + 1;
    }

    /** `spawn_from_profile`, with the physics body it creates given: a
        fresh id, idle, nothing queued, cooldown 0. */
    method Spawn(prof: NpcProfile, body: nat) returns (id: NpcId)
      requires Valid()
      modifies this
      ensures Valid()
      ensures id == old(nextId) && id !in old(npcs) && nextId == id + 1
      ensures npcs == old(npcs)[id := Npc(id, prof, body, Idle, [], 0.0)]
    {
      id := AllocId();
      npcs := npcs[id := Npc(id, prof, body, Idle, [], 0.0)];
    }

    /** `update`: every NPC's cooldown runs down and its first pending
        action is taken and executed; the actions taken are returned by
        NPC, and so are the idle guards that step aside. */
    method Update(dt: real, views: map<NpcId, NpcWorldView>)
        returns (taken: map<NpcId, NpcAction>, aside: set<NpcId>)
      requires Valid() && AsideDefined(npcs, views)
      modifies this
      ensures Valid() && nextId == old(nextId)
      ensures npcs == UpdatedIn(old(npcs), old(npcs).Keys, dt)
      ensures taken == TakenIn(old(npcs), old(npcs).Keys)
      ensures aside == AsideIn(old(npcs), old(npcs).Keys, views)
    {
      var before := npcs;
      var todo := npcs.Keys;
      taken, aside := map[], {};
      assert npcs == UpdatedIn(before, {}, dt);
      assert taken == TakenIn(before, {});
      while todo != {}
        invariant todo <= before.Keys && nextId == old(nextId) && before == old(npcs)
        invariant npcs == UpdatedIn(before, before.Keys - todo, dt)
        invariant taken == TakenIn(before, before.Keys - todo)
        invariant aside == AsideIn(before, before.Keys - todo, views)
        decreases todo
      {
        var id :| id in todo;
        var n := npcs[id];
        var done := before.Keys - todo;
        assert n == before[id];
        if n.pending != [] {
          taken := taken[id := n.pending[0]];
        } else if StepsAside(n, views) {
          aside := aside + {id};
        }
        npcs := npcs[id := UpdateNpc(n, dt)];
        UpdateStep(before, done, id, dt, views);
        todo := todo - {id};
        assert before.Keys - todo == done + {id};
      }
      assert before.Keys - todo == before.Keys;
      UpdatedValid(before, nextId, dt);
    }

    /** `handle_player_utterance` with the mock planner: to an unknown id or
        an NPC still cooling down it does nothing; otherwise the reply is
        queued after what is pending, the NPC converses, and its cooldown is
        set to 0.5. The mock planner never fails, so the call always
        succeeds. */
    method HandleUtterance(id: NpcId, view: NpcWorldView, utter: string)
      requires Valid()
      modifies this
      ensures Valid() && nextId == old(nextId)
      ensures id !in old(npcs) || old(npcs)[id].cooldownTalk > 0.0 ==> npcs == old(npcs)
      ensures id in old(npcs) && old(npcs)[id].cooldownTalk <= 0.0 ==>
        var n := old(npcs)[id];
        npcs == old(npcs)[id := n.(pending := n.pending + Reply(n, view, utter), mode := Conversing, cooldownTalk := 0.5)]
    {
      if id in npcs {
        var n := npcs[id];
        if n.cooldownTalk > 0.0 {
          return;
        }
        var plan := Respond(n.profile.role, view, utter);
        npcs := npcs[id := n.(pending := n.pending + plan, mode := Conversing, cooldownTalk := 0.5)];
      }
    }
  }

  /** The NPCs of `ids` updated, the others as they were. */
  function UpdatedIn(npcs: map<NpcId, Npc>, ids: set<NpcId>, dt: real): map<NpcId, Npc> {
    map id | id in npcs :: if id in ids then UpdateNpc(npcs[id], dt) else npcs[id]
  }

  /** The first pending action of each NPC of `ids` that has one. */
  function TakenIn(npcs: map<NpcId, Npc>, ids: set<NpcId>): map<NpcId, NpcAction> {
    map id | id in npcs && id in ids && npcs[id].pending != [] :: npcs[id].pending[0]
  }

  /** The NPCs of `ids` that step aside. */
  function AsideIn(npcs: map<NpcId, Npc>, ids: set<NpcId>, views: map<NpcId, NpcWorldView>): set<NpcId> {
    set id | id in npcs && id in ids && StepsAside(npcs[id], views)
  }

  lemma UpdateStep(npcs: map<NpcId, Npc>, done: set<NpcId>, id: NpcId, dt: real, views: map<NpcId, NpcWorldView>)
    requires id in npcs && id !in done
    ensures UpdatedIn(npcs, done + {id}, dt) == UpdatedIn(npcs, done, dt)[id := UpdateNpc(npcs[id], dt)]
    ensures TakenIn(npcs, done + {id}) ==
      (if npcs[id].pending != [] then TakenIn(npcs, done)[id := npcs[id].pending[0]] else TakenIn(npcs, done))
    ensures AsideIn(npcs, done + {id}, views) ==
      (if npcs[id].pending == [] && StepsAside(npcs[id], views) then AsideIn(npcs, done, views) + {id}
       else AsideIn(npcs, done, views))
  {
  }

  lemma UpdatedValid(npcs: map<NpcId, Npc>, nextId: NpcId, dt: real)
    requires forall id :: id in npcs ==> npcs[id].id == id && id < nextId
    ensures forall id :: id in UpdatedIn(npcs, npcs.Keys, dt) ==>
      UpdatedIn(npcs, npcs.Keys, dt)[id].id == id && id < nextId
  {
  }

  lemma {:induction false} SumNonNegative(dts: seq<real>)
    requires forall k :: 0 <= k < |dts| ==> dts[k] >= 0.0
    ensures Sum(dts) >= 0.0
    decreases |dts|
  {
    if dts != [] {
      SumNonNegative(dts[1..]);
    }
  }

  /** One NPC over several updates, with the actions it takes in order. */
  function Updates(n: Npc, dts: seq<real>): (Npc, seq<NpcAction>)
    decreases |dts|
  {
    if dts == [] then (n, [])
    else
      var r := Updates(UpdateNpc(n, dts[0]), dts[1..]);
      (r.0, (if n.pending == [] then [] else [n.pending[0]]) + r.1)
  }

  /** The queue runs first in, first out, one action per update: after k
      updates the first k pending actions have been taken, in order. */
  lemma {:induction false} QueueIsFifo(n: Npc, dts: seq<real>)
    requires |dts| <= |n.pending|
    ensures Updates(n, dts).1 == n.pending[..|dts|]
    ensures Updates(n, dts).0.pending == n.pending[|dts|..]
    decreases |dts|
  {
    if dts != [] {
      QueueIsFifo(UpdateNpc(n, dts[0]), dts[1..]);
      assert n.pending[..|dts|] == [n.pending[0]] + n.pending[1..][..|dts| - 1];
      assert n.pending[|dts|..] == n.pending[1..][|dts| - 1..];
    }
  }

  /** After an accepted utterance the NPC ignores the player until updates
      totalling at least 0.5 have passed. */
  lemma {:induction false} CooldownRunsDown(n: Npc, dts: seq<real>, total: real)
    requires n.cooldownTalk >= 0.0
    requires forall k :: 0 <= k < |dts| ==> dts[k] >= 0.0
    requires total == Sum(dts)
    ensures Updates(n, dts).0.cooldownTalk == MaxReal(n.cooldownTalk - total, 0.0)
    decreases |dts|
  {
    if dts != [] {
      CooldownRunsDown(UpdateNpc(n, dts[0]), dts[1..], Sum(dts[1..]));
      SumNonNegative(dts[1..]);
    }
  }

  function Sum(dts: seq<real>): real
    decreases |dts|
  {
    if dts == [] then 0.0 else dts[0] + Sum(dts[1..])
  }
}
