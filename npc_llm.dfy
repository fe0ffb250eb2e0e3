/** The mock NPC planner: hand-written replies chosen by the NPC's role, the
    player's words (matched case-insensitively) and, for guards, a nearby
    threat. */
module NpcPlanner {
  import opened Base
  import opened Text
  import opened GameTypes

  datatype Role = Merchant | Guard | Civilian | QuestGiver

  datatype EmoteKind = Wave | Nod | Shrug | Point

  datatype NpcAction =
    | Say(text: string)
    | MoveTo(pos: Vec3, speed: real)
    | Emote(kind: EmoteKind)
    | OpenShop
    | GiveQuest(id: string)
    | CallGuards(reason: string)

  /** What an NPC perceives; the planner reads its position and the threat
      flag. */
  datatype NpcWorldView = NpcWorldView(timeOfDay: real, selfPos: Vec3, playerPos: Option<Vec3>,
                                       playerDist: Option<real>, nearbyThreat: bool,
                                       locationTag: Option<string>)

  /** The random draws of an idle plan: a chance in [0, 1) and a patrol
      offset on x and z, each in [-1, 1). */
  datatype Rolls = Rolls(chance: real, dx: real, dz: real)

  /** Whether the utterance contains `word`, ignoring ASCII case. */
  predicate Mentions(u: string, word: string) {
    Contains(ToLower(u), word)
  }

  /** The reply to something the player said. */
  function Respond(role: Role, view: NpcWorldView, u: string): seq<NpcAction> {
    match role
    case Merchant =>
      if Mentions(u, "buy") || Mentions(u, "shop") then
        [Say("Take a look\U{2014}finest wares this side of the veil."), OpenShop]
      else [Say("Greetings, traveler. Looking for supplies?"), Emote(Nod)]
    case Guard =>
      if view.nearbyThreat then [Say("Stay back\U{2014}this area isn\U{2019}t safe."), CallGuards("Threat detected")]
      else if Mentions(u, "danger") || Mentions(u, "help") then
        [Say("I\U{2019}ll alert the watch. Keep your distance."), CallGuards("Player reported danger")]
      else [Say("Move along. Keep the peace.")]
    case Civilian =>
      if Mentions(u, "hello") then [Say("Oh! Hello there."), Emote(Wave)]
      else [Say("Sorry\U{2014}busy day.")]
    case QuestGiver =>
      if Mentions(u, "quest") || Mentions(u, "work") then
        [Say("There is something you can do..."), GiveQuest("q_tutorial")]
      else [Say("The threads whisper to those who listen.")]
  }

  /** The plan when the player said nothing: a merchant may wave (chance
      below 0.3), a guard facing a threat warns and calls the guards, a calm
      guard may take a patrol step (chance below 0.5); the others do
      nothing. */
  function Idle(role: Role, view: NpcWorldView, rolls: Rolls): seq<NpcAction> {
    match role
    case Merchant => if rolls.chance < 0.3 then [Emote(Wave)] else []
    case Guard =>
      if view.nearbyThreat then [Say("Stay back\U{2014}this area isn\U{2019}t safe."), CallGuards("Threat detected")]
      else if rolls.chance < 0.5 then
        [MoveTo(Vec3(view.selfPos.x + rolls.dx, view.selfPos.y, view.selfPos.z + rolls.dz), 1.2)]
      else []
    case Civilian => []
    case QuestGiver => []
  }

  /** `MockLlm::plan_dialogue_and_behaviour`; it never fails. */
  function PlanDialogue(role: Role, view: NpcWorldView, utterance: Option<string>, rolls: Rolls): (actions: seq<NpcAction>)
    ensures utterance.Some? ==> actions == Respond(role, view, utterance.value)
    ensures utterance.None? ==> actions == Idle(role, view, rolls)
  {
    if utterance.Some? then Respond(role, view, utterance.value) else Idle(role, view, rolls)
  }

  /** Every reply opens with a line of speech and has at most one more
      action; shops open only for merchants, guards are called only by
      guards, and only quest givers hand out quests, always the tutorial. */
  lemma RespondShape(role: Role, view: NpcWorldView, u: string)
    ensures var r := Respond(role, view, u);
      1 <= |r| <= 2 && r[0].Say?
      && (OpenShop in r ==> role == Merchant)
      && (forall k :: 0 <= k < |r| && r[k].CallGuards? ==> role == Guard)
      && (forall k :: 0 <= k < |r| && r[k].GiveQuest? ==> role == QuestGiver && r[k].id == "q_tutorial")
  {
  }

  /** A guard facing a threat gives the same warning whatever was said, and
      whether or not anything was said. */
  lemma ThreatOverridesWords(view: NpcWorldView, u: string, rolls: Rolls)
    requires view.nearbyThreat
    ensures PlanDialogue(Guard, view, Some(u), rolls) == PlanDialogue(Guard, view, None, rolls)
    ensures PlanDialogue(Guard, view, Some(u), rolls)[1] == CallGuards("Threat detected")
  {
  }

  /** Civilians and quest givers stay silent unless spoken to. */
  lemma SilentUnlessSpokenTo(role: Role, view: NpcWorldView, rolls: Rolls)
    requires role == Civilian || role == QuestGiver
    ensures PlanDialogue(role, view, None, rolls) == []
  {
  }

  lemma {:induction false} LowerIdempotent(s: string)
    ensures ToLower(ToLower(s)) == ToLower(s)
  {
    forall i | 0 <= i < |s|
      ensures ToLower(ToLower(s))[i] == ToLower(s)[i]
    {
      assert LowerAscii(LowerAscii(s[i])) == LowerAscii(s[i]);
    }
  }

  /** Replies ignore letter case: shouting gets the same reply. */
  lemma {:induction false} CaseInsensitive(role: Role, view: NpcWorldView, u: string)
    ensures Respond(role, view, u) == Respond(role, view, ToLower(u))
  {
    LowerIdempotent(u);
  }

  /** A merchant asked to shop opens the shop. */
  lemma MerchantOpensShop(view: NpcWorldView)
    ensures Respond(Merchant, view, "I want to BUY") ==
      [Say("Take a look\U{2014}finest wares this side of the veil."), OpenShop]
  {
    assert ToLower("I want to BUY")[10..13] == "buy";
    assert OccursAt(ToLower("I want to BUY"), "buy", 10);
    assert Find(ToLower("I want to BUY"), "buy").Some?;
  }
}
