/** The allowlist check applied to a decoded plan: every step must name a
    tool the registry offers. */
module Allowlist {
  import opened Base
  import opened Schema

  /** The registry tool each step kind needs. */
  function ToolName(step: ActionStep): string {
    match step
    case MoveTo(_, _) => "move_to"
    case Throw(_, _, _) => "throw"
    case CoverFire(_, _) => "cover_fire"
    case Revive(_) => "revive"
  }

  /** The step kind as the error message spells it. */
  function KindName(step: ActionStep): string {
    match step
    case MoveTo(_, _) => "MoveTo"
    case Throw(_, _, _) => "Throw"
    case CoverFire(_, _) => "CoverFire"
    case Revive(_) => "Revive"
  }

  predicate HasTool(reg: ToolRegistry, name: string) {
    exists i :: 0 <= i < |reg.tools| && reg.tools[i].name == name
  }

  predicate Allowed(reg: ToolRegistry, step: ActionStep) {
    HasTool(reg, ToolName(step))
  }

  /** The index of the first step whose tool is missing, scanning from `i`. */
  function FirstDisallowed(steps: seq<ActionStep>, reg: ToolRegistry, i: nat): (r: Option<nat>)
    requires i <= |steps|
    ensures r.Some? ==> (i <= r.value < |steps| && !Allowed(reg, steps[r.value])
                         && forall j :: i <= j < r.value ==> Allowed(reg, steps[j]))
    ensures r.None? ==> forall j :: i <= j < |steps| ==> Allowed(reg, steps[j])
    decreases |steps| - i
  {
    if i == |steps| then None
    else if !Allowed(reg, steps[i]) then Some(i)
    else FirstDisallowed(steps, reg, i + 1)
  }

  /** The allowlist loop of `parse_llm_plan`: the plan itself when every
      step's tool is registered, otherwise the error for the first step that
      is not. */
  function CheckAllowlist(plan: PlanIntent, reg: ToolRegistry): (r: Result<PlanIntent, string>)
    ensures r.Ok? <==> forall j :: 0 <= j < |plan.steps| ==> Allowed(reg, plan.steps[j])
    ensures r.Ok? ==> r.value == plan
    ensures r.Err? ==> exists k :: (0 <= k < |plan.steps| && !Allowed(reg, plan.steps[k])
                                    && (forall j :: 0 <= j < k ==> Allowed(reg, plan.steps[j]))
                                    && r.error == "LLM used disallowed tool " + KindName(plan.steps[k]))
  {
    match FirstDisallowed(plan.steps, reg, 0)
    case None => Ok(plan)
    case Some(k) => Err("LLM used disallowed tool " + KindName(plan.steps[k]))
  }

  /** A plan with no steps is accepted by any registry. */
  lemma EmptyPlanAccepted(id: string, reg: ToolRegistry)
    ensures CheckAllowlist(PlanIntent(id, []), reg) == Ok(PlanIntent(id, []))
  {
  }

  /** Only tool names matter: argument specs and constraint flags do not. */
  lemma OnlyNamesChecked(plan: PlanIntent, reg: ToolRegistry, reg2: ToolRegistry)
    requires |reg.tools| == |reg2.tools|
    requires forall i :: 0 <= i < |reg.tools| ==> reg.tools[i].name == reg2.tools[i].name
    ensures CheckAllowlist(plan, reg) == CheckAllowlist(plan, reg2)
  {
    assert forall s :: Allowed(reg, s) <==> Allowed(reg2, s);
    assert FirstDisallowed(plan.steps, reg, 0) == FirstDisallowed(plan.steps, reg2, 0) by {
      SameFirstDisallowed(plan.steps, reg, reg2, 0);
    }
  }

  lemma {:induction false} SameFirstDisallowed(steps: seq<ActionStep>, reg: ToolRegistry, reg2: ToolRegistry, i: nat)
    requires i <= |steps|
    requires forall s :: Allowed(reg, s) <==> Allowed(reg2, s)
    ensures FirstDisallowed(steps, reg, i) == FirstDisallowed(steps, reg2, i)
    decreases |steps| - i
  {
    if i < |steps| && Allowed(reg, steps[i]) {
      SameFirstDisallowed(steps, reg, reg2, i + 1);
    }
  }

  /** The registry of the integration test: only `move_to`, with its two
      integer arguments, and no constraints enforced. */
  function MinimalRegistry(): ToolRegistry {
    ToolRegistry([ToolSpec("move_to", map["x" := "i32", "y" := "i32"])], Constraints(false, false, false))
  }

  /** The integration test: the minimal registry accepts a move and rejects
      a throw. */
  lemma MinimalRegistryTest()
    ensures CheckAllowlist(PlanIntent("minimal", [MoveTo(5, 5)]), MinimalRegistry()).Ok?
    ensures CheckAllowlist(PlanIntent("invalid", [Throw("grenade", 5, 5)]), MinimalRegistry()).Err?
  {
    assert MinimalRegistry().tools[0].name == "move_to";
    assert Allowed(MinimalRegistry(), MoveTo(5, 5));
    assert "throw" != "move_to" by { assert "throw"[0] != "move_to"[0]; }
  }
}
