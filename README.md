# AstraWeave tactical core, modelled in Dafny

This project models the tactical simulation core of the AstraWeave companion-AI game framework, together with the gameplay, input, NPC, memory, save, build, debug and network pieces that sit around it. Each modelled Rust file has its own Dafny module, and every module's contracts are proved.

- **Core simulation.** The world store (`World`) holds entities and their components, the obstacle cells and the clock. The grid queries are line of sight, breadth-first reachability, A* paths and cover search. The snapshot builder projects the world for a planner. A rule-based planner proposes plans, and the allowlist check screens plans coming from a language model. The validation engine applies a plan step by step and stops at the first illegal step, without rolling back the earlier ones. The boss director and the phase director reshape the encounter under a budget.
- **Gameplay.** Banter dialogue and its compiler, quests, inventories and crafting, resource nodes, cutscene timelines, combo attacks, combat stats and weave telemetry.
- **Input.** The input manager maps keys, mouse buttons, gamepad buttons and axes to actions, tracks touch phases and applies axis deadzones.
- **NPCs and companion memory.** The NPC manager handles id allocation, the one-action-per-tick queue and the talk cooldown. The mock NPC planner is included, as are the companion profile's distillation and signature check.
- **Persistence.** The save file header (`ASVS`, schema version 2, codec 1, length and CRC) and the version dispatch are modelled. So are the V1 to V2 bundle upgrade, the save index list and the choice of the latest save for a slot.
- **Tooling and network.** The build tool's changed-file filter and path normalisation, the debug HUD's event log and frame-time window, and the `sign16` packet signature.

## How the model is built

- Objects whose fields the Rust code updates in place are Dafny classes. These include `World`, `InputManager`, `DialogueState`, `Inventory`, `AttackState`, `Stats`, `NpcManager`, `CompanionProfile`, `PerfHud` and `EventLog`.
- Each class method is proved against a specification function of the old state. Often the class's fields are projected to a value (`World.State()`, `InputManager.Held()`) for this.
- Pure Rust functions are Dafny functions. Loops in the source (line of sight, BFS, A*, the cover scan, the index update, `sign16`) are Dafny methods with loop invariants.
- Rust `f32` is `real`. `as i32` is `Base.Trunc`, which truncates toward zero. Rust `/` on `i32` halves toward zero (`Base.Half`).
- `HashMap` and `HashSet` become `map` and `set`. Results whose order depends on hash iteration, such as `all_of_team`, are sets.
- Randomness, clocks, hashes, CRC-32, LZ4 and serde decoding are parameters: values, or functions passed in.

Notes on the source's behaviour, which the model reproduces:
- **Line-of-sight walk.** `los_clear` steps both axes together on every iteration until each reaches its target; it does not alternate between them.
- **Cover-fire damage.** This is `max(1, trunc(duration * 5))`, truncating toward zero (`as i32`), not rounding down.
- **Throw cooldown.** A throw is refused only when the cooldown is above zero; a missing key counts as zero.
- **Cover scan.** The scan also excludes blocked cells and cells outside the bounds.
- **Boss phases.** The phase switch reads the first enemy's health as the boss's health. The midpoint it aims at is between the player and that enemy, or a point 6 cells east of the player when there is no enemy.

## Model

| member | source | states |
|---|---|---|
| Util.Manhattan | astraweave-core/src/util.rs:3-5 | the L1 distance is zero exactly for equal points and bounds each coordinate difference |
| Util.ManhattanSymmetric | astraweave-core/src/util.rs:3-5 | the distance is symmetric |
| Util.ManhattanTriangle | astraweave-core/src/util.rs:3-5 | the distance obeys the triangle inequality |
| Util.Midpoint | astraweave-ai/src/lib.rs:21-24 | the `i32` midpoint lies between the two points on each axis |
| WorldStore.Decay | astraweave-core/src/world.rs:50-52 | a decayed cooldown table has the same keys, and each value is the old value minus dt or 0, never negative |
| WorldStore.TickState | astraweave-core/src/world.rs:48-53 | a tick advances the clock by dt, keeps every cooldown non-negative and changes nothing else |
| WorldStore.DecayCompose | astraweave-core/src/world.rs:50-52 | decaying by a and then by b equals decaying by a+b, for non-negative steps |
| WorldStore.DecayAllCompose | astraweave-core/src/world.rs:50-52 | the same composition law holds for every entity's table |
| WorldStore.TickNClock | astraweave-core/src/world.rs:48-49 | n ticks of dt advance the clock by n*dt and touch only the clock and cooldowns |
| WorldStore.TickNCooldowns | astraweave-core/src/world.rs:48-53 | n ticks of dt >= 0 leave the cooldowns decayed once by n*dt |
| WorldStore.ElapsedIsProduct | astraweave-core/src/world.rs:48-49 | the time added by n ticks of dt is n*dt |
| WorldStore.TickNDecay | astraweave-core/src/world.rs:48-53 | n >= 1 ticks of dt >= 0 decay the cooldowns once by the total elapsed time |
| WorldStore.World.constructor | astraweave-core/src/world.rs:35 | a new world has clock 0, next id 1 and no entities |
| WorldStore.World.Spawn | astraweave-core/src/world.rs:37-46 | the returned id is the old counter and was unused; all six components are registered under it; the counter grows by one; ids stay below the counter |
| WorldStore.World.Tick | astraweave-core/src/world.rs:48-53 | the new state is the tick of the old state, and the id invariant is kept |
| WorldStore.World.Pose | astraweave-core/src/world.rs:56 | present exactly when the entity has a pose, and then it is that pose |
| WorldStore.World.Health | astraweave-core/src/world.rs:58 | present exactly when the entity has health, and then it is that value |
| WorldStore.World.Team | astraweave-core/src/world.rs:60 | present exactly when the entity has a team, and then it is that team |
| WorldStore.World.Ammo | astraweave-core/src/world.rs:61 | present exactly when the entity has ammunition, and then it is that count |
| WorldStore.World.Cooldowns | astraweave-core/src/world.rs:62 | present exactly when the entity has a cooldown table, and then it is that table |
| WorldStore.World.Name | astraweave-core/src/world.rs:63 | present exactly when the entity has a name, and then it is that name |
| WorldStore.World.PosOf | astraweave-core/src/world.rs:71 | the position is the pose lookup |
| WorldStore.World.AllOfTeam | astraweave-core/src/world.rs:65-67 | exactly the entities whose team id equals the given one |
| WorldStore.World.EnemiesOf | astraweave-core/src/world.rs:68-70 | exactly the entities with a team whose id differs from the given one |
| WorldStore.TeamsPartition | astraweave-core/src/world.rs:65-70 | team members and enemies are disjoint and together are every entity with a team |
| WorldStore.DecayTables | astraweave-core/src/world.rs:50-52 | the loop over all tables computes the decay of every table |
| WorldStore.DecayTable | astraweave-core/src/world.rs:51 | the loop over one table computes its decay |
| Sim.Step | astraweave-core/src/sim.rs:7-9 | one step is one world tick of the configured dt |
| Tools.LosClear | astraweave-core/src/tools.rs:61-75 | the walk returns true exactly when no cell it checks is blocked: the start is checked and the goal never is |
| Tools.LosSelf | astraweave-core/src/tools.rs:69-74 | a point always sees itself |
| Tools.LosGoalUnchecked | astraweave-core/src/tools.rs:69-73 | no checked cell is the goal |
| Tools.LosIgnoresGoal | astraweave-core/src/tools.rs:69-73 | an obstacle on the goal does not change the answer |
| Tools.LosStartChecked | astraweave-core/src/tools.rs:70 | a blocked start blocks the view of every other cell |
| Tools.LosInBox | astraweave-core/src/tools.rs:66-73 | every checked cell lies in the bounding box of the two endpoints |
| Tools.Expand | astraweave-core/src/tools.rs:90-95 | each neighbour that is open and unseen is marked seen and queued; afterwards every open neighbour is seen |
| Tools.PathExists | astraweave-core/src/tools.rs:78-98 | the BFS answers true exactly when a 4-connected path of open in-bounds cells leads from start to goal |
| Tools.MinIndex | astraweave-core/src/tools.rs:136 | the pop takes a node of least f |
| Tools.Reconstruct | astraweave-core/src/tools.rs:139-147 | following the parent links from the goal yields a path from start to goal |
| Tools.RelaxNeighbour | astraweave-core/src/tools.rs:151-161 | relaxing one neighbour keeps the A* invariants, records every open neighbour and never worsens a distance |
| Tools.ExpandNode | astraweave-core/src/tools.rs:149-162 | expanding a node closes it under open neighbours and keeps the A* invariants |
| Tools.AStarPath | astraweave-core/src/tools.rs:103-165 | the result is non-empty exactly when the goal is reachable, and a non-empty result is a path from start to goal through open cells |
| Tools.ScanRow | astraweave-core/src/tools.rs:184-194 | the inner scan collects the cover cells of one column in scan order |
| Tools.FindCoverPositions | astraweave-core/src/tools.rs:168-197 | the scan returns the cover cells of the square in scan order |
| Tools.CoverScanMembers | astraweave-core/src/tools.rs:183-193 | a cell is returned exactly when it is in the square, in bounds, unblocked, seen by the player and not seen by the enemy |
| Perception.CoverLabel | astraweave-core/src/perception.rs:41 | "unknown" exactly beyond the radius from the player, else "low" |
| Perception.SeeEnemy | astraweave-core/src/perception.rs:37-42 | an enemy is seen exactly when it has a pose and health |
| Perception.SeeEnemies | astraweave-core/src/perception.rs:37-43 | the seen list is no longer than the enemy list |
| Perception.BuildSnapshot | astraweave-core/src/perception.rs:9-56 | the snapshot copies the clock, the player and companion state, the fixed point of interest and the objective |
| Perception.SeeEnemiesAppend | astraweave-core/src/perception.rs:37-43 | the filter distributes over concatenation |
| Perception.SeenEnemiesFaithful | astraweave-core/src/perception.rs:37-43 | each seen enemy was asked for; its pose, health and clock come from the world; its tag follows the radius |
| Perception.SeenEnemiesComplete | astraweave-core/src/perception.rs:37-43 | every requested enemy with a pose and health is seen |
| Perception.SeeAllEnemies | astraweave-core/src/perception.rs:37-43 | when all requested enemies are present, all are seen in order |
| Perception.SnapshotEnemies | astraweave-core/src/perception.rs:37-55 | every snapshot enemy was requested, is stamped with the snapshot time and is tagged by its distance to the player |
| Validation.ThrowKey | astraweave-core/src/validation.rs:33 | the cooldown key is "throw:" followed by the item |
| Validation.CoverFireDamage | astraweave-core/src/validation.rs:48-49 | the damage is at least 1, and for non-negative durations it is 1 or the truncation of duration*5 |
| Validation.ApplyStep | astraweave-core/src/validation.rs:16-61 | a move succeeds exactly when the target is reachable (else NoPath) and then only moves the actor; a throw fails with LosBlocked without sight, otherwise with Cooldown exactly when the key's cooldown is positive, and on success sets that cooldown to 8; cover fire fails when the target is gone or out of sight, and on success lowers the target's health (when it has one) by exactly max(1, trunc(duration*5)) and sets the actor's ammunition to max(ammo-3, 0), touching no other entity's health or ammunition; a throw leaves health and ammunition unchanged; a revive always succeeds, raises a downed ally to 20 hp and changes no other health; no step changes the clock, the obstacles, the teams or the component key sets |
| Validation.Run | astraweave-core/src/validation.rs:15-63 | running a plan keeps the component key sets, obstacles and clock; it logs at most one line per step, and one per step on success |
| Validation.RunStopsAtError | astraweave-core/src/validation.rs:15-63 | steps after a failing prefix are never run |
| Validation.RunFirstError | astraweave-core/src/validation.rs:15-63 | a failed run has a first failing step: the prefix before it succeeds, and its state and log are kept with no rollback |
| Validation.ExecuteStep | astraweave-core/src/validation.rs:16-61 | on error the world is unchanged; on success the world is the step's new state |
| Validation.ValidateAndExecute | astraweave-core/src/validation.rs:7-64 | the world, the result and the log (a header, then one line per applied step) are those of running the plan |
| Validation.ScenarioMoveOnOpenGrid | astraweave-core/src/validation.rs:17-25 | on an empty 20x10 grid a move from (2,2) to (10,2) succeeds and the pose becomes (10,2) |
| Validation.ScenarioThrowOnCooldown | astraweave-core/src/validation.rs:26-36 | with "throw:smoke" at 5.0 a smoke throw fails with Cooldown, the plan stops and nothing changes |
| Validation.SmokeKey | astraweave-core/src/validation.rs:33 | the smoke key is "throw:smoke" |
| Validation.ScenarioWallBlocksMove | astraweave-core/src/validation.rs:17-22 | a full wall at x=10 makes the move from (0,0) to (19,9) fail with NoPath |
| RulePlanner.PlanId | astraweave-ai/src/lib.rs:15 | the plan id starts with "plan-" |
| RulePlanner.ProposePlan | astraweave-ai/src/lib.rs:14-69 | no enemies gives an empty plan; with smoke ready it throws at the midpoint, moves 2 toward the first enemy and fires for 2.5; otherwise it moves 1 and fires for 1.5 |
| RulePlanner.MoveTargetNearCompanion | astraweave-ai/src/lib.rs:36-54 | the move target is within 2 (smoke ready) or 1 cells of the companion on each axis |
| RulePlanner.SmokeBetween | astraweave-ai/src/lib.rs:21-35 | the smoke lands inside the box between the companion and the first enemy |
| RulePlanner.ReadsOnlyFirstEnemy | astraweave-ai/src/lib.rs:16 | the plan depends on the enemies only through the first one |
| Allowlist.FirstDisallowed | astraweave-llm/src/lib.rs:88-111 | the scan finds the first step whose tool is not registered |
| Allowlist.CheckAllowlist | astraweave-llm/src/lib.rs:88-112 | the plan is accepted unchanged exactly when every step's tool is registered; otherwise the error names the first disallowed step's kind |
| Allowlist.EmptyPlanAccepted | astraweave-llm/src/lib.rs:88-112 | an empty plan is always accepted |
| Allowlist.OnlyNamesChecked | astraweave-llm/src/lib.rs:91-107 | only tool names matter, not argument specifications |
| Allowlist.SameFirstDisallowed | astraweave-llm/src/lib.rs:88-111 | registries that allow the same steps give the same answer |
| Allowlist.MinimalRegistryTest | astraweave-llm/tests/integration_test.rs:118-144 | a move-only registry accepts a move and rejects a throw |
| Director.Target | astraweave-director/src/lib.rs:17 | the target is the first enemy's position, or 6 cells east of the player |
| Director.ChokeRect | astraweave-director/src/lib.rs:22-24 | the fortify rectangle is 3x3 and centred on the given point |
| Director.Ops | astraweave-director/src/lib.rs:20-35 | fortifying emits the choke alone; otherwise a wave behind the player exactly when spawns remain and a collapse exactly when edits remain, in that order; every op is affordable |
| Director.BossPlan | astraweave-director/src/lib.rs:12-37 | at most two affordable ops; the plan is the single choke exactly when the target is over 8 away and terrain edits remain |
| Director.BossPlanEmptyBudget | astraweave-director/src/lib.rs:20-34 | an exhausted budget yields no ops |
| Director.BossPlanSpawnsWhenClose | astraweave-director/src/lib.rs:27-30 | a close target with spawns left opens with a 3-minion wave at (x-2, y+1) |
| PhaseDirecting.Advance | astraweave-director/src/phase.rs:33-38 | the switch loop stops at a phase from which the next threshold is below the health, having passed only thresholds at or above it |
| PhaseDirecting.Shifts | astraweave-director/src/phase.rs:36-37 | one telegraph per phase entered, naming it, in order |
| PhaseDirecting.OpLines | astraweave-director/src/phase.rs:51-59 | one announcement per emitted op, in order |
| PhaseDirecting.PhaseOps | astraweave-director/src/phase.rs:46-61 | at most two affordable ops; a terrain-biased phase with edits left fortifies the midpoint alone |
| PhaseDirecting.PhaseDirector.constructor | astraweave-director/src/phase.rs:25-27 | a new director starts at phase 0 with no telegraph |
| PhaseDirecting.PhaseDirector.SwitchPhases | astraweave-director/src/phase.rs:33-38 | the index moves to where the loop stops, and the telegraphs name each phase entered |
| PhaseDirecting.PhaseDirector.Step | astraweave-director/src/phase.rs:29-67 | the phase advances only with a boss; the plan names the active phase, carries its ops and lists the shift telegraphs, then the op announcements |
| PhaseDirecting.AdvanceForward | astraweave-director/src/phase.rs:33-35 | the phase index never decreases |
| PhaseDirecting.FirstThresholdIgnored | astraweave-director/src/phase.rs:33-34 | phase 0's threshold never affects switching |
| PhaseDirecting.ScenarioSharpDrop | astraweave-director/src/phase.rs:33-38 | thresholds 250, 150 and 50 with the boss at 40 jump from phase 0 to 2 in one step, with two telegraphs |
| Dialogue.EvalNeIsNotEq | astraweave-gameplay/src/dialogue.rs:89-95 | Ne is the negation of Eq, missing keys included, and Eq implies Has |
| Dialogue.IndexMap | astraweave-gameplay/src/dialogue.rs:52-57 | every node id maps to an index holding that id, and the last node with a shared id wins |
| Dialogue.ApplyVars | astraweave-gameplay/src/dialogue.rs:78-80 | the variables after the assignments have the old keys plus the assigned ones |
| Dialogue.ApplyVarsLookup | astraweave-gameplay/src/dialogue.rs:78-80 | an unassigned key keeps its value, and an assigned key takes its last assignment |
| Dialogue.DialogueState.constructor | astraweave-gameplay/src/dialogue.rs:51-64 | the state starts at the start node's index with no variables |
| Dialogue.DialogueState.Current | astraweave-gameplay/src/dialogue.rs:65-67 | the current node is a node of the dialogue |
| Dialogue.DialogueState.Choose | astraweave-gameplay/src/dialogue.rs:68-86 | a choice succeeds exactly when it exists, its conditions hold and its target exists; success moves there and applies the target line's assignments; failure changes nothing |
| Dialogue.SpeakerLine | astraweave-gameplay/src/dialogue.rs:111-119 | with a `]` after the `[`, the speaker is the text up to the first `]` and the line text is the trimmed rest; without one, the speaker is "Unknown" and the text is the whole line; no assignments yet |
| Dialogue.ParseCond | astraweave-gameplay/src/dialogue.rs:155-168 | a text containing `==` gives one Eq of the trimmed pieces around its first `==`; otherwise one containing `!=` gives the corresponding Ne; otherwise no condition |
| Dialogue.GotoTarget | astraweave-gameplay/src/dialogue.rs:150-154 | the trimmed text after a `goto` prefix, and "n0" without one |
| Dialogue.WithLastSetVar | astraweave-gameplay/src/dialogue.rs:138-142 | the pair is appended to the last node's assignments; the earlier nodes and every other field of the last node are unchanged |
| Dialogue.WithLastChoice | astraweave-gameplay/src/dialogue.rs:169-175 | the choice is appended to the last node's choices; the earlier nodes and every other field of the last node are unchanged |
| Dialogue.ArrowLine | astraweave-gameplay/src/dialogue.rs:133-143 | with a `=` in the trimmed text and a last node carrying a line, the trimmed key and value around the first `=` are appended to that node's assignments; otherwise the nodes are unchanged; no node is added |
| Dialogue.QueryLine | astraweave-gameplay/src/dialogue.rs:144-176 | when the text has exactly one `:` and there is a node, a "Continue" choice to the goto target of the part after the `:`, guarded by the condition parsed from the part before it, is appended to the last node; otherwise the nodes are unchanged |
| Dialogue.CompileLine | astraweave-gameplay/src/dialogue.rs:106-177 | a speaker line appends node n<count> with its line; other lines add no node; earlier nodes keep their id, line presence and end flag |
| Dialogue.CompileLineCases | astraweave-gameplay/src/dialogue.rs:107-177 | a `->` line acts as an assignment line, a `?` line as a choice line, and a blank line or one of no known form changes nothing |
| Dialogue.CompiledChoices | astraweave-gameplay/src/dialogue.rs:144-181 | every compiled choice, before and after the end is marked, reads "Continue" and requires at most one condition, an Eq or a Ne |
| Dialogue.CompileLinesShape | astraweave-gameplay/src/dialogue.rs:102-132 | the nodes are one per speaker line, numbered n0, n1, ..., each with a line |
| Dialogue.MarkEnd | astraweave-gameplay/src/dialogue.rs:179-181 | marking the end sets `end` on the last node and changes nothing else: the count, the earlier nodes and the last node's id, line and choices are kept |
| Dialogue.CompileStep | astraweave-gameplay/src/dialogue.rs:106-177 | one loop iteration compiles one line and keeps the counter equal to the node count |
| Dialogue.CompileBanter | astraweave-gameplay/src/dialogue.rs:102-187 | the dialogue has the given id and starts at the first node or "n0"; its nodes are the script's lines compiled one after another (each line's effect as Dialogue.CompileLine and Dialogue.CompileLineCases state) with the last node marked as the end |
| Dialogue.CompiledShape | astraweave-gameplay/src/dialogue.rs:102-187 | compiled nodes are numbered in order, each has a line, exactly the last is an end, and the first is n0 |
| Text.SplitOnce | astraweave-gameplay/src/dialogue.rs:147-148 | splitting on `:` gives exactly two pieces exactly when the separator occurs once, and they are the text before and after it |
| Text.SplitTwo | astraweave-gameplay/src/dialogue.rs:157-166 | the first two pieces of a split on `==` or `!=`: the text before the first occurrence, and the text from there up to the next occurrence or the end |
| Items.FindKind | astraweave-gameplay/src/items.rs:38 | the first entry of the kind, or none when absent |
| Items.AddAmounts | astraweave-gameplay/src/items.rs:37-43 | adding raises that kind by n, leaves other kinds alone and keeps one entry per kind |
| Items.RemoveAmounts | astraweave-gameplay/src/items.rs:45-50 | removal succeeds exactly when the kind is held with enough, and then lowers only that kind by n |
| Items.Inventory.constructor | astraweave-gameplay/src/items.rs:30-34 | a new inventory is empty |
| Items.Inventory.Find | astraweave-gameplay/src/items.rs:38 | the search loop finds the first entry of the kind |
| Items.Inventory.AddResource | astraweave-gameplay/src/items.rs:37-43 | the holdings become the add of the old holdings; items are untouched |
| Items.Inventory.RemoveResource | astraweave-gameplay/src/items.rs:45-50 | returns whether removal succeeds, and then the holdings are the removal, else unchanged |
| Items.Infuse | astraweave-gameplay/src/items.rs:53-55 | infusing sets the echo and keeps everything else |
| Crafting.FindRecipe | astraweave-gameplay/src/crafting.rs:24 | the first recipe with the name, or none |
| Crafting.PayDistinct | astraweave-gameplay/src/crafting.rs:38-42 | with distinct, held and covered costs, payment succeeds and lowers each costed kind by its cost only |
| Crafting.RepeatedKindPartialPayment | astraweave-gameplay/src/crafting.rs:26-42 | a recipe costing wood twice passes the check with 3 wood, fails to pay and keeps the first deduction |
| Crafting.ZeroCostOfMissingKind | astraweave-gameplay/src/crafting.rs:26-42 | a zero cost of an absent kind passes the check but fails payment |
| Crafting.Craft | astraweave-gameplay/src/crafting.rs:23-51 | no recipe or uncovered costs give none and an untouched inventory; otherwise the costs are paid in order, and the item (recipe name, output, no echo) is returned exactly when every removal succeeded |
| Harvesting.RespawnAmount | astraweave-gameplay/src/harvesting.rs:29 | a respawn yields between 1 and 5 |
| Harvesting.ResourceNode.constructor | astraweave-gameplay/src/harvesting.rs:6-12 | the node holds the given fields with the timer at zero |
| Harvesting.ResourceNode.Harvest | astraweave-gameplay/src/harvesting.rs:15-23 | takes min(n, amount) into the inventory; an emptied node starts its respawn timer |
| Harvesting.ResourceNode.Tick | astraweave-gameplay/src/harvesting.rs:25-33 | a stocked node is untouched; an empty one counts down and respawns 1..5 when the timer runs out |
| Harvesting.HarvestConserves | astraweave-gameplay/src/harvesting.rs:15-23 | the inventory gains exactly what the node loses |
| Quests.GatherTasks | astraweave-gameplay/src/quests.rs:39-45 | each task is updated on its own, and the task count is kept |
| Quests.QuestLog.constructor | astraweave-gameplay/src/quests.rs:28-31 | a new log holds no quests |
| Quests.QuestLog.Add | astraweave-gameplay/src/quests.rs:34 | the quest is stored under its id, replacing any earlier one |
| Quests.QuestLog.IsDone | astraweave-gameplay/src/quests.rs:35 | true exactly for a stored, completed quest |
| Quests.QuestLog.ProgressGather | astraweave-gameplay/src/quests.rs:37-48 | a stored quest is replaced by its gathered version; an unknown id changes nothing |
| Quests.GatherMonotone | astraweave-gameplay/src/quests.rs:37-48 | gathering keeps the quest's identity, never uncompletes it, and leaves done tasks and tasks of other kinds alone |
| Quests.EmptyQuestCompletes | astraweave-gameplay/src/quests.rs:46 | a quest with no tasks is completed on any gather |
| Quests.GatherAdditive | astraweave-gameplay/src/quests.rs:41-42 | gathering n1 and then n2 equals gathering n1+n2 |
| Quests.DoneTasksComplete | astraweave-gameplay/src/quests.rs:41-46 | a quest whose tasks are all done completes without task changes |
| Cutscenes.Advance | astraweave-gameplay/src/cutscenes.rs:42-76 | past the end nothing moves; otherwise the clock runs and the cue advances with a fresh clock exactly when its time is reached |
| Cutscenes.CutsceneState.constructor | astraweave-gameplay/src/cutscenes.rs:32-34 | playback starts at cue 0 with a zero clock |
| Cutscenes.CutsceneState.Tick | astraweave-gameplay/src/cutscenes.rs:37-78 | the cursor advances as specified; the camera and text come from the cue being played; done exactly when past the last cue |
| Cutscenes.PlayMonotone | astraweave-gameplay/src/cutscenes.rs:37-78 | the cue index never decreases, never passes the end and rises by at most one per tick |
| Cutscenes.FinishedStaysFinished | astraweave-gameplay/src/cutscenes.rs:42-44 | a finished timeline stays finished |
| Cutscenes.OneCuePerTick | astraweave-gameplay/src/cutscenes.rs:45-76 | with ticks no shorter than any cue, each tick finishes exactly one cue |
| Combat.Next | astraweave-gameplay/src/combat.rs:50-91 | a tick keeps a running combo on a step of its chain |
| Combat.AttackState.constructor | astraweave-gameplay/src/combat.rs:32-34 | a new attack is idle at step 0 |
| Combat.AttackState.Start | astraweave-gameplay/src/combat.rs:36 | starting runs the combo from step 0 with a zero clock |
| Combat.AttackState.Tick | astraweave-gameplay/src/combat.rs:39-93 | the combo advances as specified; it hits exactly when the step is taken within reach; a hit deals the step's damage through the target's mitigation and adds a stagger; a miss changes nothing; the target's stamina, power, defence and echo amplification never change |
| Combat.Run | astraweave-gameplay/src/combat.rs:39-93 | a run of ticks keeps the combo playable |
| Combat.RunForward | astraweave-gameplay/src/combat.rs:50-90 | the step index never decreases; an idle combo stays idle; an active result was active before |
| Combat.OnTimeFinishes | astraweave-gameplay/src/combat.rs:53-90 | pressing each step's input inside its window completes the chain and ends the combo |
| Combat.UnarmedDamage | astraweave-gameplay/src/combat.rs:77-80 | unarmed damage is physical, base plus power, and mitigated to between 1 and itself |
| Combat.PlainWeaponDamage | astraweave-gameplay/src/combat.rs:66-74 | a weapon without an echo deals its own type, and base + power + weapon damage |
| CombatStats.Stats.constructor | astraweave-gameplay/src/stats.rs:22-24 | the given hp with stamina 100, power 10, defence 5, amplification 1 and no effects |
| CombatStats.Stats.ApplyDamage | astraweave-gameplay/src/stats.rs:26-30 | hp drops by the mitigated amount, which is returned; no other stat changes |
| CombatStats.Stats.Tick | astraweave-gameplay/src/stats.rs:32-48 | the effects run down and expired ones are dropped; hp drops by the truncated bleed damage, which is returned; stamina, power, defence and echo amplification stay |
| CombatStats.MitigateBounds | astraweave-gameplay/src/stats.rs:27 | mitigation deals at least 1, and never more than the hit for defence >= 0 |
| CombatStats.RemainingAlive | astraweave-gameplay/src/stats.rs:35-44 | surviving effects have positive timers and come from the old effects |
| CombatStats.RemainingCompose | astraweave-gameplay/src/stats.rs:35-44 | running down by a and then by b >= 0 equals running down by a+b |
| CombatStats.DotNonNegative | astraweave-gameplay/src/stats.rs:34-45 | bleed damage is never negative for non-negative rates and dt |
| Telemetry.WeaveTelemetry.constructor | astraweave-gameplay/src/weave_telemetry.rs:3-11 | all counters start at zero |
| Telemetry.WeaveTelemetry.AddTerrain | astraweave-gameplay/src/weave_telemetry.rs:14-17 | counts one operation and adds the terrain cost |
| Telemetry.WeaveTelemetry.AddWeather | astraweave-gameplay/src/weave_telemetry.rs:18-21 | counts one operation and adds the weather cost |
| Telemetry.ReplayTotals | astraweave-gameplay/src/weave_telemetry.rs:14-21 | recording from zero counts the operations and sums each cost kind |
| Telemetry.ReplayConcat | astraweave-gameplay/src/weave_telemetry.rs:14-21 | recording two batches equals recording their concatenation |
| Input.ApplyAxis | astraweave-input/src/manager.rs:186-190 | the (possibly inverted) value, or 0 inside the deadzone |
| Input.InputManager.constructor | astraweave-input/src/manager.rs:37-47 | no actions held, centred axes, sensitivity 0.12, no touch |
| Input.InputManager.SetContext | astraweave-input/src/manager.rs:49 | only the context changes: held actions, bindings, axes, look sensitivity and touch state stay |
| Input.InputManager.IsDown | astraweave-input/src/manager.rs:51 | true exactly for held actions |
| Input.InputManager.JustPressed | astraweave-input/src/manager.rs:52 | true exactly for actions pressed this frame |
| Input.InputManager.ClearFrame | astraweave-input/src/manager.rs:54 | the just-pressed set empties; held actions and every other field stay |
| Input.InputManager.SetAction | astraweave-input/src/manager.rs:203-212 | a press holds the action and marks it just pressed unless it was held; a release only drops it |
| Input.InputManager.SetEach | astraweave-input/src/manager.rs:69-71 | the loop sets every bound action |
| Input.InputManager.ProcessWindowEvent | astraweave-input/src/manager.rs:56-114 | keys and mouse buttons set their bound actions; touches start, move (only the active id) and end (only the active id, re-centring the move axis, which no other event touches); other events change nothing |
| Input.InputManager.TouchJoystick | astraweave-input/src/manager.rs:137-141 | the move axis is the touch drag over 80 pixels, y flipped, clamped to [-1, 1]; nothing but the move axis changes |
| Input.InputManager.HandleButton | astraweave-input/src/manager.rs:144-182 | a mapped pad button sets the actions bound to it; unmapped buttons change nothing |
| Input.InputManager.HandleAxis | astraweave-input/src/manager.rs:184-201 | each stick axis updates its own component through its binding; other axes change nothing |
| Input.SetAllStep | astraweave-input/src/manager.rs:69-71 | setting actions one at a time equals setting the set |
| Input.SetActionLaws | astraweave-input/src/manager.rs:203-212 | pressing twice is pressing once; just-pressed follows the held state; press then release drops only that action |
| Input.ApplyAxisBounds | astraweave-input/src/manager.rs:186-190 | the output is no larger than the input and is 0 or outside the deadzone |
| Input.EscapeOpensMenuAndGoesBack | astraweave-input/src/bindings.rs:67-71 | by default Escape is bound to exactly OpenMenu and UiBack |
| NpcPlanner.PlanDialogue | astraweave-npc/src/llm.rs:22-90 | with an utterance the reply depends on role and words; without one the idle plan depends on role, threat and rolls |
| NpcPlanner.RespondShape | astraweave-npc/src/llm.rs:31-87 | a reply is one or two actions opening with speech; only merchants open a shop, only guards call guards, only quest givers give q_tutorial |
| NpcPlanner.ThreatOverridesWords | astraweave-npc/src/llm.rs:49-51 | a guard near a threat warns and calls guards whatever was said |
| NpcPlanner.SilentUnlessSpokenTo | astraweave-npc/src/llm.rs:67-86 | civilians and quest givers do nothing when idle |
| NpcPlanner.CaseInsensitive | astraweave-npc/src/llm.rs:34-79 | replies ignore ASCII case |
| NpcPlanner.MerchantOpensShop | astraweave-npc/src/llm.rs:33-36 | "I want to BUY" makes a merchant open the shop |
| NpcRuntime.Execute | astraweave-npc/src/runtime.rs:131-152 | every action but an emote sends one command |
| NpcRuntime.UpdateNpc | astraweave-npc/src/runtime.rs:87-111 | the talk cooldown stays non-negative and the identity and mode are kept |
| NpcRuntime.NpcManager.constructor | astraweave-npc/src/runtime.rs:68-70 | ids start at 1 with no NPCs |
| NpcRuntime.NpcManager.AllocId | astraweave-npc/src/runtime.rs:161 | returns the counter and increments it |
| NpcRuntime.NpcManager.Spawn | astraweave-npc/src/runtime.rs:72-81 | a fresh id is stored with an idle NPC with no pending actions |
| NpcRuntime.NpcManager.Update | astraweave-npc/src/runtime.rs:83-118 | every NPC's cooldown runs down; the first pending action of each NPC is taken; idle guards near the player step aside |
| NpcRuntime.NpcManager.HandleUtterance | astraweave-npc/src/runtime.rs:120-129 | an unknown or cooling NPC ignores the player; otherwise the reply is queued, the NPC converses and its cooldown is 0.5 |
| NpcRuntime.QueueIsFifo | astraweave-npc/src/runtime.rs:91-95 | updates take queued actions in order, one per tick |
| NpcRuntime.CooldownRunsDown | astraweave-npc/src/runtime.rs:89 | the cooldown after many ticks is the old one minus their sum, floored at 0 |
| Memory.Distilled | astraweave-memory/src/lib.rs:66-72 | one fact per episode of the first ten, keyed "ep:"+title |
| Memory.CompanionProfile.NewDefault | astraweave-memory/src/lib.rs:46-61 | version 1.0.0, the default persona and preferences, nothing else |
| Memory.CompanionProfile.Distill | astraweave-memory/src/lib.rs:63-74 | facts gain the distilled first ten episodes and all episodes are dropped |
| Memory.CompanionProfile.Sign | astraweave-memory/src/lib.rs:76-85 | the signature becomes the hash of the unsigned content; the content is unchanged |
| Memory.CompanionProfile.Verify | astraweave-memory/src/lib.rs:99-110 | true exactly when a signature is present and equals the content hash |
| Memory.DistillLoses | astraweave-memory/src/lib.rs:66 | old facts are kept, and episodes are lost exactly when there were more than ten |
| SaveFormat.U16Le | persistence/aw-save/src/lib.rs:246 | a u16 is two little-endian bytes |
| SaveFormat.U32Le | persistence/aw-save/src/lib.rs:249-250 | a u32 is four little-endian bytes |
| SaveFormat.Le2RoundTrip | persistence/aw-save/src/lib.rs:285 | reading back two bytes gives the u16 |
| SaveFormat.Le4RoundTrip | persistence/aw-save/src/lib.rs:288-289 | reading back four bytes gives the u32 |
| SaveFormat.HeaderBytes | persistence/aw-save/src/lib.rs:244-250 | the header is 16 bytes |
| SaveFormat.BuildFile | persistence/aw-save/src/lib.rs:244-251 | the file is the header then the payload |
| SaveFormat.ReadAnyVersion | persistence/aw-save/src/lib.rs:278-306 | success means magic, LZ4 codec, full payload and matching CRC, with the header's version and the decompressed blob; a wrong magic is BadMagic |
| SaveFormat.WriteThenRead | persistence/aw-save/src/lib.rs:236-306 | reading a written file gives schema version 2 and the decompressed payload, whatever follows it |
| SaveFormat.ReadAccepts | persistence/aw-save/src/lib.rs:278-306 | every well-formed file is read |
| SaveFormat.HeaderFields | persistence/aw-save/src/lib.rs:244-251 | each header field reads back from its offset |
| SaveFormat.CorruptionDetected | persistence/aw-save/src/lib.rs:294-299 | a payload with another CRC is rejected with both CRCs |
| SaveFormat.OtherCodecRejected | persistence/aw-save/src/lib.rs:301-304 | any codec but 1 is rejected |
| SaveBundle.IntoV2 | persistence/aw-save/src/lib.rs:165-177 | the upgrade keeps every field, adds the schema and fresh id, and turns the optional companion into a list of at most one |
| SaveBundle.IntoV2Reversible | persistence/aw-save/src/lib.rs:165-177 | the V1 bundle can be recovered from the V2 one |
| SaveBundle.DecodeBundle | persistence/aw-save/src/lib.rs:264-274 | only versions 1 and 2 decode; others are UnknownVersion; a V1 result carries the current schema and the fresh id |
| SaveBundle.LegacyLoads | persistence/aw-save/src/lib.rs:268-271 | a decodable V1 blob loads as its upgrade |
| SaveIndex.Sanitize | persistence/aw-save/src/lib.rs:310-314 | characters other than ASCII letters, digits, '-' and '_' become '_' |
| SaveIndex.SanitizeLaws | persistence/aw-save/src/lib.rs:310-314 | the result is all allowed characters, sanitizing is idempotent, and clean names are unchanged |
| SaveIndex.SavedFileIsCandidate | persistence/aw-save/src/lib.rs:54-70 | the name a save writes is found for its slot |
| SaveIndex.LatestSlot | persistence/aw-save/src/lib.rs:63-73 | returns the lexicographically greatest .awsv name with the slot prefix, or "no save for slot" exactly when none exists |
| SaveIndex.Insert | persistence/aw-save/src/lib.rs:203 | insertion adds exactly the entry |
| SaveIndex.SortByKey | persistence/aw-save/src/lib.rs:203 | the sort is a permutation |
| SaveIndex.InsertSorted | persistence/aw-save/src/lib.rs:203 | insertion keeps a list sorted by (slot, created) |
| SaveIndex.SortSorted | persistence/aw-save/src/lib.rs:203 | the sort output is sorted by (slot, created) |
| SaveIndex.Without | persistence/aw-save/src/lib.rs:194 | the retained entries come from the list and none carries the id |
| SaveIndex.UpdateIndex | persistence/aw-save/src/lib.rs:192-203 | the loop computes retain, push, sort |
| SaveIndex.UpdatedIndexLaws | persistence/aw-save/src/lib.rs:192-203 | the new index is sorted, holds the new entry and is a permutation of the retained entries plus it; unique ids stay unique |
| BuildManifest.NormalizeRelLaws | tools/aw_build/src/main.rs:135 | normalised paths have no backslash, keep other characters and are stable |
| BuildManifest.Changed | tools/aw_build/src/main.rs:93-95 | an entry is changed exactly when it is new and no old entry has its path and digest |
| BuildManifest.ChangedConcat | tools/aw_build/src/main.rs:93-95 | the filter keeps the new manifest's order |
| BuildManifest.PatchFiles | tools/aw_build/src/main.rs:93-100 | no patch exactly when nothing changed; otherwise the non-empty changed list |
| BuildManifest.IdenticalFilesNoPatch | tools/aw_build/src/main.rs:93-100 | identical file lists need no patch |
| BuildManifest.DeletionsAndMoves | tools/aw_build/src/main.rs:93-95 | only new entries are shipped, and a moved file is shipped |
| BuildManifest.OneModifiedFile | tools/aw_build/src/main.rs:218-245 | changing b.txt ships exactly b.txt |
| DebugHud.AddAll | tools/aw_debug/src/lib.rs:104-114 | a log filled from empty never exceeds its capacity |
| DebugHud.AddAllKeepsNewest | tools/aw_debug/src/lib.rs:104-114 | the log keeps exactly the newest events, oldest first |
| DebugHud.EventLog.constructor | tools/aw_debug/src/lib.rs:97-102 | a new log is empty with the given capacity |
| DebugHud.EventLog.Add | tools/aw_debug/src/lib.rs:104-114 | the oldest event goes when full, and the new event comes last |
| DebugHud.Sampled | tools/aw_debug/src/lib.rs:38-41 | the window keeps the newest samples, ending with the new one |
| DebugHud.Fps | tools/aw_debug/src/lib.rs:42-44 | the rate is never negative |
| DebugHud.SumConstant | tools/aw_debug/src/lib.rs:42-43 | equal samples sum to count times the sample |
| DebugHud.SteadyFrameRate | tools/aw_debug/src/lib.rs:42-44 | a steady frame time d gives a rate of 1/d |
| DebugHud.PerfHud.constructor | tools/aw_debug/src/lib.rs:23-33 | a 240-sample window, a zero rate and a 100-event log |
| DebugHud.PerfHud.Frame | tools/aw_debug/src/lib.rs:35-45 | the elapsed time enters the window and the rate is recomputed from it |
| DebugHud.PerfHud.LogEvent | tools/aw_debug/src/lib.rs:79-81 | the event goes to the event log |
| NetProto.XorBits | net/aw-net-proto/src/lib.rs:126-127 | the exclusive or of n-bit values fits in n bits |
| NetProto.LeBytes | net/aw-net-proto/src/lib.rs:123-124 | the little-endian encoding has n bytes |
| NetProto.Mask | net/aw-net-proto/src/lib.rs:125-128 | each byte is xored with the hint byte at its index |
| NetProto.Signature | net/aw-net-proto/src/lib.rs:117-130 | the signature is 16 bytes |
| NetProto.Sign16 | net/aw-net-proto/src/lib.rs:117-130 | the two loops compute the signature of the input's hash: its bytes masked by the hint, then its complement's bytes masked |
| NetProto.XorBitsTwice | net/aw-net-proto/src/lib.rs:125-128 | masking twice restores the value |
| NetProto.XorBitsComplement | net/aw-net-proto/src/lib.rs:124-127 | masked complements xor to all ones |
| NetProto.LeBytesComplement | net/aw-net-proto/src/lib.rs:124 | the bytes of !h are 255 minus the bytes of h |
| NetProto.LeBytesInjective | net/aw-net-proto/src/lib.rs:123 | distinct hashes have distinct encodings |
| NetProto.HalvesComplement | net/aw-net-proto/src/lib.rs:123-128 | the two halves xor to 0xFF at each index |
| NetProto.HintRecoversHash | net/aw-net-proto/src/lib.rs:123-128 | unmasking the first half gives the hash's bytes |
| NetProto.SignatureDeterminesHash | net/aw-net-proto/src/lib.rs:123-128 | equal first halves under one hint mean equal hashes |

## Left out

- **Floating point.** `f32` rounding and NaN are not modelled: reals are exact, and `as i32` truncates toward zero with no saturation.
- **Integer widths.** `i32` and `u32` arithmetic is unbounded, with no overflow panic or wrap. The exceptions are the save header's length field (taken modulo 2^32) and the u64 signature hash.
- **Hash iteration order.** `HashMap`/`HashSet` order is not modelled. Functions whose output order depends on it return sets or maps (`all_of_team`, `enemies_of`, the input dispatch, NPC updates).
- **A\* tie-breaking.** `BinaryHeap` tie-breaking is abstracted: a pop takes some node of least f. The unused `seen` set of `astar_path` is not modelled.
- **Lower-casing.** Case-insensitive matching covers ASCII letters only.
- **Decoding and external computations.** JSON and postcard decoding, SHA-256, CRC-32, LZ4, `DefaultHasher` and the random number generator are not modelled. Their results are parameters or given functions.
- **Other crates.** Physics, rendering, audio, UI drawing and the network transport are not modelled. No core operation depends on them.
- **Director plan application.** `apply_director_plan` (rasterising and applying director ops against the budget) is not part of this model.
- **Gamepad polling.** gilrs polling is not modelled; button and axis events are given to `HandleButton` and `HandleAxis` directly.
- **Craft success chance.** `CraftBench::success_chance` is not part of this model.
- **Migration resave.** The resave write of `migrate_file_to_latest` is not modelled.
- **Side effects.** File I/O and the log and command sinks are not modelled. Log lines and engine commands are returned as values.
- **NPC planner.** Only the mock planner is modelled. The NPC profile is reduced to id, role, display name and home.
- **Clocks.** Instant clocks are parameters (`now`). The HUD and event-log `ui` drawing is not modelled.
- **Build tool I/O.** The aw_build bundle, zip and file-search I/O is not modelled.
- **Network wire format.** `new_room_id` is random, and the message encoding and decoding (postcard, bincode, LZ4) is serde work; neither is modelled.
- **Profile files.** The companion profile's `save_to_file` and `load_from_file` are file I/O and JSON, and are not modelled.
- **Save listing.** `list_saves`, `read_index` and `scan_dir_for_meta` read the save directory and its JSON index, and are not modelled. The list update that `write_or_update_index` performs is modelled.
- **Path ordering.** Rust orders `Path` values by path component; the model compares the file names as character sequences.
- Validation.ValidateAndExecute: requires every step's actor components up front, including for steps after a failure. The source panics on a missing actor component (`unwrap`) only when it reaches that step.
- Validation.Run: requires the actor components of every step, as Validation.ValidateAndExecute does.
- Validation.ApplyStep: asks for the actor's ammunition on a cover-fire step even when the target is gone, where the source returns before reading it.
- Validation.ExecuteStep: has the same requirement as Validation.ApplyStep.
- Validation.StepReady: a throw step asks for the actor's cooldown table even when the line of sight is blocked, where the source returns before reading it.
- PhaseDirecting.PhaseDirector.Step: requires at least one phase; the source indexes the phase list and panics when it is empty.
- Combat.AttackState.Tick: takes the distance between attacker and target as a number; the `Vec3` positions and their Euclidean distance are not modelled. It also requires a running combo to point at a step of its chain, so a combo started on an empty chain is excluded; the source panics there when it indexes `self.chain.steps[self.idx]`.
- DebugHud.EventLog.Add: requires a full log to hold at least one event, so a log of capacity 0 is excluded (and `Added`, `AddAll` and `AddAllKeepsNewest` assume the same); the source panics there in `self.events.remove(0)`.
- Perception.BuildSnapshot: requires the player's and companion's components; the source panics (`unwrap`) when they are missing.
- NpcRuntime.NpcManager.Update: requires every guard that steps aside to see the player's position. The source unwraps it (runtime.rs:103) and panics otherwise.
- Crafting.PayDistinct: covers only recipes whose costed kinds are distinct and all held. Repeated kinds and zero costs of missing kinds are shown by two concrete lemmas instead.
- SaveIndex.FileName: spells the save id in decimal, where `save` formats the UUID in its hyphenated hexadecimal form; only the slot prefix and the `.awsv` suffix matter to the properties proved.
- Items.Infuse: takes and returns the item as a value; the in-place update through `&mut Item` is not modelled.
- Dialogue.DialogueState.constructor: requires the start id to be a node id; the source panics (`expect("start")`) otherwise.
- NetProto.Sign16: bytes and the u64 hash are bounded integers rather than machine words, and the std `DefaultHasher` is a parameter.
