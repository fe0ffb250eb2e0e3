/** The fixed-step simulation driver. */
module Sim {
  import opened WorldStore

  datatype SimConfig = SimConfig(dt: real)

  /** `step`: one tick of the configured length. */
  method Step(w: World, cfg: SimConfig)
    modifies w
    ensures w.State() == TickState(old(w.State()), cfg.dt)
  {
    w.Tick(cfg.dt);
  }
}
