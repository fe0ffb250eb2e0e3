/** The input manager: turns key, mouse, touch and gamepad events into held
    and just-pressed actions and two analogue axes, through a table of
    bindings. */
module Input {
  import opened Base

  datatype InputContext = Gameplay | UI

  datatype Action =
    | MoveForward | MoveBackward | MoveLeft | MoveRight | Jump | Crouch | Sprint | Interact
    | AttackLight | AttackHeavy | Ability1 | Ability2
    | OpenInventory | OpenMap | OpenQuests | OpenCrafting | OpenMenu
    | UiAccept | UiBack | UiUp | UiDown | UiLeft | UiRight

  /** A physical key, by its code name (`"KeyW"`, `"Escape"`, ...). */
  type KeyCode = string

  datatype MouseButton = LeftButton | RightButton | MiddleButton | BackButton | ForwardButton | OtherButton(code: nat)

  /** The gamepad buttons bindings name. */
  datatype GamepadButton =
    | South | East | West | North | L1 | R1 | L2 | R2 | Select | Start | LStick | RStick
    | DPadUp | DPadDown | DPadLeft | DPadRight

  datatype AxisKind = LeftX | LeftY | RightX | RightY | LT | RT

  datatype Binding = Binding(key: Option<KeyCode>, mouse: Option<MouseButton>, gamepad: Option<GamepadButton>)

  datatype AxisBinding = AxisBinding(axis: AxisKind, invert: bool, deadzone: real)

  datatype BindingSet = BindingSet(actions: map<Action, Binding>,
                                   moveAxes: (AxisBinding, AxisBinding),
                                   lookAxes: (AxisBinding, AxisBinding))

  datatype Axis2 = Axis2(x: real, y: real)

  datatype Vec2 = Vec2(x: real, y: real)

  datatype TouchPhase = Started | Moved | Ended | Cancelled

  /** The window events the manager reacts to; a key without a known code
      and every other event fall under `OtherEvent`. */
  datatype WindowEvent =
    | KeyboardInput(pressed: bool, code: KeyCode)
    | MouseInput(pressed: bool, button: MouseButton)
    | Touch(phase: TouchPhase, id: nat, location: Vec2)
    | OtherEvent

  /** The buttons the gamepad driver reports. */
  datatype PadButton =
    | PadSouth | PadEast | PadNorth | PadWest | PadC | PadZ
    | LeftTrigger | LeftTrigger2 | RightTrigger | RightTrigger2
    | PadSelect | PadStart | PadMode | LeftThumb | RightThumb
    | PadDPadUp | PadDPadDown | PadDPadLeft | PadDPadRight | PadUnknown

  /** The axes the gamepad driver reports. */
  datatype PadAxis = LeftStickX | LeftStickY | LeftZ | RightStickX | RightStickY | RightZ | DPadX | DPadY | AxisUnknown

  /** The default bindings: keyboard keys for movement, menus and interface
      navigation, the mouse buttons for attacks; Escape is bound both to the
      menu and to going back. The move and look Y axes are inverted. */
  function DefaultBindings(): BindingSet {
    var k := (code: KeyCode) => Binding(Some(code), None, None);
    var m := (b: MouseButton) => Binding(None, Some(b), None);
    BindingSet(
      map[MoveForward := k("KeyW"), MoveBackward := k("KeyS"), MoveLeft := k("KeyA"), MoveRight := k("KeyD"),
          Jump := k("Space"), Crouch := k("ControlLeft"), Sprint := k("ShiftLeft"), Interact := k("KeyE"),
          AttackLight := m(LeftButton), AttackHeavy := m(RightButton),
          OpenInventory := k("KeyI"), OpenMap := k("KeyM"), OpenQuests := k("KeyJ"), OpenCrafting := k("KeyC"),
          OpenMenu := k("Escape"),
          UiAccept := k("Enter"), UiBack := k("Escape"), UiUp := k("ArrowUp"), UiDown := k("ArrowDown"),
          UiLeft := k("ArrowLeft"), UiRight := k("ArrowRight")],
      (AxisBinding(LeftX, false, 0.15), AxisBinding(LeftY, true, 0.15)),
      (AxisBinding(RightX, false, 0.12), AxisBinding(RightY, true, 0.12)))
  }

  /** The actions bound to a key, a mouse button, or a gamepad button. */
  function KeyActions(b: BindingSet, code: KeyCode): set<Action> {
    set a | a in b.actions && b.actions[a].key == Some(code)
  }

  function MouseActions(b: BindingSet, button: MouseButton): set<Action> {
    set a | a in b.actions && b.actions[a].mouse == Some(button)
  }

  function PadActions(b: BindingSet, button: GamepadButton): set<Action> {
    set a | a in b.actions && b.actions[a].gamepad == Some(button)
  }

  /** The driver's buttons as bindings name them: the first trigger pair is
      bound as L2/R2 and the second as L1/R1; C, Z, Mode and unknown buttons
      have no binding name. */
  function MapButton(b: PadButton): Option<GamepadButton> {
    match b
    case PadSouth => Some(South)
    case PadEast => Some(East)
    case PadWest => Some(West)
    case PadNorth => Some(North)
    case LeftTrigger => Some(L2)
    case RightTrigger => Some(R2)
    case LeftTrigger2 => Some(L1)
    case RightTrigger2 => Some(R1)
    case PadSelect => Some(Select)
    case PadStart => Some(Start)
    case LeftThumb => Some(LStick)
    case RightThumb => Some(RStick)
    case PadDPadUp => Some(DPadUp)
    case PadDPadDown => Some(DPadDown)
    case PadDPadLeft => Some(DPadLeft)
    case PadDPadRight => Some(DPadRight)
    case _ => None
  }

  /** An axis reading through its binding: negated if inverted, then zero
      inside the deadzone. */
  function ApplyAxis(bind: AxisBinding, v: real): (r: real)
    ensures var t := if bind.invert then -v else v;
      (r == 0.0 && AbsReal(t) < bind.deadzone) || (r == t && AbsReal(t) >= bind.deadzone)
  {
    var t := if bind.invert then -v else v;
    if AbsReal(t) < bind.deadzone then 0.0 else t
  }

  function AbsReal(x: real): real {
    if x < 0.0 then -x else x
  }

  /** The held and just-pressed action sets. */
  datatype Buttons = Buttons(pressed: set<Action>, just: set<Action>)

  /** `set_action` on the two sets: pressing adds the action to the held
      set, and to the just-pressed set when it was not already held;
      releasing only removes it from the held set. */
  function SetActionSpec(b: Buttons, a: Action, down: bool): Buttons {
    if down then Buttons(b.pressed + {a}, if a in b.pressed then b.just else b.just + {a})
    else Buttons(b.pressed - {a}, b.just)
  }

  /** `set_action` applied to every action of `acts`. */
  function SetAll(b: Buttons, acts: set<Action>, down: bool): Buttons {
    if down then Buttons(b.pressed + acts, b.just + (acts - b.pressed))
    else Buttons(b.pressed - acts, b.just)
  }

  class InputManager {
    var context: InputContext
    var bindings: BindingSet
    var pressed: set<Action>
    var justPressed: set<Action>
    var moveAxis: Axis2
    var lookAxis: Axis2
    var lookSensitivity: real
    var touchActive: bool
    var touchId: Option<nat>
    var touchOrigin: Option<Vec2>
    var touchCurrent: Option<Vec2>

    function Held(): Buttons
      reads this
    {
      Buttons(pressed, justPressed)
    }

    /** No touch in progress, or one with its id and both positions. */
    predicate TouchValid()
      reads this
    {
      (touchActive ==> touchId.Some? && touchOrigin.Some? && touchCurrent.Some?)
      && (touchOrigin.None? <==> touchCurrent.None?)
    }

    /** `InputManager::new`: nothing held, axes at rest, look sensitivity
        0.12, no touch. */
    constructor (context: InputContext, bindings: BindingSet)
      ensures this.context == context && this.bindings == bindings
      ensures pressed == {} && justPressed == {}
      ensures moveAxis == Axis2(0.0, 0.0) && lookAxis == Axis2(0.0, 0.0) && lookSensitivity == 0.12
      ensures !touchActive && touchId == None && touchOrigin == None && touchCurrent == None
      ensures TouchValid()
    {
      this.context, this.bindings := context, bindings;
      pressed, justPressed := {}, {};
      moveAxis, lookAxis := Axis2(0.0, 0.0), Axis2(0.0, 0.0);
      lookSensitivity := 0.12;
      touchActive, touchId, touchOrigin, touchCurrent := false, None, None, None;
    }

    /** `set_context`. */
    method SetContext(cx: InputContext)
      modifies this
      ensures context == cx && Held() == old(Held()) && bindings == old(bindings)
      ensures moveAxis == old(moveAxis) && lookAxis == old(lookAxis) && lookSensitivity == old(lookSensitivity)
      ensures touchActive == old(touchActive) && touchId == old(touchId)
      ensures touchOrigin == old(touchOrigin) && touchCurrent == old(touchCurrent)
    {
      context := cx;
    }

    /** `is_down`. */
    function IsDown(a: Action): (r: bool)
      reads this
      ensures r <==> a in pressed
    {
      a in pressed
    }

    /** `just_pressed`. */
    function JustPressed(a: Action): (r: bool)
      reads this
      ensures r <==> a in justPressed
    {
      a in justPressed
    }

    /** `clear_frame`: forgets the just-pressed actions; held ones stay. */
    method ClearFrame()
      modifies this
      ensures justPressed == {} && pressed == old(pressed)
      ensures context == old(context) && bindings == old(bindings) && moveAxis == old(moveAxis) && lookAxis == old(lookAxis)
      ensures touchActive == old(touchActive) && touchId == old(touchId)
      ensures touchOrigin == old(touchOrigin) && touchCurrent == old(touchCurrent) && lookSensitivity == old(lookSensitivity)
    {
      justPressed := {};
    }

    /** `set_action`. */
    method SetAction(a: Action, down: bool)
      modifies this
      ensures Held() == SetActionSpec(old(Held()), a, down)
      ensures context == old(context) && bindings == old(bindings) && moveAxis == old(moveAxis) && lookAxis == old(lookAxis)
      ensures touchActive == old(touchActive) && touchId == old(touchId)
      ensures touchOrigin == old(touchOrigin) && touchCurrent == old(touchCurrent) && lookSensitivity == old(lookSensitivity)
    {
      if down {
        if a !in pressed {
          justPressed := justPressed + {a};
        }
        pressed := pressed + {a};
      } else {
        pressed := pressed - {a};
      }
    }

    /** `set_action` for every bound action an event selected, one by one. */
    method SetEach(acts: set<Action>, down: bool)
      modifies this
      ensures Held() == SetAll(old(Held()), acts, down)
      ensures context == old(context) && bindings == old(bindings) && moveAxis == old(moveAxis) && lookAxis == old(lookAxis)
      ensures touchActive == old(touchActive) && touchId == old(touchId)
      ensures touchOrigin == old(touchOrigin) && touchCurrent == old(touchCurrent) && lookSensitivity == old(lookSensitivity)
    {
      var todo := acts;
      while todo != {}
        invariant todo <= acts
        invariant Held() == SetAll(old(Held()), acts - todo, down)
        invariant context == old(context) && bindings == old(bindings) && moveAxis == old(moveAxis) && lookAxis == old(lookAxis)
        invariant touchActive == old(touchActive) && touchId == old(touchId)
        invariant touchOrigin == old(touchOrigin) && touchCurrent == old(touchCurrent) && lookSensitivity == old(lookSensitivity)
        decreases todo
      {
        var a :| a in todo;
        SetAction(a, down);
        todo := todo - {a};
      }
    }

    /** `process_window_event`: a key or mouse button sets every action
        bound to it; a touch drives the virtual joystick, and ending or
        cancelling it with its own id releases it and recentres the move
        axis; other events change nothing. */
    method ProcessWindowEvent(ev: WindowEvent)
      requires TouchValid()
      modifies this
      ensures TouchValid()
      ensures ev.KeyboardInput? ==> Held() == SetAll(old(Held()), KeyActions(bindings, ev.code), ev.pressed)
      ensures ev.MouseInput? ==> Held() == SetAll(old(Held()), MouseActions(bindings, ev.button), ev.pressed)
      ensures !ev.KeyboardInput? && !ev.MouseInput? ==> Held() == old(Held())
      ensures ev.Touch? && ev.phase == Started ==>
        touchActive && touchId == Some(ev.id) && touchOrigin == Some(ev.location) && touchCurrent == Some(ev.location)
        && moveAxis == old(moveAxis)
      ensures ev.Touch? && ev.phase == Moved ==>
        touchActive == old(touchActive) && touchId == old(touchId) && touchOrigin == old(touchOrigin)
        && touchCurrent == (if old(touchActive) && old(touchId) == Some(ev.id) then Some(ev.location)
                            else old(touchCurrent))
        && moveAxis == old(moveAxis)
      ensures ev.Touch? && (ev.phase == Ended || ev.phase == Cancelled) ==>
        if old(touchId) == Some(ev.id) then
          !touchActive && touchId == None && touchOrigin == None && touchCurrent == None && moveAxis == Axis2(0.0, 0.0)
        else
          touchActive == old(touchActive) && touchId == old(touchId) && touchOrigin == old(touchOrigin)
          && touchCurrent == old(touchCurrent) && moveAxis == old(moveAxis)
      ensures !ev.Touch? ==>
        (touchActive == old(touchActive) && touchId == old(touchId)
         && touchOrigin == old(touchOrigin) && touchCurrent == old(touchCurrent) && moveAxis == old(moveAxis))
      ensures context == old(context) && bindings == old(bindings) && lookAxis == old(lookAxis)
      ensures lookSensitivity == old(lookSensitivity)
    {
      match ev
      case KeyboardInput(down, code) =>
        SetEach(KeyActions(bindings, code), down);
      case MouseInput(down, button) =>
        SetEach(MouseActions(bindings, button), down);
      case Touch(phase, id, location) =>
        match phase {
          case Started =>
            touchActive := true;
            touchId := Some(id);
            touchOrigin := Some(location);
            touchCurrent := touchOrigin;
          case Moved =>
            if touchActive && touchId == Some(id) {
              touchCurrent := Some(location);
            }
          case _ =>
            if touchId == Some(id) {
              touchActive := false;
              touchId := None;
              touchOrigin := None;
              touchCurrent := None;
              moveAxis := Axis2(0.0, 0.0);
            }
        }
      case OtherEvent =>
    }

    /** The virtual joystick: with a touch origin and current position, the
        move axis is their offset over 80 pixels, y flipped, each component
        clamped to [-1, 1]. */
    method TouchJoystick()
      modifies this
      ensures touchOrigin.Some? && touchCurrent.Some? ==>
        var d := Vec2((touchCurrent.value.x - touchOrigin.value.x) / 80.0,
                      (touchCurrent.value.y - touchOrigin.value.y) / 80.0);
        moveAxis == Axis2(ClampReal(d.x, -1.0, 1.0), ClampReal(-d.y, -1.0, 1.0))
      ensures !(touchOrigin.Some? && touchCurrent.Some?) ==> moveAxis == old(moveAxis)
      ensures -1.0 <= old(moveAxis).x <= 1.0 && -1.0 <= old(moveAxis).y <= 1.0 ==>
        -1.0 <= moveAxis.x <= 1.0 && -1.0 <= moveAxis.y <= 1.0
      ensures Held() == old(Held()) && touchOrigin == old(touchOrigin) && touchCurrent == old(touchCurrent)
      ensures touchActive == old(touchActive) && touchId == old(touchId) && lookAxis == old(lookAxis)
      ensures context == old(context) && bindings == old(bindings) && lookSensitivity == old(lookSensitivity)
    {
      if touchOrigin.Some? && touchCurrent.Some? {
        var o := touchOrigin.value;
        var c := touchCurrent.value;
        var dx := (c.x - o.x) / 80.0;
        var dy := (c.y - o.y) / 80.0;
        moveAxis := Axis2(ClampReal(dx, -1.0, 1.0), ClampReal(-dy, -1.0, 1.0));
      }
    }

    /** `handle_button`: a mapped button sets every action bound to it; an
        unmapped one changes nothing. */
    method HandleButton(b: PadButton, down: bool)
      modifies this
      ensures MapButton(b).Some? ==> Held() == SetAll(old(Held()), PadActions(bindings, MapButton(b).value), down)
      ensures MapButton(b).None? ==> Held() == old(Held())
      ensures context == old(context) && bindings == old(bindings) && moveAxis == old(moveAxis) && lookAxis == old(lookAxis)
      ensures lookSensitivity == old(lookSensitivity) && touchActive == old(touchActive) && touchId == old(touchId)
      ensures touchOrigin == old(touchOrigin) && touchCurrent == old(touchCurrent)
    {
      var gb := MapButton(b);
      if gb.Some? {
        SetEach(PadActions(bindings, gb.value), down);
      }
    }

    /** `handle_axis`: the left stick drives the move axis and the right
        stick the look axis, each component through its own binding; other
        axes change nothing. */
    method HandleAxis(a: PadAxis, v: real)
      modifies this
      ensures a == LeftStickX ==> moveAxis == old(moveAxis).(x := ApplyAxis(bindings.moveAxes.0, v)) && lookAxis == old(lookAxis)
      ensures a == LeftStickY ==> moveAxis == old(moveAxis).(y := ApplyAxis(bindings.moveAxes.1, v)) && lookAxis == old(lookAxis)
      ensures a == RightStickX ==> lookAxis == old(lookAxis).(x := ApplyAxis(bindings.lookAxes.0, v)) && moveAxis == old(moveAxis)
      ensures a == RightStickY ==> lookAxis == old(lookAxis).(y := ApplyAxis(bindings.lookAxes.1, v)) && moveAxis == old(moveAxis)
      ensures a !in {LeftStickX, LeftStickY, RightStickX, RightStickY} ==>
        moveAxis == old(moveAxis) && lookAxis == old(lookAxis)
      ensures Held() == old(Held()) && context == old(context) && bindings == old(bindings)
      ensures lookSensitivity == old(lookSensitivity) && touchActive == old(touchActive) && touchId == old(touchId)
      ensures touchOrigin == old(touchOrigin) && touchCurrent == old(touchCurrent)
    {
      match a
      case LeftStickX => moveAxis := moveAxis.(x := ApplyAxis(bindings.moveAxes.0, v));
      case LeftStickY => moveAxis := moveAxis.(y := ApplyAxis(bindings.moveAxes.1, v));
      case RightStickX => lookAxis := lookAxis.(x := ApplyAxis(bindings.lookAxes.0, v));
      case RightStickY => lookAxis := lookAxis.(y := ApplyAxis(bindings.lookAxes.1, v));
      case _ =>
    }
  }

  /** Pressing every selected action one at a time is the same as the
      one-step description: the selection is held, and the just-pressed set
      gains exactly those not held before. */
  lemma SetAllStep(b: Buttons, acts: set<Action>, a: Action, down: bool)
    requires a !in acts
    ensures SetActionSpec(SetAll(b, acts, down), a, down) == SetAll(b, acts + {a}, down)
  {
  }

  /** Pressing an action registers a fresh press only if it was not held;
      pressing twice is pressing once; releasing undoes the hold but keeps
      the fresh press until the frame is cleared. */
  lemma SetActionLaws(b: Buttons, a: Action)
    ensures SetActionSpec(SetActionSpec(b, a, true), a, true) == SetActionSpec(b, a, true)
    ensures (a in SetActionSpec(b, a, true).just) <==> (a in b.just || a !in b.pressed)
    ensures SetActionSpec(SetActionSpec(b, a, true), a, false).pressed == b.pressed - {a}
    ensures a !in b.pressed ==> a in SetActionSpec(SetActionSpec(b, a, true), a, false).just
  {
  }

  /** A reading inside the deadzone is dropped, and a reading never grows
      in magnitude. */
  lemma ApplyAxisBounds(bind: AxisBinding, v: real)
    ensures AbsReal(ApplyAxis(bind, v)) <= AbsReal(v)
    ensures ApplyAxis(bind, v) == 0.0 || AbsReal(ApplyAxis(bind, v)) >= bind.deadzone
  {
  }

  /** With the default bindings, Escape is bound to both the menu and going
      back, so one press sets both. */
  lemma EscapeOpensMenuAndGoesBack()
    ensures KeyActions(DefaultBindings(), "Escape") == {OpenMenu, UiBack}
  {
  }
}
