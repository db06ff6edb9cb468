/** The frame loop's event handling: a pure (state, event) -> state transition.
    Only key-up events dispatch keys; a quit event stops the loop; every other event is ignored. */
module Input {
  import opened Modes

  datatype Scancode = F1 | F2 | F3 | F4 | F5 | F6 | F7 | F8 | F9 | F10 | F11 | OtherKey

  datatype Event = Quit | KeyUp(key: Scancode) | OtherEvent

  /** The loop's mutable state: the renderer's switches and the `isLooping` flag. */
  datatype LoopState = LoopState(renderer: RendererState, looping: bool)

  /** The key-up dispatch. F3 and F4 act only in Hardware mode, F5, F6 and F7 only in Software
      mode; F8 (bounding box, Software only), F9 (cull mode) and F11 (FPS printing) reach
      handlers with empty bodies. */
  function OnKeyUp(s: RendererState, key: Scancode): (r: RendererState)
    ensures key != F1 ==> r.system == s.system
    ensures Live(s) ==> Live(r)
    ensures s.techniqueSwitches <= r.techniqueSwitches <= s.techniqueSwitches + 1
    ensures r.showBoundingBox == s.showBoundingBox
  {
    match key
    case F1 => ToggleSystemMode(s)
    case F2 => ToggleRotation(s)
    case F3 => if s.system == Hardware then ToggleFireMesh(s) else s
    case F4 => if s.system == Hardware then SwitchTechnique(s) else s
    case F5 => if s.system == Software then SwitchColorMode(s) else s
    case F6 => if s.system == Software then ToggleNormals(s) else s
    case F7 => if s.system == Software then SwitchRenderMode(s) else s
    case F8 => s
    case F9 => s
    case F10 => ToggleUniformClearColor(s)
    case F11 => s
    case OtherKey => s
  }

  function OnEvent(l: LoopState, e: Event): (r: LoopState)
    ensures e == Quit ==> !r.looping && r.renderer == l.renderer
    ensures e == OtherEvent ==> r == l
    ensures e.KeyUp? ==> r.looping == l.looping
  {
    match e
    case Quit => l.(looping := false)
    case KeyUp(key) => l.(renderer := OnKeyUp(l.renderer, key))
    case OtherEvent => l
  }

  /** Drains one frame's event queue in order (the inner `SDL_PollEvent` loop). */
  function PollEvents(l: LoopState, events: seq<Event>): (r: LoopState)
    ensures (forall i :: 0 <= i < |events| ==> !events[i].KeyUp?) ==> r.renderer == l.renderer
    ensures !l.looping ==> !r.looping
    decreases |events|
  {
    if |events| == 0 then l else PollEvents(OnEvent(l, events[0]), events[1..])
  }

  /** F1 toggles the system mode and F2 the rotation in either system mode. */
  lemma GlobalKeys(s: RendererState)
    ensures OnKeyUp(s, F1).system == NextSystemMode(s.system)
    ensures OnKeyUp(s, F1) == s.(system := OnKeyUp(s, F1).system)
    ensures OnKeyUp(s, F2).rotating == !s.rotating
    ensures OnKeyUp(s, F2) == s.(rotating := !s.rotating)
    ensures OnKeyUp(s, F10).clearColorToggled == !s.clearColorToggled
    ensures OnKeyUp(s, F10) == s.(clearColorToggled := !s.clearColorToggled)
  {
  }

  /** F3 and F4 change the state exactly when the system mode is Hardware. */
  lemma HardwareOnlyKeys(s: RendererState)
    ensures OnKeyUp(s, F3) != s <==> s.system == Hardware
    ensures OnKeyUp(s, F4) != s <==> s.system == Hardware
    ensures s.system == Hardware ==> OnKeyUp(s, F3).showFireMesh == !s.showFireMesh
    ensures s.system == Hardware ==> OnKeyUp(s, F4).techniqueSwitches == s.techniqueSwitches + 1
  {
  }

  /** F5, F6 and F7 change the state exactly when the system mode is Software. */
  lemma SoftwareOnlyKeys(s: RendererState)
    ensures OnKeyUp(s, F5) != s <==> s.system == Software
    ensures OnKeyUp(s, F6) != s <==> s.system == Software
    ensures OnKeyUp(s, F7) != s <==> s.system == Software
    ensures s.system == Software ==> OnKeyUp(s, F5).color == NextColorMode(s.color)
    ensures s.system == Software ==> OnKeyUp(s, F6).useNormals == !s.useNormals
    ensures s.system == Software ==> OnKeyUp(s, F7).render == NextRenderMode(s.render)
  {
  }

  /** F8, F9, F11 and unbound keys leave the state unchanged. */
  lemma InertKeys(s: RendererState)
    ensures OnKeyUp(s, F8) == s
    ensures OnKeyUp(s, F9) == s
    ensures OnKeyUp(s, F11) == s
    ensures OnKeyUp(s, OtherKey) == s
  {
  }

  /** No key takes a mode out of range. */
  lemma {:induction false} KeysPreserveLive(l: LoopState, events: seq<Event>)
    requires Live(l.renderer)
    ensures Live(PollEvents(l, events).renderer)
    decreases |events|
  {
    if |events| > 0 {
      var l' := OnEvent(l, events[0]);
      assert Live(l'.renderer) by {
        if events[0].KeyUp? {
          var k := events[0].key;
          assert l'.renderer == OnKeyUp(l.renderer, k);
        }
      }
      KeysPreserveLive(l', events[1..]);
    }
  }

  /** Once a quit event has been seen the loop stays stopped for the rest of the queue;
      without one the loop flag is untouched. */
  lemma {:induction false} QuitStopsLoop(l: LoopState, events: seq<Event>)
    ensures PollEvents(l, events).looping <==> l.looping && Quit !in events
    decreases |events|
  {
    if |events| > 0 {
      QuitStopsLoop(OnEvent(l, events[0]), events[1..]);
      assert events == [events[0]] + events[1..];
    }
  }

  /** From the state after construction, the modes stay in range whatever events arrive. */
  lemma StartupModesStayLive(s: RendererState, events: seq<Event>)
    requires Initial(s)
    ensures Live(PollEvents(LoopState(s, true), events).renderer)
  {
    InitialIsLive(s);
    KeysPreserveLive(LoopState(s, true), events);
  }
}
