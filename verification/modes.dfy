/** The renderer's mode enumerations, its boolean switches, and the handlers that cycle or flip them.
    Each enumeration keeps its trailing END sentinel, as in the C++ `enum class`, so that
    "cycling never produces END" is a property of the handlers rather than of the type. */
module Modes {

  datatype SystemMode = Hardware | Software | SystemModeEnd {
    function Ordinal(): nat
    {
      match this
      case Hardware => 0
      case Software => 1
      case SystemModeEnd => 2
    }
    predicate Live() { this != SystemModeEnd }
  }

  datatype RenderMode = Texture | DepthBuffer | RenderModeEnd {
    function Ordinal(): nat
    {
      match this
      case Texture => 0
      case DepthBuffer => 1
      case RenderModeEnd => 2
    }
    predicate Live() { this != RenderModeEnd }
  }

  datatype ColorMode = ObservedArea | Diffuse | Specular | Combined | ColorModeEnd {
    function Ordinal(): nat
    {
      match this
      case ObservedArea => 0
      case Diffuse => 1
      case Specular => 2
      case Combined => 3
      case ColorModeEnd => 4
    }
    predicate Live() { this != ColorModeEnd }
  }

  /** `static_cast<SystemMode>(k)` for an ordinal up to and including END. */
  function SystemModeOf(k: nat): (m: SystemMode)
    requires k <= SystemModeEnd.Ordinal()
    ensures m.Ordinal() == k
  {
    if k == 0 then Hardware else if k == 1 then Software else SystemModeEnd
  }

  function RenderModeOf(k: nat): (m: RenderMode)
    requires k <= RenderModeEnd.Ordinal()
    ensures m.Ordinal() == k
  {
    if k == 0 then Texture else if k == 1 then DepthBuffer else RenderModeEnd
  }

  function ColorModeOf(k: nat): (m: ColorMode)
    requires k <= ColorModeEnd.Ordinal()
    ensures m.Ordinal() == k
  {
    if k == 0 then ObservedArea
    else if k == 1 then Diffuse
    else if k == 2 then Specular
    else if k == 3 then Combined
    else ColorModeEnd
  }

  /** `ToggleSystemMode`: (mode + 1) % END. The result is always a live mode, and a live mode always changes. */
  function NextSystemMode(m: SystemMode): (r: SystemMode)
    ensures r.Live()
    ensures m.Live() ==> r != m
  {
    SystemModeOf((m.Ordinal() + 1) % SystemModeEnd.Ordinal())
  }

  /** `SwitchRenderMode`: (mode + 1) % END. */
  function NextRenderMode(m: RenderMode): (r: RenderMode)
    ensures r.Live()
    ensures m.Live() ==> r != m
  {
    RenderModeOf((m.Ordinal() + 1) % RenderModeEnd.Ordinal())
  }

  /** `SwitchColorMode`: (mode + 1) % END. */
  function NextColorMode(m: ColorMode): (r: ColorMode)
    ensures r.Live()
    ensures m.Live() ==> r != m
  {
    ColorModeOf((m.Ordinal() + 1) % ColorModeEnd.Ordinal())
  }

  /** Toggling the system mode twice restores any live mode: there are exactly two of them. */
  lemma SystemModeToggleInvolution(m: SystemMode)
    requires m.Live()
    ensures NextSystemMode(NextSystemMode(m)) == m
    ensures NextSystemMode(m) in {Hardware, Software}
  {
  }

  /** Cycling the render mode alternates between Texture and DepthBuffer. */
  lemma RenderModeAlternates(m: RenderMode)
    requires m.Live()
    ensures NextRenderMode(m) != m
    ensures NextRenderMode(NextRenderMode(m)) == m
    ensures m == Texture <==> NextRenderMode(m) == DepthBuffer
  {
  }

  function ColorModeIterate(m: ColorMode, n: nat): ColorMode
    decreases n
  {
    if n == 0 then m else NextColorMode(ColorModeIterate(m, n - 1))
  }

  /** Cycling the colour mode visits observedArea, Diffuse, Specular, Combined in that order,
      and returns to the start after exactly four steps. */
  lemma ColorModePeriodFour(m: ColorMode)
    requires m.Live()
    ensures NextColorMode(ObservedArea) == Diffuse
    ensures NextColorMode(Diffuse) == Specular
    ensures NextColorMode(Specular) == Combined
    ensures NextColorMode(Combined) == ObservedArea
    ensures ColorModeIterate(m, 4) == m
    ensures forall n :: 0 < n < 4 ==> ColorModeIterate(m, n) != m
  {
    assert NextColorMode(ObservedArea) == ColorModeOf(1 % 4) == Diffuse;
    assert NextColorMode(Diffuse) == ColorModeOf(2 % 4) == Specular;
    assert NextColorMode(Specular) == ColorModeOf(3 % 4) == Combined;
    assert NextColorMode(Combined) == ColorModeOf(4 % 4) == ObservedArea;
    var m1 := NextColorMode(m);
    var m2 := NextColorMode(m1);
    var m3 := NextColorMode(m2);
    assert ColorModeIterate(m, 1) == m1;
    assert ColorModeIterate(m, 2) == m2;
    assert ColorModeIterate(m, 3) == m3;
    assert ColorModeIterate(m, 4) == NextColorMode(m3);
    assert m1 != m && m2 != m && m3 != m && NextColorMode(m3) == m by {
      match m
      case ObservedArea =>
      case Diffuse =>
      case Specular =>
      case Combined =>
    }
  }

  /** The renderer state the input handlers act on. `techniqueSwitches` counts the
      `SwitchTechnique` requests forwarded to the hardware meshes' effects, whose own state
      is outside this model. */
  datatype RendererState = RendererState(
    system: SystemMode,
    render: RenderMode,
    color: ColorMode,
    rotating: bool,
    useNormals: bool,
    showFireMesh: bool,
    clearColorToggled: bool,
    showBoundingBox: bool,
    techniqueSwitches: nat)

  /** The state right after construction: the system mode is set to Software, the flags take
      their member initialisers, and the render and colour modes, which have no initialiser,
      hold some in-range value. */
  predicate Initial(s: RendererState)
  {
    && s.system == Software
    && s.render.Live()
    && s.color.Live()
    && s.rotating
    && s.useNormals
    && s.showFireMesh
    && !s.clearColorToggled
    && !s.showBoundingBox
    && s.techniqueSwitches == 0
  }

  /** All three modes hold one of their named values rather than END. */
  predicate Live(s: RendererState)
  {
    s.system.Live() && s.render.Live() && s.color.Live()
  }

  /** The constructed renderer starts in Software mode with all three modes in range. */
  lemma InitialIsLive(s: RendererState)
    requires Initial(s)
    ensures Live(s) && s.system == Software
  {
  }

  function ToggleSystemMode(s: RendererState): (r: RendererState)
    ensures r.system.Live() && r.system != s.system
    ensures r == s.(system := r.system)
  {
    s.(system := NextSystemMode(s.system))
  }

  function SwitchRenderMode(s: RendererState): (r: RendererState)
    ensures r.render.Live()
    ensures s.render.Live() ==> r.render != s.render
    ensures r == s.(render := r.render)
  {
    s.(render := NextRenderMode(s.render))
  }

  function SwitchColorMode(s: RendererState): (r: RendererState)
    ensures r.color.Live()
    ensures s.color.Live() ==> r.color != s.color
    ensures r == s.(color := r.color)
  {
    s.(color := NextColorMode(s.color))
  }

  function SwitchTechnique(s: RendererState): (r: RendererState)
    ensures r.techniqueSwitches == s.techniqueSwitches + 1
    ensures r == s.(techniqueSwitches := r.techniqueSwitches)
  {
    s.(techniqueSwitches := s.techniqueSwitches + 1)
  }

  function ToggleNormals(s: RendererState): (r: RendererState)
    ensures r.useNormals != s.useNormals
    ensures r == s.(useNormals := r.useNormals)
  {
    s.(useNormals := !s.useNormals)
  }

  function ToggleRotation(s: RendererState): (r: RendererState)
    ensures r.rotating != s.rotating
    ensures r == s.(rotating := r.rotating)
  {
    s.(rotating := !s.rotating)
  }

  function ToggleUniformClearColor(s: RendererState): (r: RendererState)
    ensures r.clearColorToggled != s.clearColorToggled
    ensures r == s.(clearColorToggled := r.clearColorToggled)
  {
    s.(clearColorToggled := !s.clearColorToggled)
  }

  function ToggleFireMesh(s: RendererState): (r: RendererState)
    ensures r.showFireMesh != s.showFireMesh
    ensures r == s.(showFireMesh := r.showFireMesh)
  {
    s.(showFireMesh := !s.showFireMesh)
  }

  /** Every boolean toggle is an involution. */
  lemma BooleanTogglesAreInvolutions(s: RendererState)
    ensures ToggleNormals(ToggleNormals(s)) == s
    ensures ToggleRotation(ToggleRotation(s)) == s
    ensures ToggleUniformClearColor(ToggleUniformClearColor(s)) == s
    ensures ToggleFireMesh(ToggleFireMesh(s)) == s
  {
  }
}
