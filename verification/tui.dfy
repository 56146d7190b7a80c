/**
 The terminal front end, without the terminal: the keyboard state machine
 of `tui_poll_input`, the downsampling arithmetic and the agent presence
 map of `tui_render`, and the letter and brightness chosen for a cell.
 */
module Tui {
  import opened Types
  import CArith
  import opened Outcomes

  /** Frame-delay limits and step of the interactive speed control, in milliseconds. */
  const SpeedMin: int := 10
  const SpeedMax: int := 2000
  const SpeedStep: int := 25

  /** Largest grid drawn cell by cell; larger grids are downsampled. */
  const MaxDisplayW: int := 80
  const MaxDisplayH: int := 40

  datatype TuiState = Running | Paused | Quit

  datatype TuiControl = TuiControl(state: TuiState, speedMs: int)

  /** The control after one poll, and whether a single step was requested (the C return value 1). */
  datatype Poll = Poll(ctrl: TuiControl, step: bool)

  predicate SpeedInRange(ms: int) {
    SpeedMin <= ms <= SpeedMax
  }

  /**
   `tui_poll_input` with the byte read from the terminal, or `None` when
   the non-blocking read returned nothing.
   */
  function PollInput(ctrl: TuiControl, input: Option<char>): (p: Poll)
    ensures p.step <==> input == Some('n') || input == Some('N')
    ensures input.None? ==> p.ctrl == ctrl
    ensures input == Some(' ') ==> p.ctrl.state == (if ctrl.state == Running then Paused else Running)
    ensures input == Some('q') || input == Some('Q') ==> p.ctrl.state == Quit
    ensures p.step ==> p.ctrl.state == Paused
    ensures SpeedInRange(ctrl.speedMs) ==> SpeedInRange(p.ctrl.speedMs)
    ensures p.ctrl.speedMs != ctrl.speedMs ==> input == Some('+') || input == Some('=') || input == Some('-')
    ensures p.ctrl.state != ctrl.state ==> input.Some? && input.value in " nNqQ"
  {
    match input
    case None => Poll(ctrl, false)
    case Some(ch) =>
      if ch == ' ' then
        Poll(ctrl.(state := if ctrl.state == Running then Paused else Running), false)
      else if ch == 'n' || ch == 'N' then
        Poll(ctrl.(state := Paused), true)
      else if ch == '+' || ch == '=' then
        var faster := ctrl.speedMs + SpeedStep;
        Poll(ctrl.(speedMs := if faster > SpeedMax then SpeedMax else faster), false)
      else if ch == '-' then
        var slower := ctrl.speedMs - SpeedStep;
        Poll(ctrl.(speedMs := if slower < SpeedMin then SpeedMin else slower), false)
      else if ch == 'q' || ch == 'Q' then
        Poll(ctrl.(state := Quit), false)
      else
        Poll(ctrl, false)
  }

  /** Space is an involution on RUNNING and PAUSED; on QUIT it resumes. */
  lemma SpaceToggles(ctrl: TuiControl)
    ensures ctrl.state != Quit ==>
              PollInput(PollInput(ctrl, Some(' ')).ctrl, Some(' ')).ctrl == ctrl
    ensures ctrl.state == Quit ==> PollInput(ctrl, Some(' ')).ctrl.state == Running
  {
  }

  /** Away from the limits, one step slower undoes one step faster and the other way round. */
  lemma SpeedStepsCancel(ctrl: TuiControl)
    ensures SpeedMin <= ctrl.speedMs <= SpeedMax - SpeedStep ==>
              PollInput(PollInput(ctrl, Some('+')).ctrl, Some('-')).ctrl == ctrl
    ensures SpeedMin + SpeedStep <= ctrl.speedMs <= SpeedMax ==>
              PollInput(PollInput(ctrl, Some('-')).ctrl, Some('+')).ctrl == ctrl
  {
  }

  /** The control after polling each input in turn. */
  function PollAll(ctrl: TuiControl, inputs: seq<Option<char>>): TuiControl
    decreases |inputs|
  {
    if |inputs| == 0 then ctrl else PollAll(PollInput(ctrl, inputs[0]).ctrl, inputs[1..])
  }

  /** A speed in [10, 2000] stays there whatever keys are pressed. */
  lemma {:induction false} SpeedRangeInvariant(ctrl: TuiControl, inputs: seq<Option<char>>)
    requires SpeedInRange(ctrl.speedMs)
    ensures SpeedInRange(PollAll(ctrl, inputs).speedMs)
    decreases |inputs|
  {
    if |inputs| > 0 {
      SpeedRangeInvariant(PollInput(ctrl, inputs[0]).ctrl, inputs[1..]);
    }
  }

  /** Once quit is requested, only a space or a step key leaves QUIT. */
  lemma {:induction false} QuitSticks(ctrl: TuiControl, inputs: seq<Option<char>>)
    requires ctrl.state == Quit
    requires forall k :: 0 <= k < |inputs| ==> inputs[k] != Some(' ') && inputs[k] != Some('n') && inputs[k] != Some('N')
    ensures PollAll(ctrl, inputs).state == Quit
    decreases |inputs|
  {
    if |inputs| > 0 {
      QuitSticks(PollInput(ctrl, inputs[0]).ctrl, inputs[1..]);
    }
  }

  // ---------------------------------------------------------------------
  // Downsampling
  // ---------------------------------------------------------------------

  /** Euclidean division is monotone in the dividend. */
  lemma DivMono(a: int, b: int, d: int)
    requires d > 0 && a <= b
    ensures a / d <= b / d
  {
    if a / d > b / d {
      CArith.MulMono(b / d + 1, a / d, d);
      assert false;
    }
  }

  /**
   The sampling step along one axis: `ceil(len / maxLen)` when the grid is
   longer than the display, 1 otherwise; it is the smallest step that
   brings the length within the display.
   */
  function StepFor(len: int, maxLen: int): (s: int)
    requires maxLen > 0
    ensures s >= 1
    ensures len > maxLen ==> (s - 1) * maxLen < len <= s * maxLen
    ensures len <= s * maxLen
  {
    if len > maxLen then
      var n := len + maxLen - 1;
      CArith.NonNegativeAgrees(n, maxLen);
      assert n == (n / maxLen) * maxLen + n % maxLen;
      CArith.Div(n, maxLen)
    else 1
  }

  /** The number of sampled positions along an axis: `ceil(len / step)`. */
  function DisplayLen(len: int, step: int): int
    requires step >= 1
  {
    CArith.Div(len + step - 1, step)
  }

  /**
   The displayed size never exceeds the limit, and sample `d * step` of
   every displayed position d lies on the grid; a non-empty grid shows at
   least one position.
   */
  lemma DisplayFits(len: int, maxLen: int)
    requires maxLen > 0
    ensures var step := StepFor(len, maxLen);
            var shown := DisplayLen(len, step);
            && shown <= maxLen
            && (len > 0 ==> shown >= 1 && (shown - 1) * step < len <= shown * step)
            && (forall d :: 0 <= d < shown ==> 0 <= d * step < len)
  {
    var step := StepFor(len, maxLen);
    var shown := DisplayLen(len, step);
    if len <= 0 {
      assert step == 1;
      assert shown == len;
    } else {
      var n := len + step - 1;
      CArith.NonNegativeAgrees(n, step);
      assert shown == n / step;
      assert n == shown * step + n % step;
      DivMono(n, maxLen * step + step - 1, step);
      CArith.DivUnique(maxLen * step + step - 1, step, maxLen, step - 1);
      forall d | 0 <= d < shown
        ensures 0 <= d * step < len
      {
        SampleOnAxis(len, maxLen, d);
      }
    }
  }

  /** Sample `d * step` of a displayed position d lies on the axis. */
  lemma SampleOnAxis(len: int, maxLen: int, d: int)
    requires maxLen > 0
    requires 0 <= d < DisplayLen(len, StepFor(len, maxLen))
    ensures 0 <= d * StepFor(len, maxLen) < len
  {
    var step := StepFor(len, maxLen);
    var shown := DisplayLen(len, step);
    var n := len + step - 1;
    if len > 0 {
      CArith.NonNegativeAgrees(n, step);
      assert n == shown * step + n % step;
      CArith.MulMono(d, shown - 1, step);
      CArith.MulMono(0, d, step);
    }
  }

  /** `step_x` and `step_y` of `tui_render`. */
  function StepX(globalW: int): int { StepFor(globalW, MaxDisplayW) }
  function StepY(globalH: int): int { StepFor(globalH, MaxDisplayH) }

  /** The representative cell of display position (dx, dy) lies inside the global grid array. */
  lemma SampleInBounds(globalW: int, globalH: int, dx: int, dy: int)
    requires 0 <= dx < DisplayLen(globalW, StepX(globalW))
    requires 0 <= dy < DisplayLen(globalH, StepY(globalH))
    ensures var gx, gy := dx * StepX(globalW), dy * StepY(globalH);
            0 <= gx < globalW && 0 <= gy < globalH && 0 <= gy * globalW + gx < globalW * globalH
  {
    SampleOnAxis(globalW, MaxDisplayW, dx);
    SampleOnAxis(globalH, MaxDisplayH, dy);
    RowMajorInRange(dx * StepX(globalW), dy * StepY(globalH), globalW, globalH);
  }

  /** A position inside a `w` by `h` grid has its row-major index inside the array. */
  lemma RowMajorInRange(x: int, y: int, w: int, h: int)
    requires 0 <= x < w && 0 <= y < h
    ensures 0 <= y * w + x < w * h
  {
    CArith.MulMono(y, h - 1, w);
    CArith.MulMono(0, y, w);
  }

  // ---------------------------------------------------------------------
  // Agent presence map
  // ---------------------------------------------------------------------

  /** The agent is drawn: alive and on the grid. */
  predicate Marks(a: Agent, w: int, h: int) {
    a.alive && 0 <= a.gx < w && 0 <= a.gy < h
  }

  /** Row-major position of an agent in the `global_w * global_h` map. */
  function Slot(a: Agent, w: int): int {
    a.gy * w + a.gx
  }

  lemma SlotInRange(a: Agent, w: int, h: int)
    requires Marks(a, w, h)
    ensures 0 <= Slot(a, w) < w * h
  {
    RowMajorInRange(a.gx, a.gy, w, h);
  }

  /** `m` marks exactly the slots of drawn agents. */
  ghost predicate IsAgentMap(agents: seq<Agent>, w: int, h: int, m: seq<bool>) {
    && |m| == w * h
    && forall k :: 0 <= k < |m| ==>
         (m[k] <==> exists i :: 0 <= i < |agents| && Marks(agents[i], w, h) && Slot(agents[i], w) == k)
  }

  /** The presence-map loop of `tui_render`: dead agents and off-grid positions are skipped. */
  method BuildAgentMap(agents: seq<Agent>, w: int, h: int) returns (m: seq<bool>)
    requires w >= 0 && h >= 0
    ensures IsAgentMap(agents, w, h, m)
  {
    CArith.MulMono(0, h, w);
    m := seq(w * h, _ => false);
    var i := 0;
    while i < |agents|
      invariant 0 <= i <= |agents| && |m| == w * h
      invariant forall k :: 0 <= k < |m| ==>
                  (m[k] <==> exists j :: 0 <= j < i && Marks(agents[j], w, h) && Slot(agents[j], w) == k)
    {
      var a := agents[i];
      if a.alive && 0 <= a.gx < w && 0 <= a.gy < h {
        SlotInRange(a, w, h);
        m := m[a.gy * w + a.gx := true];
      }
      i := i + 1;
    }
  }

  /** A map entry for an on-grid cell is set exactly when a live agent stands on that cell. */
  lemma AgentMapMeansPresence(agents: seq<Agent>, w: int, h: int, m: seq<bool>, gx: int, gy: int)
    requires IsAgentMap(agents, w, h, m)
    requires 0 <= gx < w && 0 <= gy < h
    ensures 0 <= gy * w + gx < |m|
    ensures m[gy * w + gx] <==> exists i :: 0 <= i < |agents| && agents[i].alive && agents[i].gx == gx && agents[i].gy == gy
  {
    var probe := Agent(0, gx, gy, 0.0, true);
    SlotInRange(probe, w, h);
    var k := gy * w + gx;
    if m[k] {
      var i :| 0 <= i < |agents| && Marks(agents[i], w, h) && Slot(agents[i], w) == k;
      CArith.DivUnique(k, w, agents[i].gy, agents[i].gx);
      CArith.DivUnique(k, w, gy, gx);
    }
    if exists i :: 0 <= i < |agents| && agents[i].alive && agents[i].gx == gx && agents[i].gy == gy {
      var i :| 0 <= i < |agents| && agents[i].alive && agents[i].gx == gx && agents[i].gy == gy;
      assert Marks(agents[i], w, h) && Slot(agents[i], w) == k;
    }
  }

  // ---------------------------------------------------------------------
  // What a cell looks like
  // ---------------------------------------------------------------------

  /** `cell_char`: the letter of each cell type. */
  function CellChar(t: CellType): (ch: char)
    ensures ch in "APCRX"
  {
    match t
    case Aldeia => 'A'
    case Pesca => 'P'
    case Coleta => 'C'
    case Rocado => 'R'
    case Interditada => 'X'
  }

  /** The cell type a letter stands for, if any. */
  function TypeOfChar(ch: char): Option<CellType> {
    if ch == 'A' then Some(Aldeia)
    else if ch == 'P' then Some(Pesca)
    else if ch == 'C' then Some(Coleta)
    else if ch == 'R' then Some(Rocado)
    else if ch == 'X' then Some(Interditada)
    else None
  }

  /** The letters identify the types: `TypeOfChar` inverts `CellChar` in both directions. */
  lemma CellCharRoundTrip(t: CellType, ch: char)
    ensures TypeOfChar(CellChar(t)) == Some(t)
    ensures TypeOfChar(ch) == Some(t) ==> CellChar(t) == ch
    ensures TypeOfChar(ch).None? <==> ch !in "APCRX"
  {
  }

  datatype Intensity = Dim | Normal | Bold

  function Level(i: Intensity): int {
    match i
    case Dim => 0
    case Normal => 1
    case Bold => 2
  }

  /** For a positive capacity, comparing the ratio with a threshold is comparing the resource with the scaled threshold. */
  lemma RatioAbove(r: real, m: real, t: real)
    requires m > 0.0
    ensures r / m > t <==> r > t * m
  {
    var q := r / m;
    assert q * m == r;
    if q > t {
      assert (q - t) * m > 0.0;
    } else {
      assert (t - q) * m >= 0.0;
    }
  }

  /**
   `intensity_code`: bold above 66% of capacity, normal above 33%, dim
   otherwise or when the cell has no capacity.
   */
  function IntensityCode(resource: real, maxResource: real): (i: Intensity)
    ensures maxResource <= 0.0 ==> i == Dim
    ensures maxResource > 0.0 ==>
              && (i == Bold <==> resource > 0.66 * maxResource)
              && (i == Normal <==> 0.33 * maxResource < resource <= 0.66 * maxResource)
  {
    if maxResource <= 0.0 then Dim
    else
      var ratio := resource / maxResource;
      RatioAbove(resource, maxResource, 0.66);
      RatioAbove(resource, maxResource, 0.33);
      if ratio > 0.66 then Bold
      else if ratio > 0.33 then Normal
      else Dim
  }

  /** More resource in the same cell never looks dimmer. */
  lemma IntensityMonotone(r1: real, r2: real, maxResource: real)
    requires r1 <= r2
    ensures Level(IntensityCode(r1, maxResource)) <= Level(IntensityCode(r2, maxResource))
  {
  }

  /** What a drawn position shows. */
  datatype Glyph = Blocked | AgentMark(under: CellType) | Letter(kind: CellType, intensity: Intensity)

  /**
   The drawing rule of `tui_render`: an inaccessible cell is a dot even
   with an agent on it; otherwise an agent is '@' on the cell colour, and
   an empty cell its letter at its intensity.
   */
  function GlyphOf(c: Cell, hasAgent: bool): (g: Glyph)
    ensures g.Blocked? <==> !c.accessible
    ensures g.AgentMark? <==> c.accessible && hasAgent
    ensures !g.Blocked? ==> (if g.AgentMark? then g.under else g.kind) == c.kind
  {
    if !c.accessible then Blocked
    else if hasAgent then AgentMark(c.kind)
    else Letter(c.kind, IntensityCode(c.resource, c.maxResource))
  }
}
