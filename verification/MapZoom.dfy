/** Pan and zoom of the map preview (`ui/src/shared/mapZoom.ts`), over exact reals. */
module MapZoom {
  import opened Common
  import opened RealSums

  datatype Transform = Transform(scale: real, x: real, y: real)
  datatype Size = Size(width: real, height: real)
  datatype Point = Point(x: real, y: real)

  const NO_ZOOM := Transform(1.0, 0.0, 0.0)
  const MIN_SCALE := 1.0
  const MAX_SCALE := 6.0
  const ZOOM_STEPS: seq<real> := [1.0, 1.25, 1.5, 2.0, 2.5, 3.0, 4.0, 5.0, 6.0]

  function ClampScale(scale: real): real { Min(MAX_SCALE, Max(MIN_SCALE, scale)) }

  // ── One axis ──────────────────────────────────────────────────────────────

  /** The least offset at which an axis of this length is still covered. */
  function Edge(length: real, scale: real): real { length * (1.0 - scale) }

  function ClampAxis(offset: real, length: real, scale: real): real {
    Min(0.0, Max(Edge(length, scale), offset))
  }

  /** The map coordinate drawn at a viewport coordinate. */
  function Content(point: real, offset: real, scale: real): real
    requires scale > 0.0
  {
    (point - offset) / scale
  }

  function ClampPan(t: Transform, size: Size): Transform {
    Transform(t.scale, ClampAxis(t.x, size.width, t.scale), ClampAxis(t.y, size.height, t.scale))
  }

  // ── The gestures ──────────────────────────────────────────────────────────

  function ZoomTo(t: Transform, scale: real, point: Point, size: Size): Transform
    requires t.scale > 0.0
  {
    var next := ClampScale(scale);
    ClampPan(Transform(next, Drawn(Content(point.x, t.x, t.scale), next, point.x),
                       Drawn(Content(point.y, t.y, t.scale), next, point.y)), size)
  }

  /** The offset that draws a map coordinate at a viewport coordinate. */
  function Drawn(content: real, scale: real, point: real): real { point - content * scale }

  /** The first preset clearly above a scale, from the `i`-th on. */
  function FirstAbove(scale: real, i: nat): (next: Option<real>)
    requires i <= |ZOOM_STEPS|
    decreases |ZOOM_STEPS| - i
  {
    if i == |ZOOM_STEPS| then None
    else if ZOOM_STEPS[i] > scale + 0.01 then Some(ZOOM_STEPS[i])
    else FirstAbove(scale, i + 1)
  }

  /** The last preset clearly below a scale, among the first `n`. */
  function LastBelow(scale: real, n: nat): (previous: Option<real>)
    requires n <= |ZOOM_STEPS|
  {
    if n == 0 then None
    else if ZOOM_STEPS[n - 1] < scale - 0.01 then Some(ZOOM_STEPS[n - 1])
    else LastBelow(scale, n - 1)
  }

  function StepTarget(scale: real, zoomIn: bool): real {
    var found := if zoomIn then FirstAbove(scale, 0) else LastBelow(scale, |ZOOM_STEPS|);
    if found.Some? then found.value else if zoomIn then MAX_SCALE else MIN_SCALE
  }

  function ZoomByStep(t: Transform, zoomIn: bool, point: Point, size: Size): Transform
    requires t.scale > 0.0
  {
    ZoomTo(t, StepTarget(t.scale, zoomIn), point, size)
  }

  /** The scale a wheel movement asks for; `factor` is the positive exponential of the dampened movement. */
  function WheelTarget(scale: real, factor: real): real {
    Settle(Times(scale, factor))
  }

  /** Held to the range, and snapped to the whole map when all but there. */
  function Settle(scale: real): real {
    var next := ClampScale(scale);
    if -0.02 < next - MIN_SCALE < 0.02 then MIN_SCALE else next
  }

  function ZoomByWheel(t: Transform, factor: real, point: Point, size: Size): Transform
    requires t.scale > 0.0
  {
    ZoomTo(t, WheelTarget(t.scale, factor), point, size)
  }

  function PanBy(t: Transform, delta: Point, size: Size): Transform {
    ClampPan(Transform(t.scale, t.x + delta.x, t.y + delta.y), size)
  }

  // ── Every run keeps the viewport covered ──────────────────────────────────

  datatype Gesture = To(scale: real, point: Point) | Step(zoomIn: bool, at: Point) | Wheel(factor: real, over: Point)
    | Pan(delta: Point) | Reset

  /** The drawn map reaches both ends of the viewport: its content occupies `[offset, offset + scale * length]`. */
  ghost predicate AxisCovered(offset: real, length: real, scale: real) {
    offset <= 0.0 && offset + scale * length >= length
  }

  ghost predicate Covered(t: Transform, size: Size) {
    && MIN_SCALE <= t.scale <= MAX_SCALE
    && AxisCovered(t.x, size.width, t.scale) && AxisCovered(t.y, size.height, t.scale)
  }

  ghost predicate IsViewport(size: Size) { size.width >= 0.0 && size.height >= 0.0 }

  function Apply(t: Transform, g: Gesture, size: Size): Transform
    requires t.scale > 0.0
  {
    match g
    case To(scale, point) => ZoomTo(t, scale, point, size)
    case Step(zoomIn, at) => ZoomByStep(t, zoomIn, at, size)
    case Wheel(factor, over) => ZoomByWheel(t, factor, over, size)
    case Pan(delta) => PanBy(t, delta, size)
    case Reset => NO_ZOOM
  }

  lemma EdgeCovers(length: real, scale: real)
    requires length >= 0.0 && scale >= 1.0
    ensures Edge(length, scale) <= 0.0
    ensures forall offset :: AxisCovered(offset, length, scale) <==> Edge(length, scale) <= offset <= 0.0
  {
    TimesKeepsOrder(1.0, scale, length);
    assert Edge(length, scale) == length - length * scale;
  }

  lemma PanCovers(t: Transform, size: Size)
    requires IsViewport(size) && MIN_SCALE <= t.scale <= MAX_SCALE
    ensures Covered(ClampPan(t, size), size)
  {
    EdgeCovers(size.width, t.scale);
    EdgeCovers(size.height, t.scale);
  }

  lemma ApplyCovers(t: Transform, g: Gesture, size: Size)
    requires IsViewport(size) && MIN_SCALE <= t.scale <= MAX_SCALE
    ensures Covered(Apply(t, g, size), size)
  {
    match g
    case To(scale, point) => ZoomCovers(t, scale, point, size);
    case Step(zoomIn, at) => ZoomCovers(t, StepTarget(t.scale, zoomIn), at, size);
    case Wheel(factor, over) => ZoomCovers(t, WheelTarget(t.scale, factor), over, size);
    case Pan(delta) => PanCovers(Transform(t.scale, t.x + delta.x, t.y + delta.y), size);
    case Reset =>
  }

  lemma ZoomCovers(t: Transform, scale: real, point: Point, size: Size)
    requires IsViewport(size) && t.scale > 0.0
    ensures Covered(ZoomTo(t, scale, point, size), size)
  {
    var next := ClampScale(scale);
    PanCovers(Transform(next, Drawn(Content(point.x, t.x, t.scale), next, point.x),
                        Drawn(Content(point.y, t.y, t.scale), next, point.y)), size);
  }

  function Distance(a: real, b: real): real { if a <= b then b - a else a - b }

  /** Of the offsets that cover the viewport, a pan ends at the one nearest to where it was heading. */
  lemma ClampIsNearest(offset: real, length: real, scale: real, other: real)
    requires length >= 0.0 && scale >= 1.0 && AxisCovered(other, length, scale)
    ensures var held := ClampAxis(offset, length, scale);
      AxisCovered(held, length, scale) && (other == held || Distance(held, offset) < Distance(other, offset))
  {
    EdgeCovers(length, scale);
  }

  /** Of the offsets that cover the viewport, the one nearest to a target, which is the target itself where that covers it. */
  ghost predicate NearestCovered(held: real, target: real, length: real, scale: real) {
    && AxisCovered(held, length, scale)
    && (AxisCovered(target, length, scale) ==> held == target)
    && forall other :: AxisCovered(other, length, scale) && other != held ==> Distance(held, target) < Distance(other, target)
  }

  lemma ClampsToNearest(target: real, length: real, scale: real)
    requires length >= 0.0 && scale >= 1.0
    ensures NearestCovered(ClampAxis(target, length, scale), target, length, scale)
  {
    EdgeCovers(length, scale);
    forall other | AxisCovered(other, length, scale)
      ensures other == ClampAxis(target, length, scale) || Distance(ClampAxis(target, length, scale), target) < Distance(other, target)
    {
      ClampIsNearest(target, length, scale, other);
    }
  }

  /** A pan ends, along each axis, at the covered offset nearest to the old one moved by the delta. */
  lemma PanEndsNearest(t: Transform, delta: Point, size: Size)
    requires IsViewport(size) && t.scale >= 1.0
    ensures var r := PanBy(t, delta, size);
      && r.scale == t.scale
      && NearestCovered(r.x, t.x + delta.x, size.width, t.scale) && NearestCovered(r.y, t.y + delta.y, size.height, t.scale)
  {
    ClampsToNearest(t.x + delta.x, size.width, t.scale);
    ClampsToNearest(t.y + delta.y, size.height, t.scale);
  }

  /** Any zoom ends at the covered offsets nearest to those that would draw under the point what lay under it. */
  lemma ZoomEndsNearest(t: Transform, scale: real, point: Point, size: Size)
    requires IsViewport(size) && t.scale > 0.0
    ensures var r := ZoomTo(t, scale, point, size);
      && r.scale == (if scale <= 1.0 then 1.0 else if scale >= 6.0 then 6.0 else scale)
      && NearestCovered(r.x, point.x - (point.x - t.x) / t.scale * r.scale, size.width, r.scale)
      && NearestCovered(r.y, point.y - (point.y - t.y) / t.scale * r.scale, size.height, r.scale)
  {
    var next := ClampScale(scale);
    ClampsToNearest(Drawn(Content(point.x, t.x, t.scale), next, point.x), size.width, next);
    ClampsToNearest(Drawn(Content(point.y, t.y, t.scale), next, point.y), size.height, next);
  }

  /** A wheel turn multiplies the scale, held between the whole map and six times it; all but the whole map is the whole map. */
  lemma WheelGoesTo(t: Transform, factor: real, point: Point, size: Size)
    requires t.scale > 0.0
    ensures var r, asked := ZoomByWheel(t, factor, point, size), t.scale * factor;
      r.scale == if asked < 1.02 then 1.0 else if asked > 6.0 then 6.0 else asked
  {
    var asked := t.scale * factor;
    assert Times(t.scale, factor) == asked;
    Settles(asked);
    ZoomedScale(t, Settle(asked), point, size);
  }

  lemma ZoomedScale(t: Transform, scale: real, point: Point, size: Size)
    requires t.scale > 0.0 && 1.0 <= scale <= 6.0
    ensures ZoomTo(t, scale, point, size).scale == scale
  {
  }

  lemma Settles(asked: real)
    ensures Settle(asked) == if asked < 1.02 then 1.0 else if asked > 6.0 then 6.0 else asked
  {
  }

  /** Whatever is done from the opening view, the scale stays in range and no background shows. */
  lemma {:induction false} RunsStayCovered(gestures: seq<Gesture>, size: Size)
    requires IsViewport(size)
    ensures Run(gestures, size).scale > 0.0 && Covered(Run(gestures, size), size)
  {
    if gestures != [] {
      RunsStayCovered(gestures[..|gestures| - 1], size);
      ApplyCovers(Run(gestures[..|gestures| - 1], size), gestures[|gestures| - 1], size);
    }
  }

  function Run(gestures: seq<Gesture>, size: Size): (t: Transform)
    ensures t.scale > 0.0
  {
    if gestures == [] then NO_ZOOM
    else Apply(Run(gestures[..|gestures| - 1], size), gestures[|gestures| - 1], size)
  }

  // ── Zooming in holds the point under the cursor ───────────────────────────

  ghost predicate Inside(point: Point, size: Size) {
    0.0 <= point.x <= size.width && 0.0 <= point.y <= size.height
  }

  /** What is known of the map coordinate under a point inside a covered axis: it lies on the map. */
  ghost predicate IsContent(content: real, point: real, offset: real, length: real, scale: real) {
    && content * scale == point - offset && 0.0 <= content <= length
    && 0.0 <= point <= length && offset <= 0.0
    && (length - content) * scale >= length - point
  }

  lemma OnTheMap(point: real, offset: real, length: real, scale: real)
    requires scale >= 1.0 && AxisCovered(offset, length, scale) && 0.0 <= point <= length
    ensures IsContent(Content(point, offset, scale), point, offset, length, scale)
  {
    var content := Content(point, offset, scale);
    QuotientTimes(point - offset, scale);
    AtMostByProduct(0.0, content, scale);
    assert scale * length == length * scale;
    AtMostByProduct(content, length, scale);
    Leftover(content, length, scale);
  }

  lemma Leftover(content: real, length: real, scale: real)
    ensures (length - content) * scale == length * scale - content * scale
  {
  }

  /** Zooming in along one axis needs no clamp. */
  lemma AxisHolds(content: real, point: real, offset: real, length: real, scale: real, next: real)
    requires 1.0 <= scale <= next && IsContent(content, point, offset, length, scale)
    ensures AxisCovered(Drawn(content, next, point), length, next)
  {
    TimesKeepsOrder(scale, next, content);
    TimesKeepsOrder(scale, next, length - content);
    Leftover(content, length, next);
  }

  lemma AxisUnclamped(offset: real, length: real, scale: real)
    requires length >= 0.0 && scale >= 1.0 && AxisCovered(offset, length, scale)
    ensures ClampAxis(offset, length, scale) == offset
  {
    EdgeCovers(length, scale);
  }

  /** The view at a scale that draws the same map coordinates at the point. */
  function Anchored(t: Transform, next: real, point: Point): Transform
    requires t.scale > 0.0
  {
    Transform(next, Drawn(Content(point.x, t.x, t.scale), next, point.x),
              Drawn(Content(point.y, t.y, t.scale), next, point.y))
  }

  /** The unclamped zoom draws under the point what was under it before. */
  lemma ContentStays(content: real, point: real, next: real)
    requires next > 0.0
    ensures Content(point, Drawn(content, next, point), next) == content
  {
    QuotientTimes(content * next, next);
    AtMostByProduct(Content(point, Drawn(content, next, point), next), content, next);
    AtMostByProduct(content, Content(point, Drawn(content, next, point), next), next);
  }

  /** Zooming in at a point of the viewport is never clamped, so what lies under the point does not move. */
  lemma ZoomInHoldsPoint(t: Transform, scale: real, point: Point, size: Size)
    requires Covered(t, size) && Inside(point, size) && ClampScale(scale) >= t.scale
    ensures var r := ZoomTo(t, scale, point, size);
      && r == Anchored(t, ClampScale(scale), point) && r.scale > 0.0 && Covered(r, size)
      && Content(point.x, r.x, r.scale) == Content(point.x, t.x, t.scale)
      && Content(point.y, r.y, r.scale) == Content(point.y, t.y, t.scale)
  {
    var next := ClampScale(scale);
    AxisZoomIn(point.x, t.x, size.width, t.scale, next);
    AxisZoomIn(point.y, t.y, size.height, t.scale, next);
  }

  lemma AxisZoomIn(point: real, offset: real, length: real, scale: real, next: real)
    requires 1.0 <= scale <= next && AxisCovered(offset, length, scale) && 0.0 <= point <= length
    ensures var drawn := Drawn(Content(point, offset, scale), next, point);
      && ClampAxis(drawn, length, next) == drawn && AxisCovered(drawn, length, next)
      && Content(point, drawn, next) == Content(point, offset, scale)
  {
    OnTheMap(point, offset, length, scale);
    AxisHolds(Content(point, offset, scale), point, offset, length, scale, next);
    AxisUnclamped(Drawn(Content(point, offset, scale), next, point), length, next);
    ContentStays(Content(point, offset, scale), point, next);
  }

  /** Two zooms in at one point are one zoom in to the second scale. */
  lemma ZoomsInCompose(t: Transform, first: real, second: real, point: Point, size: Size)
    requires Covered(t, size) && Inside(point, size) && t.scale <= ClampScale(first) <= ClampScale(second)
    ensures var r := ZoomTo(t, first, point, size);
      r.scale > 0.0 && ZoomTo(r, second, point, size) == ZoomTo(t, second, point, size)
  {
    ZoomInHoldsPoint(t, first, point, size);
    ZoomInHoldsPoint(t, second, point, size);
    ZoomInHoldsPoint(ZoomTo(t, first, point, size), second, point, size);
  }

  /** Zooming in and then back to the old scale at one point restores the view exactly. */
  lemma ZoomBackRestores(t: Transform, scale: real, point: Point, size: Size)
    requires Covered(t, size) && Inside(point, size) && ClampScale(scale) >= t.scale
    ensures var r := ZoomTo(t, scale, point, size); r.scale > 0.0 && ZoomTo(r, t.scale, point, size) == t
  {
    ZoomInHoldsPoint(t, scale, point, size);
    Redrawn(t, point);
    AxisUnclamped(t.x, size.width, t.scale);
    AxisUnclamped(t.y, size.height, t.scale);
  }

  lemma Redrawn(t: Transform, point: Point)
    requires t.scale > 0.0
    ensures Anchored(t, t.scale, point) == t
  {
    QuotientTimes(point.x - t.x, t.scale);
    QuotientTimes(point.y - t.y, t.scale);
  }

  // ── Stepping ──────────────────────────────────────────────────────────────

  /** Which preset a step in leads to, and which a step out. */
  lemma TargetsAreNeighbours(scale: real)
    requires 1.0 <= scale <= 6.0
    ensures StepTarget(scale, true) in ZOOM_STEPS && StepTarget(scale, false) in ZOOM_STEPS
    ensures scale <= StepTarget(scale, true) && StepTarget(scale, false) <= scale
    ensures forall i :: 0 <= i < |ZOOM_STEPS| && scale == ZOOM_STEPS[i] ==>
      && StepTarget(scale, true) == ZOOM_STEPS[if i < 8 then i + 1 else 8]
      && StepTarget(scale, false) == ZOOM_STEPS[if i > 0 then i - 1 else 0]
  {
    FromFirst(scale);
    FromLast(scale);
  }

  lemma FromFirst(scale: real)
    requires 1.0 <= scale <= 6.0
    ensures StepTarget(scale, true) ==
      if scale < 1.24 then 1.25 else if scale < 1.49 then 1.5 else if scale < 1.99 then 2.0
      else if scale < 2.49 then 2.5 else if scale < 2.99 then 3.0 else if scale < 3.99 then 4.0
      else if scale < 4.99 then 5.0 else 6.0
  {
    assert FirstAbove(scale, 7) == if 5.0 > scale + 0.01 then Some(5.0) else FirstAbove(scale, 8);
    assert FirstAbove(scale, 5) == if 3.0 > scale + 0.01 then Some(3.0) else FirstAbove(scale, 6);
    assert FirstAbove(scale, 3) == if 2.0 > scale + 0.01 then Some(2.0) else FirstAbove(scale, 4);
    assert FirstAbove(scale, 1) == if 1.25 > scale + 0.01 then Some(1.25) else FirstAbove(scale, 2);
  }

  lemma FromLast(scale: real)
    requires 1.0 <= scale <= 6.0
    ensures StepTarget(scale, false) ==
      if scale > 5.01 then 5.0 else if scale > 4.01 then 4.0 else if scale > 3.01 then 3.0
      else if scale > 2.51 then 2.5 else if scale > 2.01 then 2.0 else if scale > 1.51 then 1.5
      else if scale > 1.26 then 1.25 else 1.0
  {
    assert LastBelow(scale, 1) == if 1.0 < scale - 0.01 then Some(1.0) else None;
    assert LastBelow(scale, 2) == if 1.25 < scale - 0.01 then Some(1.25) else LastBelow(scale, 1);
    assert LastBelow(scale, 4) == if 2.0 < scale - 0.01 then Some(2.0) else LastBelow(scale, 3);
    assert LastBelow(scale, 6) == if 3.0 < scale - 0.01 then Some(3.0) else LastBelow(scale, 5);
    assert LastBelow(scale, 8) == if 5.0 < scale - 0.01 then Some(5.0) else LastBelow(scale, 7);
  }

  /**
   * A step in and a step back restore the view exactly when it was at a preset below the largest. The source's
   * comment promises steps that reverse without that condition, and in both orders: for the other see
   * `StepOutReversesIff`.
   */
  lemma StepReversesIff(t: Transform, point: Point, size: Size)
    requires Covered(t, size) && Inside(point, size)
    ensures var r := ZoomByStep(t, true, point, size);
      r.scale > 0.0 && (ZoomByStep(r, false, point, size) == t <==> t.scale in ZOOM_STEPS && t.scale < MAX_SCALE)
  {
    var up := StepTarget(t.scale, true);
    TargetsAreNeighbours(t.scale);
    TargetsAreNeighbours(up);
    InRange(up);
    var r := ZoomByStep(t, true, point, size);
    assert r.scale == up;
    if t.scale in ZOOM_STEPS && t.scale < MAX_SCALE {
      assert StepTarget(up, false) == t.scale;
      ZoomBackRestores(t, up, point, size);
    } else {
      InRange(StepTarget(up, false));
      assert StepTarget(up, false) != t.scale;
    }
  }

  lemma InRange(scale: real)
    requires scale in ZOOM_STEPS
    ensures ClampScale(scale) == scale
  {
  }

  function Steps(t: Transform, zoomIn: bool, n: nat, point: Point, size: Size): (r: Transform)
    requires t.scale > 0.0
    ensures r.scale > 0.0
    decreases n
  {
    if n == 0 then t else Steps(ZoomByStep(t, zoomIn, point, size), zoomIn, n - 1, point, size)
  }

  lemma {:induction false} StepsSplit(t: Transform, zoomIn: bool, n: nat, point: Point, size: Size)
    requires t.scale > 0.0 && n > 0
    ensures Steps(t, zoomIn, n, point, size) == ZoomByStep(Steps(t, zoomIn, n - 1, point, size), zoomIn, point, size)
    decreases n
  {
    if n > 1 { StepsSplit(ZoomByStep(t, zoomIn, point, size), zoomIn, n - 1, point, size); }
  }

  /** Where `n` steps lead among the presets. */
  function Walked(i: nat, zoomIn: bool, n: nat): (j: nat)
    requires i < |ZOOM_STEPS|
    ensures j < |ZOOM_STEPS|
  {
    if zoomIn then (if i + n < 8 then i + n else 8) else if n < i then i - n else 0
  }

  lemma StepWalks(t: Transform, i: nat, zoomIn: bool, point: Point, size: Size)
    requires i < |ZOOM_STEPS| && t.scale == ZOOM_STEPS[i]
    ensures ZoomByStep(t, zoomIn, point, size).scale == ZOOM_STEPS[Walked(i, zoomIn, 1)]
  {
    TargetsAreNeighbours(t.scale);
    InRange(StepTarget(t.scale, zoomIn));
  }

  /** From the `i`-th preset, steps move along the presets and stop at the ends. */
  lemma {:induction false} StepsWalkPresets(t: Transform, i: nat, zoomIn: bool, n: nat, point: Point, size: Size)
    requires i < |ZOOM_STEPS| && t.scale == ZOOM_STEPS[i]
    ensures Steps(t, zoomIn, n, point, size).scale == ZOOM_STEPS[Walked(i, zoomIn, n)]
    decreases n
  {
    if n > 0 {
      StepWalks(t, i, zoomIn, point, size);
      StepsWalkPresets(ZoomByStep(t, zoomIn, point, size), Walked(i, zoomIn, 1), zoomIn, n - 1, point, size);
    }
  }

  /** As many steps out as in, with the largest preset not overrun, restore the view. */
  lemma {:induction false} StepsRestore(t: Transform, i: nat, n: nat, point: Point, size: Size)
    requires Covered(t, size) && Inside(point, size) && i + n <= 8 && t.scale == ZOOM_STEPS[i]
    ensures Steps(Steps(t, true, n, point, size), false, n, point, size) == t
    decreases n
  {
    if n > 0 {
      var next := ZoomByStep(t, true, point, size);
      StepWalks(t, i, true, point, size);
      ZoomCovers(t, StepTarget(t.scale, true), point, size);
      StepsRestore(next, i + 1, n - 1, point, size);
      StepsSplit(Steps(next, true, n - 1, point, size), false, n, point, size);
      StepReturns(t, i, point, size);
    }
  }

  lemma StepReturns(t: Transform, i: nat, point: Point, size: Size)
    requires Covered(t, size) && Inside(point, size) && i < 8 && t.scale == ZOOM_STEPS[i]
    ensures ZoomByStep(ZoomByStep(t, true, point, size), false, point, size) == t
  {
    StepReversesIff(t, point, size);
  }

  /**
   * From any preset, any number of steps in undone by as many steps out restores the view exactly when the walk stays
   * within the presets, or starts at the smallest of them, where the view is pinned.
   */
  lemma StepsReverseIff(t: Transform, i: nat, n: nat, point: Point, size: Size)
    requires Covered(t, size) && Inside(point, size) && i < |ZOOM_STEPS| && t.scale == ZOOM_STEPS[i]
    ensures Steps(Steps(t, true, n, point, size), false, n, point, size) == t <==> i + n <= 8 || i == 0
  {
    if i + n <= 8 {
      StepsRestore(t, i, n, point, size);
    } else {
      var top := Steps(t, true, n, point, size);
      StepsWalkPresets(t, i, true, n, point, size);
      StepsWalkPresets(top, 8, false, n, point, size);
      StepsCovered(t, true, n, point, size);
      StepsCovered(top, false, n, point, size);
      if i == 0 {
        WholeMapIsPinned(t, size);
        WholeMapIsPinned(Steps(top, false, n, point, size), size);
      }
    }
  }

  lemma {:induction false} StepsCovered(t: Transform, zoomIn: bool, n: nat, point: Point, size: Size)
    requires IsViewport(size) && Covered(t, size)
    ensures Covered(Steps(t, zoomIn, n, point, size), size)
    decreases n
  {
    if n > 0 {
      ZoomCovers(t, StepTarget(t.scale, zoomIn), point, size);
      StepsCovered(ZoomByStep(t, zoomIn, point, size), zoomIn, n - 1, point, size);
    }
  }

  /** At scale 1 there is one covered view: the whole map. */
  lemma WholeMapIsPinned(t: Transform, size: Size)
    requires Covered(t, size) && t.scale == 1.0
    ensures t == NO_ZOOM
  {
  }

  // ── Stepping out first ────────────────────────────────────────────────────

  /** Zooming to a scale while holding the point needs no clamp on either axis. */
  ghost predicate Unclamped(t: Transform, scale: real, point: Point, size: Size)
    requires t.scale > 0.0
  {
    && Edge(size.width, scale) <= Drawn(Content(point.x, t.x, t.scale), scale, point.x) <= 0.0
    && Edge(size.height, scale) <= Drawn(Content(point.y, t.y, t.scale), scale, point.y) <= 0.0
  }

  lemma UnclampedIsCovered(t: Transform, scale: real, point: Point, size: Size)
    requires t.scale > 0.0 && IsViewport(size) && MIN_SCALE <= scale <= MAX_SCALE
    ensures Unclamped(t, scale, point, size) <==> Covered(Anchored(t, scale, point), size)
  {
    EdgeCovers(size.width, scale);
    EdgeCovers(size.height, scale);
  }

  /** Holding a point through two scales is holding it through the second. */
  lemma AnchoredAgain(t: Transform, first: real, second: real, point: Point)
    requires t.scale > 0.0 && first > 0.0
    ensures Anchored(Anchored(t, first, point), second, point) == Anchored(t, second, point)
  {
    ContentStays(Content(point.x, t.x, t.scale), point.x, first);
    ContentStays(Content(point.y, t.y, t.scale), point.y, first);
  }

  /** Steps in hold the point. */
  lemma {:induction false} StepsInHold(t: Transform, n: nat, point: Point, size: Size)
    requires Covered(t, size) && Inside(point, size)
    ensures var r := Steps(t, true, n, point, size); Covered(r, size) && r == Anchored(t, r.scale, point)
    decreases n
  {
    if n == 0 {
      Redrawn(t, point);
    } else {
      var next := ZoomByStep(t, true, point, size);
      TargetsAreNeighbours(t.scale);
      InRange(StepTarget(t.scale, true));
      ZoomInHoldsPoint(t, StepTarget(t.scale, true), point, size);
      StepsInHold(next, n - 1, point, size);
      AnchoredAgain(t, next.scale, Steps(t, true, n, point, size).scale, point);
    }
  }

  /**
   * From any preset, any number of steps out undone by as many steps in restores the view exactly when the steps in end
   * at the preset it was at, and holding the point all the way out would have needed no clamp.
   */
  lemma StepsOutReverseIff(t: Transform, i: nat, n: nat, point: Point, size: Size)
    requires Covered(t, size) && Inside(point, size) && i < |ZOOM_STEPS| && t.scale == ZOOM_STEPS[i]
    ensures Steps(Steps(t, false, n, point, size), true, n, point, size) == t <==>
      (n <= i || i == 8) && Unclamped(t, ZOOM_STEPS[Walked(i, false, n)], point, size)
  {
    var j := Walked(i, false, n);
    var out := Steps(t, false, n, point, size);
    StepsCovered(t, false, n, point, size);
    StepsWalkPresets(t, i, false, n, point, size);
    StepsWalkPresets(out, j, true, n, point, size);
    StepsInHold(out, n, point, size);
    UnclampedIsCovered(t, ZOOM_STEPS[j], point, size);
    if n <= i || i == 8 {
      var low := Anchored(t, ZOOM_STEPS[j], point);
      AnchoredAgain(t, ZOOM_STEPS[j], t.scale, point);
      AnchoredAgain(out, t.scale, ZOOM_STEPS[j], point);
      Redrawn(t, point);
      Redrawn(out, point);
      if Covered(low, size) { OutIsLow(t, i, n, point, size); }
    }
  }

  /** Where holding the point all the way out needs no clamp, the steps out do hold it. */
  lemma OutIsLow(t: Transform, i: nat, n: nat, point: Point, size: Size)
    requires Covered(t, size) && Inside(point, size) && i < |ZOOM_STEPS| && t.scale == ZOOM_STEPS[i]
    requires Covered(Anchored(t, ZOOM_STEPS[Walked(i, false, n)], point), size)
    ensures Steps(t, false, n, point, size) == Anchored(t, ZOOM_STEPS[Walked(i, false, n)], point)
  {
    var j := Walked(i, false, n);
    var low := Anchored(t, ZOOM_STEPS[j], point);
    if n <= i {
      BackUp(t, i, n, point, size);
      StepsRestore(low, j, n, point, size);
    } else {
      StepsWalkPresets(t, i, false, n, point, size);
      StepsCovered(t, false, n, point, size);
      WholeMapIsPinned(low, size);
      WholeMapIsPinned(Steps(t, false, n, point, size), size);
    }
  }

  lemma BackUp(t: Transform, i: nat, n: nat, point: Point, size: Size)
    requires Inside(point, size) && n <= i < |ZOOM_STEPS| && t.scale == ZOOM_STEPS[i]
    requires Covered(Anchored(t, ZOOM_STEPS[i - n], point), size)
    ensures Steps(Anchored(t, ZOOM_STEPS[i - n], point), true, n, point, size) == t
  {
    var low := Anchored(t, ZOOM_STEPS[i - n], point);
    StepsInHold(low, n, point, size);
    StepsWalkPresets(low, i - n, true, n, point, size);
    AnchoredAgain(t, ZOOM_STEPS[i - n], t.scale, point);
    Redrawn(t, point);
  }

  /**
   * A step out and a step back in restore the view exactly when it was at a preset above the smallest and the step out
   * needed no clamp on either axis.
   */
  lemma StepOutReversesIff(t: Transform, point: Point, size: Size)
    requires Covered(t, size) && Inside(point, size)
    ensures var r := ZoomByStep(t, false, point, size);
      r.scale > 0.0 && (ZoomByStep(r, true, point, size) == t <==>
        t.scale in ZOOM_STEPS && t.scale > MIN_SCALE && Unclamped(t, StepTarget(t.scale, false), point, size))
  {
    TargetsAreNeighbours(t.scale);
    var r := ZoomByStep(t, false, point, size);
    InRange(StepTarget(t.scale, false));
    TargetsAreNeighbours(r.scale);
    InRange(StepTarget(r.scale, true));
    if t.scale in ZOOM_STEPS {
      var i :| 0 <= i < |ZOOM_STEPS| && t.scale == ZOOM_STEPS[i];
      StepsOutReverseIff(t, i, 1, point, size);
      OneStep(t, false, point, size);
      OneStep(r, true, point, size);
    }
  }

  lemma OneStep(t: Transform, zoomIn: bool, point: Point, size: Size)
    requires t.scale > 0.0
    ensures Steps(t, zoomIn, 1, point, size) == ZoomByStep(t, zoomIn, point, size)
  {
    assert Steps(ZoomByStep(t, zoomIn, point, size), zoomIn, 0, point, size) == ZoomByStep(t, zoomIn, point, size);
  }

  /** Away from the presets no number of steps, in either order, ever returns. */
  lemma OffPresetNeverReturns(t: Transform, zoomIn: bool, n: nat, point: Point, size: Size)
    requires Covered(t, size) && Inside(point, size) && t.scale !in ZOOM_STEPS && n > 0
    ensures Steps(Steps(t, zoomIn, n, point, size), !zoomIn, n, point, size) != t
  {
    var there := Steps(t, zoomIn, n, point, size);
    StepsCovered(t, zoomIn, n, point, size);
    StepsCovered(there, !zoomIn, n - 1, point, size);
    StepsSplit(there, !zoomIn, n, point, size);
    var last := Steps(there, !zoomIn, n - 1, point, size);
    TargetsAreNeighbours(last.scale);
    InRange(StepTarget(last.scale, !zoomIn));
  }

  // ── The wheel ─────────────────────────────────────────────────────────────

  /** A turn of the wheel in and one back by as much keep the scale without meeting the largest or the snap. */
  ghost predicate TurnsFreely(scale: real, factor: real) {
    scale == 1.0 || (scale >= 1.02 && Times(scale, factor) <= MAX_SCALE)
  }

  /**
   * Turning the wheel in and back by as much restores the view exactly when neither the largest scale nor the snap to
   * the whole map came in between.
   */
  lemma WheelReversesIff(t: Transform, factor: real, point: Point, size: Size)
    requires Covered(t, size) && Inside(point, size) && factor >= 1.0
    ensures var r := ZoomByWheel(t, factor, point, size);
      r.scale > 0.0 && (ZoomByWheel(r, 1.0 / factor, point, size) == t <==> TurnsFreely(t.scale, factor))
  {
    QuotientTimes(1.0, factor);
    var up := WheelTarget(t.scale, factor);
    var back := WheelTarget(up, 1.0 / factor);
    WheelBack(t.scale, factor, 1.0 / factor);
    var r := ZoomByWheel(t, factor, point, size);
    Settled(up);
    Settled(back);
    assert r.scale == up;
    ZoomCovers(t, up, point, size);
    ZoomCovers(r, back, point, size);
    ThereAndBack(t, up, back, point, size);
  }

  /**
   * Zooming out and back to the old scale at one point restores the view exactly when the zoom out needed no clamp on
   * either axis.
   */
  lemma ZoomOutBackIff(t: Transform, down: real, point: Point, size: Size)
    requires Covered(t, size) && Inside(point, size) && MIN_SCALE <= down <= t.scale
    ensures var r := ZoomTo(t, down, point, size);
      r.scale > 0.0 && (ZoomTo(r, t.scale, point, size) == t <==> Unclamped(t, down, point, size))
  {
    Settled(down);
    Settled(t.scale);
    var r := ZoomTo(t, down, point, size);
    ZoomCovers(t, down, point, size);
    ZoomInHoldsPoint(r, t.scale, point, size);
    UnclampedIsCovered(t, down, point, size);
    var low := Anchored(t, down, point);
    AnchoredAgain(t, down, t.scale, point);
    AnchoredAgain(r, t.scale, down, point);
    Redrawn(t, point);
    Redrawn(r, point);
    if Covered(low, size) {
      AxisUnclamped(low.x, size.width, down);
      AxisUnclamped(low.y, size.height, down);
    }
  }

  /** A turn out and one in by as much end at the old scale: short of the snap, or where the turn in alone leads there. */
  ghost predicate TurnsBack(scale: real, factor: real)
    requires factor != 0.0
  {
    Times(scale, 1.0 / factor) >= 1.02 || Settle(factor) == scale
  }

  /**
   * Turning the wheel out and back by as much restores the view exactly when the scale comes back and the turn out needed
   * no clamp.
   */
  lemma WheelOutReversesIff(t: Transform, factor: real, point: Point, size: Size)
    requires Covered(t, size) && Inside(point, size) && factor >= 1.0
    ensures var r := ZoomByWheel(t, 1.0 / factor, point, size);
      r.scale > 0.0 && (ZoomByWheel(r, factor, point, size) == t <==>
        TurnsBack(t.scale, factor) && Unclamped(t, WheelTarget(t.scale, 1.0 / factor), point, size))
  {
    QuotientTimes(1.0, factor);
    var down := WheelTarget(t.scale, 1.0 / factor);
    var back := WheelTarget(down, factor);
    WheelForth(t.scale, factor, 1.0 / factor);
    Settled(down);
    Settled(back);
    var r := ZoomByWheel(t, 1.0 / factor, point, size);
    ZoomCovers(t, down, point, size);
    ZoomCovers(r, back, point, size);
    assert r.scale == down && ZoomByWheel(r, factor, point, size).scale == back;
    ZoomOutBackIff(t, down, point, size);
  }

  lemma WheelForth(scale: real, factor: real, inverse: real)
    requires 1.0 <= scale <= 6.0 && factor >= 1.0 && inverse * factor == 1.0
    ensures var down := WheelTarget(scale, inverse); var back := WheelTarget(down, factor);
      && 1.0 <= down <= scale && 1.0 <= back <= 6.0
      && (back == scale <==> Times(scale, inverse) >= 1.02 || Settle(factor) == scale)
  {
    InverseIsLess(scale, factor, inverse);
    var product := Times(scale, inverse);
    if product >= 1.02 {
      assert Settle(product) == product;
    } else {
      assert Settle(product) == 1.0;
      assert Times(1.0, factor) == factor;
    }
  }

  lemma InverseIsLess(scale: real, factor: real, inverse: real)
    requires 1.0 <= scale && factor >= 1.0 && inverse * factor == 1.0
    ensures Times(scale, inverse) <= scale && Times(Times(scale, inverse), factor) == scale
  {
    AtMostByProduct(inverse, 1.0, factor);
    TimesKeepsOrder(inverse, 1.0, scale);
    assert (scale * inverse) * factor == scale * (inverse * factor);
  }

  lemma Settled(scale: real)
    requires 1.0 <= scale <= 6.0
    ensures ClampScale(scale) == scale
  {
  }

  lemma ThereAndBack(t: Transform, up: real, back: real, point: Point, size: Size)
    requires Covered(t, size) && Inside(point, size) && 1.0 <= up <= 6.0 && 1.0 <= back <= 6.0
    requires back == t.scale ==> t.scale == 1.0 || up >= t.scale
    ensures var r := ZoomTo(t, up, point, size);
      r.scale > 0.0 && (ZoomTo(r, back, point, size) == t <==> back == t.scale)
  {
    Settled(up);
    Settled(back);
    var r := ZoomTo(t, up, point, size);
    var end := ZoomTo(r, back, point, size);
    ZoomCovers(t, up, point, size);
    ZoomCovers(r, back, point, size);
    if back == t.scale {
      if t.scale == 1.0 {
        WholeMapIsPinned(end, size);
        WholeMapIsPinned(t, size);
      } else {
        ZoomBackRestores(t, up, point, size);
      }
    }
  }

  lemma WheelBack(scale: real, factor: real, inverse: real)
    requires 1.0 <= scale <= 6.0 && factor >= 1.0 && inverse * factor == 1.0
    ensures var up := WheelTarget(scale, factor); var back := WheelTarget(up, inverse);
      && 1.0 <= up <= 6.0 && 1.0 <= back <= 6.0
      && (back == scale <==> TurnsFreely(scale, factor))
      && (back == scale ==> scale == 1.0 || up >= scale)
  {
    BackFacts(scale, factor, inverse);
    SettledBack(scale, Times(scale, factor), Times(WheelTarget(scale, factor), inverse));
  }

  lemma BackFacts(scale: real, factor: real, inverse: real)
    requires 1.0 <= scale && factor >= 1.0 && inverse * factor == 1.0
    ensures scale <= Times(scale, factor)
    ensures Times(Times(scale, factor), inverse) == scale
    ensures Times(scale, factor) > 6.0 ==> Times(6.0, inverse) < scale
    ensures Times(1.0, inverse) <= 1.0
  {
    TimesKeepsOrder(1.0, factor, scale);
    Undone(scale, factor, inverse);
    AtMostByProduct(inverse, 1.0, factor);
    if Times(scale, factor) > 6.0 { LessByProduct(Times(6.0, inverse), scale, factor); }
  }

  lemma Undone(scale: real, factor: real, inverse: real)
    requires inverse * factor == 1.0
    ensures Times(Times(scale, factor), inverse) == scale
    ensures Times(6.0, inverse) * factor == 6.0
  {
    assert (scale * factor) * inverse == scale * (inverse * factor);
  }

  lemma SettledBack(scale: real, product: real, back: real)
    requires 1.0 <= scale <= 6.0 && scale <= product
    requires Settle(product) == product ==> back == scale
    requires product > 6.0 ==> back < scale
    requires Settle(product) == 1.0 ==> back <= 1.0
    ensures Settle(back) == scale <==> scale == 1.0 || (scale >= 1.02 && product <= 6.0)
    ensures Settle(back) == scale ==> scale == 1.0 || Settle(product) >= scale
  {
  }
}
