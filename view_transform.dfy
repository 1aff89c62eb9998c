/** The viewer's zoom and pan state (`scale`, `translateX`, `translateY`, `isPanning`,
    `startX`, `startY`) and what the wheel, the mouse and the reset button do to it. */
module ViewTransform {
  import opened Messages
  import opened Svg

  datatype ViewState = ViewState(
    scale: real, translateX: real, translateY: real, isPanning: bool, startX: real, startY: real)

  const Initial: ViewState := ViewState(1.0, 0.0, 0.0, false, 0.0, 0.0)

  const ZoomSpeed: real := 0.1
  /** The smallest scale the wheel zooms out to. */
  const MinScale: real := 0.1
  /** Room left around a fitted drawing, in pixels. */
  const FitPadding: real := 40.0
  /** The largest scale reset will fit a drawing to. */
  const MaxFitScale: real := 1.5

  function Max(a: real, b: real): (r: real) {
    if a >= b then a else b
  }

  function Min(a: real, b: real): (r: real) {
    if a <= b then a else b
  }

  /** The `wheel` listener: up zooms in by a step, down zooms out by a step but not below `MinScale`. */
  function Wheel(v: ViewState, deltaY: real): (r: ViewState) {
    if deltaY < 0.0 then v.(scale := v.scale + ZoomSpeed)
    else v.(scale := Max(MinScale, v.scale - ZoomSpeed))
  }

  /** The `mousedown` listener: the left button starts panning and anchors the pointer. */
  function MouseDown(v: ViewState, button: int, clientX: real, clientY: real): (r: ViewState) {
    if button == 0 then v.(isPanning := true, startX := clientX - v.translateX, startY := clientY - v.translateY)
    else v
  }

  /** The `mousemove` listener: while panning the translation follows the pointer. */
  function MouseMove(v: ViewState, clientX: real, clientY: real): (r: ViewState) {
    if !v.isPanning then v
    else v.(translateX := clientX - v.startX, translateY := clientY - v.startY)
  }

  /** The `mouseup` listener. */
  function MouseUp(v: ViewState): (r: ViewState) {
    v.(isPanning := false)
  }

  /** The drawing's width for fitting: its viewBox width, else its width attribute, else 800. */
  function IntrinsicWidth(d: Drawing): (w: real)
    ensures w != 0.0
  {
    OrElse(d.viewBox.width, OrElse(d.width, 800.0))
  }

  /** The drawing's height for fitting: its viewBox height, else its height attribute, else 600. */
  function IntrinsicHeight(d: Drawing): (h: real)
    ensures h != 0.0
  {
    OrElse(d.viewBox.height, OrElse(d.height, 600.0))
  }

  /** `Math.min(scaleX, scaleY, 1.5)` of `resetView`. */
  function FitScale(d: Drawing, containerWidth: int, containerHeight: int): (r: real) {
    var scaleX := (containerWidth as real - FitPadding) / IntrinsicWidth(d);
    var scaleY := (containerHeight as real - FitPadding) / IntrinsicHeight(d);
    Min(Min(scaleX, scaleY), MaxFitScale)
  }

  /** `resetView`, given the drawing on screen and the size of the viewer area. */
  function ResetView(v: ViewState, drawing: Option<Drawing>, containerWidth: int, containerHeight: int): (r: ViewState) {
    match drawing
    case None => v.(scale := 1.0, translateX := 0.0, translateY := 0.0)
    case Some(d) => v.(scale := FitScale(d, containerWidth, containerHeight), translateX := 0.0, translateY := 0.0)
  }

  /** Where the drawing's point (x, y) appears on screen under `translate(...) scale(...)`
      about the transform origin (ox, oy). */
  function ScreenPoint(v: ViewState, ox: real, oy: real, x: real, y: real): (p: (real, real)) {
    (ox + v.translateX + v.scale * (x - ox), oy + v.translateY + v.scale * (y - oy))
  }

  /** Wheel zoom changes only the scale: a step up, or a step down clamped at `MinScale`; a
      zoom out always lands at or above `MinScale`, and a scale at or above it stays there. */
  lemma WheelZoom(v: ViewState, deltaY: real)
    ensures var r := Wheel(v, deltaY);
      && r == v.(scale := r.scale)
      && (deltaY < 0.0 ==> r.scale == v.scale + ZoomSpeed)
      && (deltaY >= 0.0 ==> r.scale >= MinScale && r.scale == Max(MinScale, v.scale - ZoomSpeed))
      && (v.scale >= MinScale ==> r.scale >= MinScale)
  {
  }

  /** One step in and one step out are inverse while the clamp is not reached. */
  lemma ZoomInOutInverse(v: ViewState, up: real, down: real)
    requires up < 0.0 <= down
    ensures v.scale >= MinScale ==> Wheel(Wheel(v, up), down) == v
    ensures v.scale >= MinScale + ZoomSpeed ==> Wheel(Wheel(v, down), up) == v
  {
  }

  /** A press with the left button at p and a move to c shift the translation by c - p,
      leave the scale alone, and so move every point of the drawing along with the pointer. */
  lemma PanTracksPointer(v: ViewState, px: real, py: real, cx: real, cy: real, ox: real, oy: real, x: real, y: real)
    ensures var r := MouseMove(MouseDown(v, 0, px, py), cx, cy);
      && r.isPanning && r.scale == v.scale
      && r.translateX == v.translateX + (cx - px) && r.translateY == v.translateY + (cy - py)
      && ScreenPoint(r, ox, oy, x, y).0 == ScreenPoint(v, ox, oy, x, y).0 + (cx - px)
      && ScreenPoint(r, ox, oy, x, y).1 == ScreenPoint(v, ox, oy, x, y).1 + (cy - py)
  {
    var r := MouseMove(MouseDown(v, 0, px, py), cx, cy);
    assert r.scale == v.scale;
    assert r.translateY == v.translateY + (cy - py);
    assert ScreenPoint(r, ox, oy, x, y).1 == oy + r.translateY + r.scale * (y - oy);
    assert ScreenPoint(v, ox, oy, x, y).1 == oy + v.translateY + v.scale * (y - oy);
  }

  /** A press at (100,100) with translate (5,5) and a move to (130,140) give translate (35,45). */
  lemma PanExample(v: ViewState)
    requires v.translateX == 5.0 && v.translateY == 5.0
    ensures var r := MouseMove(MouseDown(v, 0, 100.0, 100.0), 130.0, 140.0);
      r.translateX == 35.0 && r.translateY == 45.0
  {
  }

  /** Moving without panning changes nothing, another button does not start a pan, and after
      `mouseup` moves change nothing. */
  lemma PointerIdle(v: ViewState, button: int, x: real, y: real)
    ensures !v.isPanning ==> MouseMove(v, x, y) == v
    ensures button != 0 ==> MouseDown(v, button, x, y) == v
    ensures MouseMove(MouseUp(v), x, y) == MouseUp(v) && !MouseUp(v).isPanning
  {
  }

  /** Without a drawing reset restores scale 1; with one it fits the drawing, never above 1.5;
      both bring the translation back to the origin. */
  lemma ResetViewEffect(v: ViewState, drawing: Option<Drawing>, cw: int, ch: int)
    ensures var r := ResetView(v, drawing, cw, ch);
      && r.translateX == 0.0 && r.translateY == 0.0 && r.isPanning == v.isPanning
      && (drawing.None? ==> r.scale == 1.0)
      && (drawing.Some? ==> r.scale <= MaxFitScale)
  {
  }

  /** The fitted scale makes a drawing of positive size fit inside the viewer area less the
      padding, is at most 1.5, and equals one of its three bounds. It is positive only when the
      area is wider and taller than the padding. */
  lemma FitScaleFits(d: Drawing, cw: int, ch: int)
    requires IntrinsicWidth(d) > 0.0 && IntrinsicHeight(d) > 0.0
    ensures var s, w, h := FitScale(d, cw, ch), IntrinsicWidth(d), IntrinsicHeight(d);
      && s <= MaxFitScale
      && w * s <= cw as real - FitPadding
      && h * s <= ch as real - FitPadding
      && (s == MaxFitScale || w * s == cw as real - FitPadding || h * s == ch as real - FitPadding)
      && (s > 0.0 <==> cw as real > FitPadding && ch as real > FitPadding)
  {
    var w, h := IntrinsicWidth(d), IntrinsicHeight(d);
    var sx, sy := (cw as real - FitPadding) / w, (ch as real - FitPadding) / h;
    assert w * sx == cw as real - FitPadding;
    assert h * sy == ch as real - FitPadding;
    var s := FitScale(d, cw, ch);
    assert s <= sx && s <= sy;
    MulMonotone(w, s, sx);
    MulMonotone(h, s, sy);
    assert h * s <= ch as real - FitPadding;
    assert sx > 0.0 <==> cw as real > FitPadding by { SignOfQuotient(cw as real - FitPadding, w); }
    assert sy > 0.0 <==> ch as real > FitPadding by { SignOfQuotient(ch as real - FitPadding, h); }
  }

  lemma MulMonotone(w: real, a: real, b: real)
    requires w > 0.0 && a <= b
    ensures w * a <= w * b
  {
  }

  lemma SignOfQuotient(a: real, w: real)
    requires w > 0.0
    ensures a / w > 0.0 <==> a > 0.0
  {
    assert w * (a / w) == a;
  }

  /** The input events of the viewer area that leave reset aside. */
  datatype PointerEvent =
    | WheelEvent(deltaY: real)
    | MouseDownEvent(button: int, clientX: real, clientY: real)
    | MouseMoveEvent(clientX: real, clientY: real)
    | MouseUpEvent

  function Step(v: ViewState, e: PointerEvent): (r: ViewState) {
    match e
    case WheelEvent(dy) => Wheel(v, dy)
    case MouseDownEvent(b, x, y) => MouseDown(v, b, x, y)
    case MouseMoveEvent(x, y) => MouseMove(v, x, y)
    case MouseUpEvent => MouseUp(v)
  }

  function Steps(v: ViewState, events: seq<PointerEvent>): (r: ViewState)
    decreases |events|
  {
    if events == [] then v else Steps(Step(v, events[0]), events[1..])
  }

  /** Once the scale is at least `MinScale`, no run of wheel and mouse events brings it below;
      mouse events alone never change it. */
  lemma {:induction false} ScaleFloorHolds(v: ViewState, events: seq<PointerEvent>)
    requires v.scale >= MinScale
    ensures Steps(v, events).scale >= MinScale
    decreases |events|
  {
    if events != [] {
      WheelZoom(v, if events[0].WheelEvent? then events[0].deltaY else 0.0);
      ScaleFloorHolds(Step(v, events[0]), events[1..]);
    }
  }

  /** Mouse events never change the scale. */
  lemma {:induction false} MouseKeepsScale(v: ViewState, events: seq<PointerEvent>)
    requires forall k :: 0 <= k < |events| ==> !events[k].WheelEvent?
    ensures Steps(v, events).scale == v.scale
    decreases |events|
  {
    if events != [] {
      MouseKeepsScale(Step(v, events[0]), events[1..]);
    }
  }
}
