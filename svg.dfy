/** What the viewer measures on a rendered SVG drawing. The renderer is outside the model;
    a drawing is its markup together with the measurements the viewer reads from the DOM. */
module Svg {

  datatype Rect = Rect(x: real, y: real, width: real, height: real)

  /** A rendered drawing: `viewBox.baseVal` (all zero when the attribute is missing),
      `width.baseVal.value`, `height.baseVal.value`, and `getBBox()`. */
  datatype Drawing = Drawing(markup: string, viewBox: Rect, width: real, height: real, bbox: Rect)

  /** JavaScript's `a || b` on numbers: `a` unless it is 0. */
  function OrElse(a: real, b: real): (r: real) {
    if a != 0.0 then a else b
  }
}
