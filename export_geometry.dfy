/** The numbers behind the two exports of the viewer: the PNG that `generatePngBlob` draws on a
    canvas, and the cropped SVG that `exportToEnclave` writes. Both crop the drawing to its
    content box grown by a padding, then add a margin. */
module ExportGeometry {
  import opened Svg

  /** Safety room around the content box, against clipped strokes and text. */
  const Padding: real := 10.0
  /** Room from the canvas edge to the padded box. */
  const Margin: real := 30.0
  /** Canvas pixels per drawing unit. */
  const Dpi: real := 2.0

  /** The content box of `generatePngBlob`: `getBBox()`, or the viewBox when its width or height is 0. */
  function PngContentBox(d: Drawing): (r: Rect) {
    if d.bbox.width == 0.0 || d.bbox.height == 0.0 then d.viewBox else d.bbox
  }

  /** The content box of `exportToEnclave`: `getBBox()`, or the viewBox when its width is 0. */
  function SvgContentBox(d: Drawing): (r: Rect) {
    if d.bbox.width == 0.0 then d.viewBox else d.bbox
  }

  /** The padded box (`adjX`, `adjY`, `adjW`, `adjH`) and the final size (`finalW`, `finalH`). */
  datatype Crop = Crop(adj: Rect, finalW: real, finalH: real)

  function CropOf(box: Rect): (r: Crop) {
    var adj := Rect(box.x - Padding, box.y - Padding, box.width + Padding * 2.0, box.height + Padding * 2.0);
    Crop(adj, adj.width + Margin * 2.0, adj.height + Margin * 2.0)
  }

  /** The conversion of a number to an `unsigned long`: truncate toward zero, then wrap to 32 bits. */
  function ToUint32(v: real): (r: nat) {
    var t := if v >= 0.0 then v.Floor else -((-v).Floor);
    (t % 0x1_0000_0000) as nat
  }

  /** The largest value an HTML `unsigned long` attribute keeps when it is assigned. */
  const MaxReflected: nat := 0x7FFF_FFFF
  /** The sizes a canvas falls back to. */
  const DefaultCanvasWidth: nat := 300
  const DefaultCanvasHeight: nat := 150

  /** Assigning a number to `canvas.width` or `canvas.height`: the converted value when it is at
      most `MaxReflected`, the attribute's default otherwise. */
  function CanvasDimension(v: real, default: nat): (r: nat) {
    var u := ToUint32(v);
    if u <= MaxReflected then u else default
  }

  /** What `generatePngBlob` draws: the canvas size, the translation before `drawImage`, and
      the size the whole drawing is drawn at (`vBoxW`, `vBoxH`). */
  datatype PngLayout = PngLayout(
    canvasWidth: nat, canvasHeight: nat, transX: real, transY: real, drawWidth: real, drawHeight: real)

  function PngLayoutOf(d: Drawing): (r: PngLayout) {
    var c := CropOf(PngContentBox(d));
    var vb := d.viewBox;
    PngLayout(
      CanvasDimension(c.finalW * Dpi, DefaultCanvasWidth), CanvasDimension(c.finalH * Dpi, DefaultCanvasHeight),
      Margin - (c.adj.x - vb.x), Margin - (c.adj.y - vb.y),
      OrElse(vb.width, c.adj.width), OrElse(vb.height, c.adj.height))
  }

  /** The attributes `exportToEnclave` sets on the SVG it writes. */
  datatype CroppedSvg = CroppedSvg(viewBox: Rect, width: real, height: real)

  function CroppedSvgOf(d: Drawing): (r: CroppedSvg) {
    var c := CropOf(SvgContentBox(d));
    CroppedSvg(Rect(c.adj.x - Margin, c.adj.y - Margin, c.finalW, c.finalH), c.finalW, c.finalH)
  }

  /** Where the drawing's x coordinate lands on the canvas (before the `Dpi` scaling): the image
      starts at the viewBox's left edge, shifted by the translation. */
  function CanvasX(d: Drawing, x: real): (r: real) {
    PngLayoutOf(d).transX + (x - d.viewBox.x)
  }

  function CanvasY(d: Drawing, y: real): (r: real) {
    PngLayoutOf(d).transY + (y - d.viewBox.y)
  }

  /** The content box of (10,10,100,50) gives the padded box (0,0,120,70), a final size of
      180 by 130, a cropped viewBox whose origin is (-30,-30) and a canvas of 360 by 260 pixels. */
  lemma CropExample(d: Drawing)
    requires d.bbox == Rect(10.0, 10.0, 100.0, 50.0)
    ensures CropOf(PngContentBox(d)) == Crop(Rect(0.0, 0.0, 120.0, 70.0), 180.0, 130.0)
    ensures CroppedSvgOf(d) == CroppedSvg(Rect(-30.0, -30.0, 180.0, 130.0), 180.0, 130.0)
    ensures PngLayoutOf(d).canvasWidth == 360 && PngLayoutOf(d).canvasHeight == 260
  {
  }

  /** The translation puts the padded box's corner exactly at (Margin, Margin) on the canvas,
      so the content box sits Margin + Padding in from the left and top edges and, on a canvas of
      the final size, Margin + Padding in from the right and bottom edges. */
  lemma PngContentCentered(d: Drawing)
    ensures var box, c := PngContentBox(d), CropOf(PngContentBox(d));
      && CanvasX(d, c.adj.x) == Margin && CanvasY(d, c.adj.y) == Margin
      && CanvasX(d, box.x) == Margin + Padding && CanvasY(d, box.y) == Margin + Padding
      && c.finalW - CanvasX(d, box.x + box.width) == Margin + Padding
      && c.finalH - CanvasY(d, box.y + box.height) == Margin + Padding
  {
  }

  /** The cropped SVG's viewBox leaves Margin + Padding between the content box and each edge. */
  lemma SvgContentCentered(d: Drawing)
    ensures var box, vb := SvgContentBox(d), CroppedSvgOf(d).viewBox;
      && box.x - vb.x == Margin + Padding && box.y - vb.y == Margin + Padding
      && (vb.x + vb.width) - (box.x + box.width) == Margin + Padding
      && (vb.y + vb.height) - (box.y + box.height) == Margin + Padding
      && CroppedSvgOf(d).width == vb.width && CroppedSvgOf(d).height == vb.height
  {
  }

  /** The two exports pick different content boxes exactly when the box has a width but no
      height and differs from the viewBox; otherwise the PNG shows the region of the SVG's
      cropped viewBox: the canvas origin is that viewBox's corner and the sizes agree. */
  lemma ExportsAgree(d: Drawing)
    ensures PngContentBox(d) != SvgContentBox(d) <==>
      d.bbox.width != 0.0 && d.bbox.height == 0.0 && d.bbox != d.viewBox
    ensures PngContentBox(d) == SvgContentBox(d) ==>
      var vb, c := CroppedSvgOf(d).viewBox, CropOf(PngContentBox(d));
      && CanvasX(d, vb.x) == 0.0 && CanvasY(d, vb.y) == 0.0
      && c.finalW == vb.width && c.finalH == vb.height
  {
  }

  /** A whole number of pixels from 0 to `MaxReflected` is kept as the canvas size; a whole
      number above it and below 2^32 gives the default instead. */
  lemma CanvasSizeExact(v: real, default: nat)
    requires 0.0 <= v < 0x1_0000_0000 as real && v == v.Floor as real
    ensures v <= MaxReflected as real ==> CanvasDimension(v, default) as real == v
    ensures v > MaxReflected as real ==> CanvasDimension(v, default) == default
  {
  }

  /** A content box of width and height at least 0 gives a canvas of twice the final size,
      rounded down, as long as that is at most `MaxReflected`; a larger doubled size that stays
      below 2^32 gives a canvas of 300 by 150 pixels in that direction. */
  lemma CanvasSize(d: Drawing)
    requires PngContentBox(d).width >= 0.0 && PngContentBox(d).height >= 0.0
    requires CropOf(PngContentBox(d)).finalW * Dpi < 0x1_0000_0000 as real
    requires CropOf(PngContentBox(d)).finalH * Dpi < 0x1_0000_0000 as real
    ensures var c, p := CropOf(PngContentBox(d)), PngLayoutOf(d);
      && ((c.finalW * Dpi).Floor <= MaxReflected ==> p.canvasWidth == (c.finalW * Dpi).Floor)
      && ((c.finalW * Dpi).Floor > MaxReflected ==> p.canvasWidth == DefaultCanvasWidth)
      && ((c.finalH * Dpi).Floor <= MaxReflected ==> p.canvasHeight == (c.finalH * Dpi).Floor)
      && ((c.finalH * Dpi).Floor > MaxReflected ==> p.canvasHeight == DefaultCanvasHeight)
      && p.canvasWidth >= 160 && p.canvasHeight >= 150
  {
  }
}
