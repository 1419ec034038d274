/**
 * The drag-to-select rectangle of the screenshot tool in app.js: the two
 * corner pixels are normalised to min/max bounds, and a selection narrower
 * or shorter than 10 pixels is refused by the first size check, which runs
 * after the whole map has been captured and before the crop is taken.
 */
module Selection {

  /** A pixel relative to the map container (`clientX - left`, `clientY - top`). */
  datatype Pixel = Pixel(x: real, y: real)

  datatype Bounds = Bounds(minX: real, minY: real, maxX: real, maxY: real)

  /** The crop handed to the capture, or the refusal of a too-small area. */
  datatype Crop = Crop(x: real, y: real, w: real, h: real) | TooSmall

  /** The smallest accepted width and height, in pixels. */
  const MinSide: real := 10.0

  function Min(a: real, b: real): (m: real)
    ensures m <= a && m <= b && (m == a || m == b)
  {
    if a <= b then a else b
  }

  function Max(a: real, b: real): (m: real)
    ensures m >= a && m >= b && (m == a || m == b)
  {
    if a >= b then a else b
  }

  function Abs(a: real): (r: real)
  {
    if a < 0.0 then -a else a
  }

  /** `Math.min`/`Math.max` of the start and end pixels: the box the two corners span. */
  function Normalize(start: Pixel, end: Pixel): (b: Bounds)
    ensures b.minX <= b.maxX && b.minY <= b.maxY
    ensures b.maxX - b.minX == Abs(end.x - start.x) && b.maxY - b.minY == Abs(end.y - start.y)
    ensures {b.minX, b.maxX} == {start.x, end.x} && {b.minY, b.maxY} == {start.y, end.y}
  {
    Bounds(Min(start.x, end.x), Min(start.y, end.y), Max(start.x, end.x), Max(start.y, end.y))
  }

  /** Dragging either way selects the same box. */
  lemma NormalizeSymmetric(a: Pixel, b: Pixel)
    ensures Normalize(a, b) == Normalize(b, a)
  {
  }

  /** The size check of `captureAndDetect` on the selected bounds. */
  function CropOf(b: Bounds): (c: Crop)
    ensures c.Crop? <==> b.maxX - b.minX >= MinSide && b.maxY - b.minY >= MinSide
    ensures c.Crop? ==> c.x == b.minX && c.y == b.minY && c.x + c.w == b.maxX && c.y + c.h == b.maxY
  {
    var w := b.maxX - b.minX;
    var h := b.maxY - b.minY;
    if w < MinSide || h < MinSide then TooSmall else Crop(b.minX, b.minY, w, h)
  }

  /**
   * The first size check (app.js:1147), made after the map is captured,
   * accepts a drag exactly when it moved at least 10 pixels along both axes.
   */
  lemma DragAccepted(start: Pixel, end: Pixel)
    ensures CropOf(Normalize(start, end)).Crop? <==>
      Abs(end.x - start.x) >= MinSide && Abs(end.y - start.y) >= MinSide
  {
  }
}
