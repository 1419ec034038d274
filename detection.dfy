/**
 * What both copies of the detection component share: the backend's result,
 * the opaque browser handles, the phase the template shows, and the overlay
 * geometry of `drawDetections`.
 */
module Detection {
  import opened Opt

  /** A `blob:` URL handle made by `URL.createObjectURL`, as an opaque token. */
  type Url = nat

  /** The handle in `u`, as a set. */
  function Handles(u: Option<Url>): (s: set<Url>)
    ensures forall v :: v in s <==> u == Some(v)
  {
    if u.Some? then {u.value} else {}
  }

  /** The screenshot image blob, as an opaque token. */
  type Blob = nat

  /** `[x1, y1, x2, y2]` in source-image pixels. */
  datatype BBox = BBox(x1: real, y1: real, x2: real, y2: real)

  datatype DetectedObject = DetectedObject(labelText: string, confidence: real, bbox: BBox)

  /** The body of a successful `/api/yolo/predict` answer. */
  datatype DetectionResult = DetectionResult(numDetections: int, confThres: real, detections: seq<DetectedObject>)

  /** Where a detection session stands. */
  datatype SessionPhase = Idle | PreviewPending | Detecting | ResultReady

  /**
   * A four-state summary of the data fields: `loading` first, then a held
   * result, then a held screenshot. The template's panels are not exclusive
   * (the hint still shows under the spinner), so this is an abstraction of
   * the fields and not a picture of what is rendered.
   */
  function PhaseOf(loading: bool, result: Option<DetectionResult>, screenshot: Option<Url>): (ph: SessionPhase)
    ensures ph == Detecting <==> loading
    ensures ph == ResultReady <==> !loading && result.Some?
    ensures ph == PreviewPending <==> !loading && result.None? && screenshot.Some?
    ensures ph == Idle <==> !loading && result.None? && screenshot.None?
  {
    if loading then Detecting
    else if result.Some? then ResultReady
    else if screenshot.Some? then PreviewPending
    else Idle
  }

  /** `(x, y, w, h)` on the overlay canvas. */
  datatype Rect = Rect(x: real, y: real, w: real, h: real)

  /** One detection as drawn: the box, the top of the label background, the label text origin. */
  datatype DrawnBox = DrawnBox(box: Rect, labelTop: real, textX: real, textY: real)

  /** Height of the label background, in canvas pixels. */
  const LabelHeight: real := 20.0

  function Max(a: real, b: real): (m: real)
  {
    if a >= b then a else b
  }

  /**
   * One detection scaled from image pixels to canvas pixels by `(sx, sy)`:
   * the box's corners are the scaled bbox corners, and the label sits
   * 22 pixels above the box, pushed down to the top edge when it would go above it.
   */
  function BoxFor(d: DetectedObject, sx: real, sy: real): (r: DrawnBox)
    ensures r.box.x == d.bbox.x1 * sx && r.box.x + r.box.w == d.bbox.x2 * sx
    ensures r.box.y == d.bbox.y1 * sy && r.box.y + r.box.h == d.bbox.y2 * sy
    ensures r.labelTop >= 0.0 && r.labelTop >= r.box.y - LabelHeight - 2.0
    ensures r.box.y >= LabelHeight + 2.0 ==> r.labelTop + LabelHeight + 2.0 == r.box.y
    ensures r.box.y < LabelHeight + 2.0 ==> r.labelTop == 0.0
    ensures r.textX == r.box.x + 4.0
    ensures r.textY == (if r.box.y - LabelHeight >= 2.0 then r.box.y - LabelHeight else 2.0)
  {
    var x := d.bbox.x1 * sx;
    var y := d.bbox.y1 * sy;
    var w := (d.bbox.x2 - d.bbox.x1) * sx;
    var h := (d.bbox.y2 - d.bbox.y1) * sy;
    DrawnBox(Rect(x, y, w, h), Max(0.0, y - LabelHeight - 2.0), x + 4.0, Max(2.0, y - LabelHeight))
  }

  /**
   * `drawDetections`: clears the overlay, then draws every detection in
   * order, scaled by canvas size over the image's natural size. Nothing is
   * drawn when the canvas or image is missing or no result is held.
   */
  method DrawDetections(mounted: bool, canvasW: real, canvasH: real, naturalW: real, naturalH: real,
                        result: Option<DetectionResult>)
    returns (drawn: seq<DrawnBox>)
    requires naturalW > 0.0 && naturalH > 0.0
    ensures !mounted || result.None? ==> drawn == []
    ensures mounted && result.Some? ==>
      |drawn| == |result.value.detections| &&
      forall i | 0 <= i < |drawn| ::
        drawn[i] == BoxFor(result.value.detections[i], canvasW / naturalW, canvasH / naturalH)
  {
    drawn := [];
    if !mounted || result.None? {
      return;
    }
    var scaleX := canvasW / naturalW;
    var scaleY := canvasH / naturalH;
    var dets := result.value.detections;
    for i := 0 to |dets|
      invariant |drawn| == i
      invariant forall k | 0 <= k < i :: drawn[k] == BoxFor(dets[k], scaleX, scaleY)
    {
      drawn := drawn + [BoxFor(dets[i], scaleX, scaleY)];
    }
  }

  /** A bbox inside the natural image is drawn inside the canvas. */
  lemma BoxInsideCanvas(d: DetectedObject, canvasW: real, canvasH: real, naturalW: real, naturalH: real)
    requires naturalW > 0.0 && naturalH > 0.0 && canvasW >= 0.0 && canvasH >= 0.0
    requires 0.0 <= d.bbox.x1 <= d.bbox.x2 <= naturalW
    requires 0.0 <= d.bbox.y1 <= d.bbox.y2 <= naturalH
    ensures var r := BoxFor(d, canvasW / naturalW, canvasH / naturalH);
      0.0 <= r.box.x && r.box.x + r.box.w <= canvasW && 0.0 <= r.box.w &&
      0.0 <= r.box.y && r.box.y + r.box.h <= canvasH && 0.0 <= r.box.h
  {
    var sx, sy := canvasW / naturalW, canvasH / naturalH;
    assert sx >= 0.0 && sy >= 0.0;
    ScaledBelow(d.bbox.x1, d.bbox.x2, naturalW, canvasW);
    ScaledBelow(d.bbox.y1, d.bbox.y2, naturalH, canvasH);
  }

  lemma ScaledBelow(a: real, b: real, n: real, c: real)
    requires n > 0.0 && c >= 0.0 && 0.0 <= a <= b <= n
    ensures 0.0 <= a * (c / n) <= b * (c / n) <= c
  {
    var s := c / n;
    assert s * n == c;
    assert a * s <= b * s;
    assert b * s <= n * s;
  }

  /** The rendered-at-double-size example: `[10, 10, 50, 50]` on 100x100 shown at 200x200. */
  lemma DoubleSizeExample(text: string, conf: real)
    ensures BoxFor(DetectedObject(text, conf, BBox(10.0, 10.0, 50.0, 50.0)), 200.0 / 100.0, 200.0 / 100.0).box
      == Rect(20.0, 20.0, 80.0, 80.0)
  {
  }
}
