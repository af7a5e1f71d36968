/** The arithmetic of the image viewer: zoom factors, the fit-to-window
    scale, the box the scaled image may move in, the clamping of margins and
    offsets at the end of a pan or zoom, and the mapping of a tap to an image
    pixel. The editor session applies these to its fields. */
module Viewport {
  import opened Geometry

  const MinScale: real := 1.0
  const MaxScale: real := 15.0

  function Min(a: real, b: real): (r: real)
    ensures r <= a && r <= b && (r == a || r == b)
  {
    if a <= b then a else b
  }

  function Max(a: real, b: real): (r: real)
    ensures r >= a && r >= b && (r == a || r == b)
  {
    if a >= b then a else b
  }

  /** `max(1.0, min(15.0, s))`: the viewer zoom is kept in [1, 15]; a value
      already in range is kept, one outside is moved to the nearer end. */
  function ClampScale(s: real): (r: real)
    ensures MinScale <= r <= MaxScale
    ensures MinScale <= s <= MaxScale ==> r == s
    ensures s < MinScale ==> r == MinScale
    ensures s > MaxScale ==> r == MaxScale
  {
    Max(MinScale, Min(MaxScale, s))
  }

  /** `min(vw / iw, vh / ih, 1.0)`: the scale at which the whole image fits
      the viewer, never enlarging it. */
  function WindowScale(vw: int, vh: int, iw: int, ih: int): (r: real)
    requires iw > 0 && ih > 0
    ensures r <= 1.0
    ensures vw > 0 && vh > 0 ==> r > 0.0
  {
    Min(Min(vw as real / iw as real, vh as real / ih as real), 1.0)
  }

  /** The image scaled by the fit-to-window scale fits the viewer, and one
      of the three limits is met exactly. */
  lemma WindowScaleFits(vw: int, vh: int, iw: int, ih: int)
    requires iw > 0 && ih > 0
    ensures var r := WindowScale(vw, vh, iw, ih);
      && r * iw as real <= vw as real && r * ih as real <= vh as real
      && (r == 1.0 || r * iw as real == vw as real || r * ih as real == vh as real)
  {
    var a, b := vw as real / iw as real, vh as real / ih as real;
    assert a * iw as real == vw as real;
    assert b * ih as real == vh as real;
    var r := WindowScale(vw, vh, iw, ih);
    assert r == a || r == b || r == 1.0;
    MulMono(r, a, iw as real);
    MulMono(r, b, ih as real);
  }

  /** No larger scale up to 1 lets the image fit: the fit-to-window scale
      is the largest fitting one. */
  lemma WindowScaleIsLargest(vw: int, vh: int, iw: int, ih: int, s: real)
    requires iw > 0 && ih > 0
    requires s <= 1.0 && s * iw as real <= vw as real && s * ih as real <= vh as real
    ensures s <= WindowScale(vw, vh, iw, ih)
  {
    var r := WindowScale(vw, vh, iw, ih);
    WindowScaleFits(vw, vh, iw, ih);
    MulMono(r, s, iw as real);
    MulMono(r, s, ih as real);
  }

  lemma MulMono(a: real, b: real, k: real)
    requires k > 0.0
    ensures a <= b <==> a * k <= b * k
    ensures a < b <==> a * k < b * k
  {
    if a < b {
      assert b * k - a * k == (b - a) * k;
    } else if b < a {
      assert a * k - b * k == (a - b) * k;
    }
  }

  /** `round((v - scaled) / 2)`: the offset that centres a length `scaled`
      in the viewer length `v`, to within half a pixel on each side. */
  function CentredOffset(v: int, scaled: real): (o: int)
    ensures -1.0 < 2.0 * o as real + scaled - v as real <= 1.0
  {
    Round((v as real - scaled) / 2.0)
  }

  /** `main_offset`: the offset that centres the image scaled by
      `imageScale` in the viewer, on both axes. */
  function CentredImage(vw: int, vh: int, iw: int, ih: int, imageScale: real): Pixel
  {
    Pixel(CentredOffset(vw, iw as real * imageScale), CentredOffset(vh, ih as real * imageScale))
  }

  /** The length of the box the scaled image may move in along one axis:
      the viewer length grown by the zoom, `v * (vs - 1) + scaled`. */
  function BoxLength(v: int, vs: real, scaled: real): (b: real)
    ensures v >= 0 && vs >= 1.0 ==> b >= scaled
  {
    v as real * (vs - 1.0) + scaled
  }

  /** The room the image has in the box: `bounding_box - scaled_image`. */
  function Slack(v: int, vs: real): (s: real)
    ensures v >= 0 && vs >= 1.0 ==> s >= 0.0
  {
    v as real * (vs - 1.0)
  }

  /** The rounded edges of the box, centred on the viewer. */
  datatype Bounds = Bounds(lo: int, hi: int)

  function AxisBounds(v: int, vs: real, scaled: real): (b: Bounds)
    ensures -1.0 < (b.hi - b.lo) as real - BoxLength(v, vs, scaled) < 1.0
    ensures -1.0 < (b.lo + b.hi) as real - v as real <= 1.0
  {
    var box := BoxLength(v, vs, scaled);
    var start := (v as real - box) / 2.0;
    Bounds(Round(start), Round(start + box))
  }

  /** At zoom 1 the box is the scaled image, and its near edge is the
      centring offset. */
  lemma UnzoomedBox(v: int, scaled: real)
    ensures BoxLength(v, 1.0, scaled) == scaled && Slack(v, 1.0) == 0.0
    ensures AxisBounds(v, 1.0, scaled).lo == CentredOffset(v, scaled)
  {
  }

  /** One axis of the margin record and of the viewer offset, before the
      offset is rounded: `near` is left or top, `far` right or bottom. */
  datatype Axis = Axis(near: real, far: real, pos: real)

  /** The clamping of `viewer_interaction_end`: a negative near margin
      becomes 0, the far one takes all the slack and the image is pinned to
      the box's near edge; otherwise a negative far margin is treated the
      same way at the far edge; otherwise nothing changes. With slack the
      margins come out non-negative; a clamped axis has its margins summing
      to the slack, one of them 0. */
  function Clamp(a: Axis, slack: real, b: Bounds, scaled: real): (r: Axis)
    ensures slack >= 0.0 ==> r.near >= 0.0 && r.far >= 0.0
    ensures a.near >= 0.0 && a.far >= 0.0 ==> r == a
    ensures a.near < 0.0 ==> r.near == 0.0 && r.far == slack && r.pos == b.lo as real
    ensures a.near >= 0.0 && a.far < 0.0 ==> r.far == 0.0 && r.near == slack && r.pos == b.hi as real - scaled
  {
    if a.near < 0.0 then Axis(0.0, slack, b.lo as real)
    else if a.far < 0.0 then Axis(slack, 0.0, b.hi as real - scaled)
    else a
  }

  /** A pan by `move` along one axis: the near margin grows by it, the far
      one shrinks by it and the offset moves with it, then the clamp. */
  function PanAxis(near: real, far: real, offset: int, move: real, slack: real, b: Bounds, scaled: real): Axis
  {
    Clamp(Axis(near + move, far - move, offset as real + move), slack, b, scaled)
  }

  /** A pan that does not reach the box's edges keeps the sum of the two
      margins and moves the image by exactly the pan; the margins end up
      non-negative whatever the pan. */
  lemma PanKeepsMarginSum(near: real, far: real, offset: int, move: real, slack: real, b: Bounds, scaled: real)
    requires slack >= 0.0
    ensures var r := PanAxis(near, far, offset, move, slack, b, scaled);
      && r.near >= 0.0 && r.far >= 0.0
      && (near + move >= 0.0 && far - move >= 0.0 ==>
            r.near + r.far == near + far && r.pos == offset as real + move)
      && (near + move < 0.0 || far - move < 0.0 ==> r.near + r.far == slack)
  {
  }

  /** The shift of the image's near edge that a zoom by `scale` around the
      cursor makes: `(cursor - start_offset) * (1 - scale)`. */
  function ZoomShift(cursor: real, startOffset: int, scale: real): real
  {
    (cursor - startOffset as real) * (1.0 - scale)
  }

  /** The zoom branch of `viewer_interaction_end` along one axis when the
      zoom did not return to fit-to-window: margins measured from the box's
      edges to the shifted image, the offset moved by the rounded shift,
      then the clamp. */
  function ZoomAxis(cursor: real, startOffset: int, offset: int, scale: real, slack: real, b: Bounds, scaled: real): Axis
  {
    var d := ZoomShift(cursor, startOffset, scale);
    var x := startOffset as real + d;
    Clamp(Axis(x - b.lo as real, b.hi as real - (x + scaled), (offset + Round(d)) as real), slack, b, scaled)
  }

  /** The zoom keeps the image point under the cursor in place: the cursor's
      distance to the shifted near edge, divided by the new image scale,
      equals its distance to the old edge divided by the old image scale. */
  lemma ZoomKeepsFocalPoint(cursor: real, startOffset: int, scale: real, startImageScale: real)
    requires scale != 0.0 && startImageScale != 0.0
    ensures (cursor - (startOffset as real + ZoomShift(cursor, startOffset, scale))) / (startImageScale * scale)
         == (cursor - startOffset as real) / startImageScale
  {
    var u := cursor - startOffset as real;
    assert cursor - (startOffset as real + u * (1.0 - scale)) == u * scale;
    assert (u * scale) / (startImageScale * scale) == u / startImageScale;
  }

  /** An unclamped zoom that starts from the current offset moves the image
      to within half a pixel of the focal-point-keeping position. */
  lemma ZoomOffsetNearFocal(cursor: real, offset: int, scale: real, slack: real, b: Bounds, scaled: real)
    requires slack >= 0.0
    ensures var r := ZoomAxis(cursor, offset, offset, scale, slack, b, scaled);
      var x := offset as real + ZoomShift(cursor, offset, scale);
      && r.near >= 0.0 && r.far >= 0.0
      && (x - b.lo as real >= 0.0 && b.hi as real - (x + scaled) >= 0.0 ==>
            x - 0.5 < r.pos <= x + 0.5 && r.near + r.far == (b.hi - b.lo) as real - scaled)
  {
  }

  /** Whether a zoom returned to the fit-to-window scale:
      `round(image_scale, 5) == round(window_scale, 5)`. */
  predicate AtWindowScale(imageScale: real, windowScale: real)
  {
    Round5(imageScale) == Round5(windowScale)
  }

  /** `start_scale == 15 and viewer_scale == 15`. */
  predicate AtScaleLimit(startScale: real, viewerScale: real)
  {
    startScale == MaxScale && viewerScale == MaxScale
  }

  /** `round((cursor - offset) / image_scale)` on one axis. */
  function TapAxis(cursor: real, offset: int, imageScale: real): int
    requires imageScale != 0.0
  {
    Round((cursor - offset as real) / imageScale)
  }

  /** The image pixel a tap lands on. */
  function TapCoord(cursor: Point, offset: Pixel, imageScale: real): Pixel
    requires imageScale != 0.0
  {
    Pixel(TapAxis(cursor.x, offset.x, imageScale), TapAxis(cursor.y, offset.y, imageScale))
  }

  /** A tap lands on pixel `q` exactly when the cursor lies in the screen
      cell of `q`: half a scaled pixel before its centre up to, not
      including, half a scaled pixel after it. */
  lemma TapAxisIs(cursor: real, offset: int, imageScale: real, q: int)
    requires imageScale > 0.0
    ensures TapAxis(cursor, offset, imageScale) == q
        <==> offset as real + (q as real - 0.5) * imageScale <= cursor < offset as real + (q as real + 0.5) * imageScale
  {
    var t := (cursor - offset as real) / imageScale;
    RoundIs(t, q);
    ScaleInterval(t, cursor - offset as real, imageScale, q as real - 0.5, q as real + 0.5);
  }

  /** Multiplying by a positive factor maps a half-open interval onto the
      scaled interval. */
  lemma ScaleInterval(t: real, u: real, k: real, a: real, b: real)
    requires k > 0.0 && t * k == u
    ensures a <= t < b <==> a * k <= u < b * k
  {
    MulMono(a, t, k);
    MulMono(t, b, k);
  }

  /** Tapping the screen position of a pixel's centre gives back that
      pixel. */
  lemma TapInvertsPlacement(offset: Pixel, imageScale: real, q: Pixel)
    requires imageScale > 0.0
    ensures TapCoord(Point(offset.x as real + q.x as real * imageScale, offset.y as real + q.y as real * imageScale),
                     offset, imageScale) == q
  {
    var cx := offset.x as real + q.x as real * imageScale;
    var cy := offset.y as real + q.y as real * imageScale;
    TapAxisIs(cx, offset.x, imageScale, q.x);
    TapAxisIs(cy, offset.y, imageScale, q.y);
    MulMono(q.x as real - 0.5, q.x as real, imageScale);
    MulMono(q.x as real, q.x as real + 0.5, imageScale);
    MulMono(q.y as real - 0.5, q.y as real, imageScale);
    MulMono(q.y as real, q.y as real + 0.5, imageScale);
  }

  /** An 800 x 600 viewer showing a 400 x 300 image: the image is not
      enlarged and sits centred at (200, 150). */
  lemma SmallImageCentred()
    ensures WindowScale(800, 600, 400, 300) == 1.0
    ensures CentredOffset(800, 400.0 * WindowScale(800, 600, 400, 300)) == 200
    ensures CentredOffset(600, 300.0 * WindowScale(800, 600, 400, 300)) == 150
  {
    RoundIs(200.0, 200);
    RoundIs(150.0, 150);
  }
}
