/** The annotation editor's session: the viewer state, the selected tool,
    the table of annotations, the overlay mask and its undo history, and
    the event handlers that change them. */
module Editor {
  import opened Geometry
  import opened Compositor
  import opened Store
  import opened History
  import opened Overlap
  import opened Viewport

  /** The toolbar's tools, in toolbar order. */
  datatype Tool = MagicSelect | ManualSelect | RemoveTool

  /** The argument of `remove_mezo`: `'undo'`, a row id, or `None` when the
      remove tool hit nothing. */
  datatype Key = Undo | ById(id: nat) | NoKey

  /** The `margin` record: distances from the image to the edges of the box
      it may move in. */
  datatype Margin = Margin(left: real, top: real, right: real, bottom: real)

  /** The viewer offset and margins that the end of a gesture sets. */
  datatype View = View(offset: Pixel, margin: Margin)

  const NoMargin := Margin(0.0, 0.0, 0.0, 0.0)

  /** `tools[index]`. */
  function ToolAt(index: nat): (t: Tool)
    requires index < 3
    ensures index == 0 <==> t == MagicSelect
    ensures index == 1 <==> t == ManualSelect
    ensures index == 2 <==> t == RemoveTool
  {
    [MagicSelect, ManualSelect, RemoveTool][index]
  }

  /** The row that `remove_mezo` deletes: for an undo, the newest row of the
      image; for an id, the row with that id. `None` and the id 0 are
      falsy, so nothing is removed for them. */
  function Target(key: Key, rows: seq<MezoRow>, imageId: nat): (r: Option<MezoRow>)
    ensures r.Some? ==> r.value in rows
    ensures key.ById? && key.id != 0 ==> r == FindId(rows, key.id)
    ensures key.Undo? ==> r == LastRowOf(rows, imageId)
    ensures key.NoKey? || key == ById(0) ==> r.None?
  {
    match key
    case NoKey => None
    case Undo =>
      LastRowOfIn(rows, imageId);
      LastRowOf(rows, imageId)
    case ById(id) => if id == 0 then None else FindId(rows, id)
  }

  lemma LastRowOfIn(rows: seq<MezoRow>, imageId: nat)
    ensures LastRowOf(rows, imageId).Some? ==> LastRowOf(rows, imageId).value in rows
  {
    var own := RowsOf(rows, imageId);
    if own != [] {
      assert own[|own| - 1] in own;
    }
  }

  class EditorSession {
    /** The ids of the sample's images, in the sample's order. */
    var imageIds: seq<nat>
    var imageIndex: nat
    var imageWidth: int
    var imageHeight: int
    var viewerWidth: int
    var viewerHeight: int
    var viewerScale: real
    var windowScale: real
    var imageScale: real
    /** The zoom factor of the last `update_scale`, present until a zoom end
        consumes it. */
    var scale: Option<real>
    var mainOffset: Pixel
    var viewerOffset: Option<Pixel>
    var margin: Margin
    var startCursor: Option<Point>
    var startScale: Option<real>
    var startOffset: Option<Pixel>
    /** The focal point of the last pan update, present until a pan end
        consumes it. */
    var move: Option<Point>
    var tool: Option<Tool>
    /** The centre chosen by the first click of a manual selection. */
    var currentCoord: Option<Pixel>
    /** The `mezo_data` table, and the next AUTOINCREMENT id. */
    var rows: seq<MezoRow>
    var nextId: nat
    var mask: Mask
    /** Mask snapshots for undo, oldest first. */
    var prevMasks: seq<Mask>

    /** What holds whatever the viewer is doing. */
    predicate Session()
      reads this`imageIndex, this`imageIds, this`rows, this`nextId, this`prevMasks, this`currentCoord, this`tool,
            this`margin
    {
      && imageIndex < |imageIds|
      && Wellformed(rows, nextId) && nextId > 0
      && |prevMasks| <= Capacity
      && (currentCoord.Some? ==> tool == Some(ManualSelect))
      && margin.left >= 0.0 && margin.top >= 0.0 && margin.right >= 0.0 && margin.bottom >= 0.0
    }

    /** An image is open in a viewer of positive size. */
    predicate Loaded()
      reads this`imageIndex, this`imageIds, this`rows, this`nextId, this`prevMasks, this`currentCoord, this`tool,
            this`margin, this`imageWidth, this`imageHeight, this`viewerWidth, this`viewerHeight
    {
      && Session()
      && imageWidth > 0 && imageHeight > 0
      && viewerWidth > 0 && viewerHeight > 0
    }

    /** An image is open and shown: the zoom is within its limits, both
        scales are positive and the viewer offset is set. */
    predicate Valid()
      reads this`imageIndex, this`imageIds, this`rows, this`nextId, this`prevMasks, this`currentCoord, this`tool,
            this`margin, this`imageWidth, this`imageHeight, this`viewerWidth, this`viewerHeight,
            this`viewerScale, this`windowScale, this`imageScale, this`viewerOffset
    {
      && Loaded()
      && MinScale <= viewerScale <= MaxScale
      && windowScale > 0.0 && imageScale > 0.0
      && viewerOffset.Some?
    }

    /** The scales agree with each other and with the sizes: the window
        scale fits the image into the viewer and the image scale is the
        window scale times the zoom. Only the members that change a size or
        a scale mention it; the others leave its fields alone. */
    predicate ScalesAgree()
      reads this`imageWidth, this`imageHeight, this`viewerWidth, this`viewerHeight,
            this`viewerScale, this`windowScale, this`imageScale
    {
      && imageWidth > 0 && imageHeight > 0
      && windowScale == WindowScale(viewerWidth, viewerHeight, imageWidth, imageHeight)
      && imageScale == windowScale * viewerScale
    }

    function ImageId(): nat
      reads this`imageIds, this`imageIndex
      requires imageIndex < |imageIds|
    {
      imageIds[imageIndex]
    }

    /** `mezo_data`: the open image's rows, as `get_mezo_data` reloads them
        after every change to the table. */
    function MezoData(): seq<MezoRow>
      reads this`rows, this`imageIds, this`imageIndex
      requires imageIndex < |imageIds|
    {
      RowsOf(rows, ImageId())
    }

    function ScaledWidth(): real
      reads this`imageWidth, this`imageScale
    {
      imageWidth as real * imageScale
    }

    function ScaledHeight(): real
      reads this`imageHeight, this`imageScale
    {
      imageHeight as real * imageScale
    }

    /** The offset and margins a pan ends with: both axes shifted by the
        distance from the start of the gesture to the last focal point, then
        clamped to the movement box. */
    function PanEnd(): (v: View)
      reads this
      requires Valid() && startCursor.Some? && move.Some?
      ensures v.margin.left >= 0.0 && v.margin.top >= 0.0 && v.margin.right >= 0.0 && v.margin.bottom >= 0.0
    {
      var ax := PanAxis(margin.left, margin.right, viewerOffset.value.x, move.value.x - startCursor.value.x,
                        Slack(viewerWidth, viewerScale), AxisBounds(viewerWidth, viewerScale, ScaledWidth()), ScaledWidth());
      var ay := PanAxis(margin.top, margin.bottom, viewerOffset.value.y, move.value.y - startCursor.value.y,
                        Slack(viewerHeight, viewerScale), AxisBounds(viewerHeight, viewerScale, ScaledHeight()), ScaledHeight());
      View(Pixel(Round(ax.pos), Round(ay.pos)), Margin(ax.near, ay.near, ax.far, ay.far))
    }

    /** The offset and margins a zoom ends with: back at the fit-to-window
        scale, the centred offset and no margins; otherwise the image is
        shifted around the focal point and clamped to the movement box. */
    function ZoomEnd(): (v: View)
      reads this
      requires Valid() && startCursor.Some? && startOffset.Some? && scale.Some?
      ensures v.margin.left >= 0.0 && v.margin.top >= 0.0 && v.margin.right >= 0.0 && v.margin.bottom >= 0.0
      ensures AtWindowScale(imageScale, windowScale) ==> v == View(mainOffset, NoMargin)
    {
      if AtWindowScale(imageScale, windowScale) then View(mainOffset, NoMargin)
      else
        var ax := ZoomAxis(startCursor.value.x, startOffset.value.x, viewerOffset.value.x, scale.value,
                           Slack(viewerWidth, viewerScale), AxisBounds(viewerWidth, viewerScale, ScaledWidth()), ScaledWidth());
        var ay := ZoomAxis(startCursor.value.y, startOffset.value.y, viewerOffset.value.y, scale.value,
                           Slack(viewerHeight, viewerScale), AxisBounds(viewerHeight, viewerScale, ScaledHeight()), ScaledHeight());
        View(Pixel(Round(ax.pos), Round(ay.pos)), Margin(ax.near, ay.near, ax.far, ay.far))
    }

    /** `update_scale(factor)`: the zoom is multiplied by the factor and
        clamped, the scales and the centring offset are recomputed, and the
        viewer offset and margins are seeded only when no offset is set. The
        factor actually applied is recorded. */
    method UpdateScale(factor: real)
      requires Loaded() && viewerScale >= MinScale
      modifies this`viewerScale, this`windowScale, this`imageScale, this`mainOffset, this`viewerOffset,
               this`margin, this`scale
      ensures Valid() && ScalesAgree()
      ensures viewerScale == ClampScale(old(viewerScale) * factor)
      ensures mainOffset == CentredImage(viewerWidth, viewerHeight, imageWidth, imageHeight, imageScale)
      ensures old(viewerOffset).None? ==> viewerOffset == Some(mainOffset) && margin == NoMargin
      ensures old(viewerOffset).Some? ==> viewerOffset == old(viewerOffset) && margin == old(margin)
      ensures scale == Some(viewerScale / old(viewerScale))
    {
      var vs := ClampScale(viewerScale * factor);
      scale := Some(vs / viewerScale);
      Rescale(vs);
    }

    /** The part of `update_scale` after the new zoom is known. */
    method Rescale(vs: real)
      requires Loaded() && MinScale <= vs <= MaxScale
      modifies this`viewerScale, this`windowScale, this`imageScale, this`mainOffset, this`viewerOffset, this`margin
      ensures Valid() && ScalesAgree()
      ensures viewerScale == vs
      ensures mainOffset == CentredImage(viewerWidth, viewerHeight, imageWidth, imageHeight, imageScale)
      ensures old(viewerOffset).None? ==> viewerOffset == Some(mainOffset) && margin == NoMargin
      ensures old(viewerOffset).Some? ==> viewerOffset == old(viewerOffset) && margin == old(margin)
    {
      SetScales(vs);
      mainOffset := CentredImage(viewerWidth, viewerHeight, imageWidth, imageHeight, imageScale);
      if viewerOffset.None? {
        viewerOffset := Some(mainOffset);
        margin := NoMargin;
      }
    }

    /** The three scales of `update_scale`: the zoom, the fit-to-window
        scale and their product. */
    method SetScales(vs: real)
      requires imageWidth > 0 && imageHeight > 0 && viewerWidth > 0 && viewerHeight > 0 && vs >= MinScale
      modifies this`viewerScale, this`windowScale, this`imageScale
      ensures ScalesAgree() && viewerScale == vs && windowScale > 0.0 && imageScale > 0.0
    {
      viewerScale := vs;
      windowScale := WindowScale(viewerWidth, viewerHeight, imageWidth, imageHeight);
      imageScale := windowScale * viewerScale;
      MulMono(0.0, viewerScale, windowScale);
    }

    /** `window_resized`: the viewer takes the window less the 5 px borders,
        the 40 px menu bar and the 26 px status bar, then the scales are
        recomputed at the current zoom. */
    method WindowResized(width: int, height: int)
      requires Session() && imageWidth > 0 && imageHeight > 0 && MinScale <= viewerScale <= MaxScale
      requires width > 10 && height > 76
      modifies this`viewerWidth, this`viewerHeight, this`viewerScale, this`windowScale, this`imageScale,
               this`mainOffset, this`viewerOffset, this`margin, this`scale
      ensures Valid() && ScalesAgree()
      ensures viewerWidth == width - 10 && viewerHeight == height - 76
      ensures viewerScale == old(viewerScale) && scale == Some(1.0)
      ensures mainOffset == CentredImage(viewerWidth, viewerHeight, imageWidth, imageHeight, imageScale)
      ensures old(viewerOffset).None? ==> viewerOffset == Some(mainOffset) && margin == NoMargin
      ensures old(viewerOffset).Some? ==> viewerOffset == old(viewerOffset) && margin == old(margin)
    {
      viewerWidth := width - 5 - 5;
      viewerHeight := height - 40 - 5 - 5 - 26;
      ghost var viewerScale0 := viewerScale;
      UpdateScale(1.0);
      assert viewerScale0 / viewerScale0 == 1.0;
    }

    /** `viewer_interaction_start`: the gesture's start point, zoom and
        offset are recorded. */
    method InteractionStart(cursor: Point)
      requires Valid()
      modifies this`startCursor, this`startScale, this`startOffset
      ensures Valid()
      ensures startCursor == Some(cursor) && startScale == Some(viewerScale) && startOffset == viewerOffset
    {
      startCursor := Some(cursor);
      startScale := Some(viewerScale);
      startOffset := viewerOffset;
    }

    /** `viewer_interaction_update`: a factor of exactly 1 is a pan and
        records the focal point; any other factor zooms. */
    method InteractionUpdate(factor: real, focal: Point)
      requires Valid() && ScalesAgree()
      modifies this`move, this`viewerScale, this`windowScale, this`imageScale, this`mainOffset, this`viewerOffset,
               this`margin, this`scale
      ensures Valid() && ScalesAgree()
      ensures factor == 1.0 ==> move == Some(focal) && unchanged(this`viewerScale, this`imageScale, this`scale)
      ensures factor != 1.0 ==>
        && move == old(move)
        && viewerScale == ClampScale(old(viewerScale) * factor) && scale == Some(viewerScale / old(viewerScale))
      ensures viewerOffset == old(viewerOffset) && margin == old(margin)
    {
      if factor == 1.0 {
        move := Some(focal);
      } else {
        UpdateScale(factor);
      }
    }

    /** `viewer_interaction_end`. A recorded pan is applied first; else a
        recorded zoom, unless the gesture started and ended at the largest
        zoom; a gesture at the largest zoom changes nothing; anything else
        is a tap, and its image pixel is returned for the tools. The margins
        stay non-negative in every case. */
    method InteractionEnd() returns (tap: Option<Pixel>)
      requires Valid() && startCursor.Some? && startScale.Some? && startOffset.Some?
      modifies this`viewerOffset, this`margin, this`move, this`scale
      ensures Valid()
      ensures old(move).Some? ==>
        && viewerOffset == Some(old(PanEnd()).offset) && margin == old(PanEnd()).margin
        && move == None && scale == old(scale) && tap == None
      ensures old(move).None? && old(scale).Some? && !AtScaleLimit(startScale.value, viewerScale) ==>
        && viewerOffset == Some(old(ZoomEnd()).offset) && margin == old(ZoomEnd()).margin
        && move == None && scale == None && tap == None
      ensures old(move).None? && AtScaleLimit(startScale.value, viewerScale) ==>
        && viewerOffset == old(viewerOffset) && margin == old(margin) && scale == old(scale) && tap == None
      ensures old(move).None? && old(scale).None? && !AtScaleLimit(startScale.value, viewerScale) ==>
        && viewerOffset == old(viewerOffset) && margin == old(margin) && scale == None
        && imageScale > 0.0 && tap == Some(TapCoord(startCursor.value, viewerOffset.value, imageScale))
      ensures move == None
    {
      var limit := AtScaleLimit(startScale.value, viewerScale);
      tap := None;
      if move.Some? {
        var v := PanEnd();
        margin := v.margin;
        viewerOffset := Some(v.offset);
        move := None;
      } else if scale.Some? && !limit {
        var v := ZoomEnd();
        margin := v.margin;
        viewerOffset := Some(v.offset);
        scale := None;
      } else if limit {
        return;
      } else {
        tap := Some(TapCoord(startCursor.value, viewerOffset.value, imageScale));
      }
    }

    /** The tool part of `viewer_interaction_end`: the tapped pixel goes to
        the selected tool, and without a tool nothing changes. `found` is
        the circle the segmentation model gives for the tap; `radius` is the
        distance from a pending centre to the tap, the square root of the
        squared distance. */
    method Click(coord: Pixel, found: Circle, radius: real)
      requires Valid()
      requires tool == Some(ManualSelect) && currentCoord.Some? ==>
        radius >= 0.0 && radius * radius == DistSq(coord, currentCoord.value) as real
      modifies this`rows, this`nextId, this`mask, this`prevMasks, this`currentCoord
      ensures Valid()
      ensures tool.None? ==> unchanged(this`rows, this`nextId, this`mask, this`prevMasks, this`currentCoord)
      ensures tool != Some(ManualSelect) ==> currentCoord == old(currentCoord)
      ensures tool == Some(MagicSelect) ==>
        && rows == Insert(old(rows), old(nextId), ImageId(), found.center, found.radius * 2.0)
        && nextId == old(nextId) + 1
        && MezoData() == old(MezoData()) + [MezoRow(old(nextId), ImageId(), found.center, found.radius * 2.0,
                                                    Square(found.radius * 2.0))]
        && mask == Paint(old(mask), found) && prevMasks == Push(old(prevMasks), old(mask))
      ensures tool == Some(ManualSelect) && old(currentCoord).None? ==>
        currentCoord == Some(coord) && unchanged(this`rows, this`nextId, this`mask, this`prevMasks)
      ensures tool == Some(ManualSelect) && old(currentCoord).Some? ==>
        var c0 := old(currentCoord).value;
        && currentCoord == None
        && rows == Insert(old(rows), old(nextId), ImageId(), c0, radius * 2.0) && nextId == old(nextId) + 1
        && MezoData() == old(MezoData()) + [MezoRow(old(nextId), ImageId(), c0, radius * 2.0, Square(radius * 2.0))]
        && mask == Paint(old(mask), Circle(c0, radius)) && prevMasks == Push(old(prevMasks), old(mask))
      ensures tool == Some(RemoveTool) ==> prevMasks == old(prevMasks) && nextId == old(nextId)
      ensures tool == Some(RemoveTool)
              && (forall k :: 0 <= k < |old(MezoData())| ==> !InDisc(coord, RowCircle(old(MezoData())[k])))
              ==> unchanged(this`rows, this`mask)
      ensures tool == Some(RemoveTool)
              && (exists k :: 0 <= k < |old(MezoData())| && InDisc(coord, RowCircle(old(MezoData())[k]))) ==>
        exists k :: 0 <= k < |old(MezoData())| && InDisc(coord, RowCircle(old(MezoData())[k]))
          && (forall j :: k < j < |old(MezoData())| ==> !InDisc(coord, RowCircle(old(MezoData())[j])))
          && rows == Delete(old(rows), old(MezoData())[k].id)
          && mask == Removal(old(mask), old(MezoData())[k], MezoData())
    {
      match tool
      case None =>
      case Some(MagicSelect) => AddMezo(found);
      case Some(ManualSelect) => ManualSelectAt(coord, radius);
      case Some(RemoveTool) => RemoveToolAt(coord);
    }

    /** `add_mezo_to_db`: a row for the open image with the next id, the
        square computed from the diameter. */
    method AddMezoToDb(center: Pixel, diameter: real)
      requires Session()
      modifies this`rows, this`nextId
      ensures Session()
      ensures rows == Insert(old(rows), old(nextId), ImageId(), center, diameter) && nextId == old(nextId) + 1
      ensures MezoData() == old(MezoData()) + [MezoRow(old(nextId), ImageId(), center, diameter, Square(diameter))]
    {
      InsertAppends(rows, nextId, ImageId(), center, diameter, ImageId());
      rows := Insert(rows, nextId, ImageId(), center, diameter);
      nextId := nextId + 1;
    }

    /** `add_mezo_to_viewer`: unless called from the recursive repaint, the
        current mask is saved in the history first (keeping three); then the
        circle is painted. */
    method AddMezoToViewer(c: Circle, recursive: bool)
      requires |prevMasks| <= Capacity
      modifies this`mask, this`prevMasks
      ensures mask == Paint(old(mask), c)
      ensures prevMasks == if recursive then old(prevMasks) else Push(old(prevMasks), old(mask))
      ensures |prevMasks| <= Capacity
    {
      if !recursive {
        PushKeepsNewest(prevMasks, mask);
        prevMasks := Push(prevMasks, mask);
      }
      mask := Paint(mask, c);
    }

    /** What `magic_select` and the second click of `manual_select` do with
        the circle they settle on: a row with twice its radius as diameter is
        recorded for the open image, and the circle is painted after the
        mask is saved for undo. */
    method AddMezo(c: Circle)
      requires Valid()
      modifies this`rows, this`nextId, this`mask, this`prevMasks
      ensures Valid()
      ensures MezoData() == old(MezoData()) + [MezoRow(old(nextId), ImageId(), c.center, c.radius * 2.0, Square(c.radius * 2.0))]
      ensures rows == Insert(old(rows), old(nextId), ImageId(), c.center, c.radius * 2.0) && nextId == old(nextId) + 1
      ensures mask == Paint(old(mask), c) && prevMasks == Push(old(prevMasks), old(mask))
    {
      AddMezoToDb(c.center, c.radius * 2.0);
      AddMezoToViewer(c, false);
    }

    /** `manual_select`: the first click only records the centre; the second
        records a row centred there with twice the distance between the
        clicks as diameter, paints it and clears the centre. A second click
        on the centre itself gives a row of diameter 0. */
    method ManualSelectAt(coord: Pixel, radius: real)
      requires Valid() && tool == Some(ManualSelect)
      requires currentCoord.Some? ==> radius >= 0.0 && radius * radius == DistSq(coord, currentCoord.value) as real
      modifies this`rows, this`nextId, this`mask, this`prevMasks, this`currentCoord
      ensures Valid()
      ensures old(currentCoord).None? ==>
        currentCoord == Some(coord) && unchanged(this`rows, this`nextId, this`mask, this`prevMasks)
      ensures old(currentCoord).Some? ==>
        var c0 := old(currentCoord).value;
        && currentCoord == None
        && rows == Insert(old(rows), old(nextId), ImageId(), c0, radius * 2.0) && nextId == old(nextId) + 1
        && MezoData() == old(MezoData()) + [MezoRow(old(nextId), ImageId(), c0, radius * 2.0, Square(radius * 2.0))]
        && mask == Paint(old(mask), Circle(c0, radius)) && prevMasks == Push(old(prevMasks), old(mask))
    {
      if currentCoord.None? {
        currentCoord := Some(coord);
      } else {
        var c0 := currentCoord.value;
        currentCoord := None;
        AddMezo(Circle(c0, radius));
      }
    }

    /** `remove_tool`: the open image's rows are scanned newest first and the
        first whose disc holds the tap is removed; a tap outside every disc
        removes nothing. The history is not touched either way. */
    method RemoveToolAt(coord: Pixel)
      requires Valid()
      modifies this`rows, this`mask, this`prevMasks
      ensures Valid()
      ensures prevMasks == old(prevMasks)
      ensures (forall k :: 0 <= k < |old(MezoData())| ==> !InDisc(coord, RowCircle(old(MezoData())[k])))
              ==> unchanged(this`rows, this`mask)
      ensures (exists k :: 0 <= k < |old(MezoData())| && InDisc(coord, RowCircle(old(MezoData())[k]))) ==>
        exists k :: 0 <= k < |old(MezoData())| && InDisc(coord, RowCircle(old(MezoData())[k]))
          && (forall j :: k < j < |old(MezoData())| ==> !InDisc(coord, RowCircle(old(MezoData())[j])))
          && rows == Delete(old(rows), old(MezoData())[k].id)
          && mask == Removal(old(mask), old(MezoData())[k], MezoData())
    {
      var own := MezoData();
      var hit := LastContaining(own, coord);
      if hit.Some? {
        var k :| 0 <= k < |own| && own[k].id == hit.value && InDisc(coord, RowCircle(own[k]))
          && forall j :: k < j < |own| ==> !InDisc(coord, RowCircle(own[j]));
        assert own[k] in rows;
        UniqueId(rows, nextId, own[k]);
        assert FindId(rows, hit.value) == Some(own[k]);
        RemoveMezo(ById(hit.value));
      } else {
        RemoveMezo(NoKey);
      }
    }

    /** `remove_mezo`. The target row is deleted from the table. An undo with
        a saved mask restores the newest snapshot; any other removal erases
        the target's disc, then erases and repaints, in the traversal order,
        every row of the image reachable from it through intersections. With
        no target (a falsy key, or an undo on an image without rows, where
        the query returns nothing) nothing changes. */
    method RemoveMezo(key: Key)
      requires Valid()
      modifies this`rows, this`mask, this`prevMasks
      ensures Valid()
      ensures Target(key, old(rows), ImageId()).None? ==> unchanged(this`rows, this`mask, this`prevMasks)
      ensures Target(key, old(rows), ImageId()).Some? ==>
        var t := Target(key, old(rows), ImageId()).value;
        && rows == Delete(old(rows), t.id)
        && (key == Undo && old(prevMasks) != [] ==>
              mask == old(prevMasks)[|old(prevMasks)| - 1] && prevMasks == old(prevMasks)[..|old(prevMasks)| - 1])
        && (key != Undo || old(prevMasks) == [] ==>
              mask == Removal(old(mask), t, MezoData()) && prevMasks == old(prevMasks))
    {
      var target := Target(key, rows, ImageId());
      if target.None? {
        return;
      }
      RemoveRow(target.value, key == Undo);
      assert ImageId() == old(ImageId());
    }

    /** `remove_mezo` once its target row is known. */
    method RemoveRow(t: MezoRow, undo: bool)
      requires Valid()
      modifies this`rows, this`mask, this`prevMasks
      ensures Valid()
      ensures rows == Delete(old(rows), t.id)
      ensures undo && old(prevMasks) != [] ==> prevMasks + [mask] == old(prevMasks)
      ensures !undo || old(prevMasks) == [] ==> mask == Removal(old(mask), t, MezoData()) && prevMasks == old(prevMasks)
    {
      DeleteRow(t.id);
      if |prevMasks| > 0 && undo {
        RestoreSnapshot();
      } else {
        Repaint(t, MezoData());
      }
    }

    /** The `DELETE` of `remove_mezo`: the row with the id leaves the table. */
    method DeleteRow(id: nat)
      requires Valid()
      modifies this`rows
      ensures Valid()
      ensures rows == Delete(old(rows), id)
    {
      DeleteKeepsOrder(rows, nextId, id);
      rows := Delete(rows, id);
    }

    /** The undo branch of `remove_mezo`: the newest snapshot becomes the
        mask and leaves the history. */
    method RestoreSnapshot()
      requires prevMasks != []
      modifies this`mask, this`prevMasks
      ensures prevMasks + [mask] == old(prevMasks)
    {
      var popped := Pop(prevMasks);
      mask := popped.0;
      prevMasks := popped.1;
    }

    /** The other branch of `remove_mezo`: the removed row's disc is erased,
        then the rows reachable from it are erased and repainted. */
    method Repaint(t: MezoRow, own: seq<MezoRow>)
      requires |prevMasks| <= Capacity
      modifies this`mask, this`prevMasks
      ensures mask == Removal(old(mask), t, own) && prevMasks == old(prevMasks)
    {
      RemoveFromViewer(t);
      RecursiveRemoving(t, own);
      RecursiveAdding(t, own);
    }

    /** `remove_mezo_from_viewer`: the row's disc is made transparent. */
    method RemoveFromViewer(row: MezoRow)
      modifies this`mask
      ensures mask == Erase(old(mask), RowCircle(row))
    {
      mask := Erase(mask, RowCircle(row));
    }

    /** `recursive_removing`: every row of `all` intersecting `start` is
        erased, and the rows intersecting it are handled the same way in a
        copy of `all` without it. */
    method RecursiveRemoving(start: MezoRow, all: seq<MezoRow>)
      modifies this`mask
      ensures mask == EraseAll(old(mask), Circles(Visit(start, all)))
      decreases |all|
    {
      var i := 0;
      while i < |all|
        invariant 0 <= i <= |all|
        invariant mask == EraseAll(old(mask), Circles(VisitUpTo(start, all, i)))
      {
        EraseVisitStep(old(mask), start, all, i);
        if Hits(start, all[i]) {
          var rest := Without(all, i);
          RemoveFromViewer(all[i]);
          RecursiveRemoving(all[i], rest);
        }
        i := i + 1;
      }
    }

    /** `recursive_adding`: the same traversal as `recursive_removing`,
        painting each row without saving the mask in the history. */
    method RecursiveAdding(start: MezoRow, all: seq<MezoRow>)
      requires |prevMasks| <= Capacity
      modifies this`mask, this`prevMasks
      ensures mask == PaintAll(old(mask), Circles(Visit(start, all)))
      ensures prevMasks == old(prevMasks)
      decreases |all|
    {
      var i := 0;
      while i < |all|
        invariant 0 <= i <= |all|
        invariant mask == PaintAll(old(mask), Circles(VisitUpTo(start, all, i)))
        invariant prevMasks == old(prevMasks)
      {
        PaintVisitStep(old(mask), start, all, i);
        if Hits(start, all[i]) {
          var rest := Without(all, i);
          AddMezoToViewer(RowCircle(all[i]), true);
          RecursiveAdding(all[i], rest);
        }
        i := i + 1;
      }
    }

    /** `change_tool(index)`: the tool is selected and a pending centre is
        discarded. */
    method ChangeTool(index: nat)
      requires Valid() && index < 3
      modifies this`tool, this`currentCoord
      ensures Valid()
      ensures tool == Some(ToolAt(index)) && currentCoord == None
    {
      tool := Some(ToolAt(index));
      currentCoord := None;
    }

    /** Escape: a pending centre is discarded, or else the tool is
        deselected. */
    method Cancel()
      requires Valid()
      modifies this`tool, this`currentCoord
      ensures Valid()
      ensures old(currentCoord).Some? ==> currentCoord == None && tool == old(tool)
      ensures old(currentCoord).None? ==> tool == None && currentCoord == None
    {
      if currentCoord.Some? {
        currentCoord := None;
      } else {
        tool := None;
      }
    }

    /** Ctrl+Z: the image's newest row is undone when it has one and no
        centre is pending. */
    method UndoShortcut()
      requires Valid()
      modifies this`rows, this`mask, this`prevMasks
      ensures Valid()
      ensures !(|old(MezoData())| > 0 && currentCoord.None?) ==> unchanged(this`rows, this`mask, this`prevMasks)
      ensures |old(MezoData())| > 0 && currentCoord.None? ==>
        var t := LastRowOf(old(rows), ImageId()).value;
        && rows == Delete(old(rows), t.id)
        && (old(prevMasks) != [] ==>
              mask == old(prevMasks)[|old(prevMasks)| - 1] && prevMasks == old(prevMasks)[..|old(prevMasks)| - 1])
        && (old(prevMasks) == [] ==> mask == Removal(old(mask), t, MezoData()) && prevMasks == [])
    {
      if |MezoData()| > 0 && currentCoord.None? {
        LastRowHasLargestId(rows, nextId, ImageId());
        assert MezoData()[0] in rows;
        RemoveMezo(Undo);
      }
    }

    /** `on_keyboard`: Escape discards a pending centre, or else deselects
        the tool; "1" to "3" select a tool; Ctrl+Z undoes the image's newest
        row when it has one and no centre is pending. The keys are distinct,
        so at most one of the source's checks applies to an event. */
    method OnKeyboard(key: string, ctrl: bool)
      requires Valid()
      modifies this`tool, this`currentCoord, this`rows, this`mask, this`prevMasks
      ensures Valid()
      ensures key == "Escape" ==>
        if old(currentCoord).Some? then currentCoord == None && tool == old(tool)
        else tool == None && currentCoord == None
      ensures key == "1" ==> tool == Some(MagicSelect) && currentCoord == None
      ensures key == "2" ==> tool == Some(ManualSelect) && currentCoord == None
      ensures key == "3" ==> tool == Some(RemoveTool) && currentCoord == None
      ensures !(key == "Z" && ctrl && |old(MezoData())| > 0 && old(currentCoord).None?) ==>
        unchanged(this`rows, this`mask, this`prevMasks)
      ensures key == "Z" && ctrl && |old(MezoData())| > 0 && old(currentCoord).None? ==>
        var t := LastRowOf(old(rows), ImageId()).value;
        && tool == old(tool) && currentCoord == None
        && rows == Delete(old(rows), t.id)
        && (old(prevMasks) != [] ==>
              mask == old(prevMasks)[|old(prevMasks)| - 1] && prevMasks == old(prevMasks)[..|old(prevMasks)| - 1])
        && (old(prevMasks) == [] ==> mask == Removal(old(mask), t, MezoData()) && prevMasks == [])
    {
      if key == "Escape" {
        Cancel();
      } else if key == "1" {
        ChangeTool(0);
      } else if key == "2" {
        ChangeTool(1);
      } else if key == "3" {
        ChangeTool(2);
      } else if key == "Z" && ctrl {
        UndoShortcut();
      }
    }

    /** What `open_image` leaves: the image at `index` with the given size
        and mask (a transparent one when none is stored), the viewer sized
        from the window at zoom 1 with the image centred and no margins, no
        tool, pending centre, gesture or undo history. */
    ghost predicate Opened(index: nat, width: int, height: int, stored: Option<Mask>, windowWidth: int, windowHeight: int)
      reads this
    {
      && imageIndex == index && imageWidth == width && imageHeight == height
      && viewerWidth == windowWidth - 10 && viewerHeight == windowHeight - 76
      && viewerScale == 1.0 && imageScale == windowScale && scale == Some(1.0)
      && viewerOffset == Some(mainOffset) && margin == NoMargin
      && tool == None && currentCoord == None
      && startCursor == None && startScale == None && startOffset == None
      && mask == (if stored.Some? then stored.value else Blank())
      && prevMasks == []
    }

    /** `open_image`: the gesture, tool and pending centre are cleared, the
        image's size and mask (a transparent one when none is stored) are
        loaded, the zoom goes back to 1 with the image centred, and the
        history is emptied. */
    method OpenImage(index: nat, width: int, height: int, stored: Option<Mask>, windowWidth: int, windowHeight: int)
      requires Session() && index < |imageIds|
      requires width > 0 && height > 0 && windowWidth > 10 && windowHeight > 76
      modifies this
      ensures Valid() && ScalesAgree()
      ensures Opened(index, width, height, stored, windowWidth, windowHeight)
      ensures imageIds == old(imageIds) && rows == old(rows) && nextId == old(nextId) && move == old(move)
    {
      LoadImage(index, width, height, stored);
      WindowResized(windowWidth, windowHeight);
      assert imageScale == windowScale * 1.0;
    }

    /** The part of `open_image` before `window_resized`: the session keys
        are cleared and the image's size and mask are loaded at zoom 1. The
        history is emptied here too; the source does it after the resize,
        which touches neither. */
    method LoadImage(index: nat, width: int, height: int, stored: Option<Mask>)
      requires Session() && index < |imageIds|
      requires width > 0 && height > 0
      modifies this`viewerOffset, this`tool, this`startCursor, this`startScale, this`startOffset, this`currentCoord,
               this`imageIndex, this`imageWidth, this`imageHeight, this`mask, this`viewerScale, this`prevMasks
      ensures Session()
      ensures imageIndex == index && imageWidth == width && imageHeight == height && viewerScale == 1.0
      ensures viewerOffset == None && tool == None && currentCoord == None
      ensures startCursor == None && startScale == None && startOffset == None
      ensures mask == (if stored.Some? then stored.value else Blank())
      ensures prevMasks == []
    {
      ClearKeys();
      imageIndex := index;
      imageWidth, imageHeight := width, height;
      viewerScale := 1.0;
      LoadMask(stored);
    }

    /** The image's stored mask, or a transparent one, with an empty
        history. */
    method LoadMask(stored: Option<Mask>)
      modifies this`mask, this`prevMasks
      ensures mask == (if stored.Some? then stored.value else Blank())
      ensures prevMasks == []
    {
      if stored.Some? {
        mask := stored.value;
      } else {
        mask := Blank();
      }
      prevMasks := [];
    }

    /** The session keys `open_image` removes first. */
    method ClearKeys()
      requires Session()
      modifies this`viewerOffset, this`tool, this`startCursor, this`startScale, this`startOffset, this`currentCoord
      ensures Session()
      ensures viewerOffset == None && tool == None && currentCoord == None
      ensures startCursor == None && startScale == None && startOffset == None
    {
      viewerOffset, tool, currentCoord := None, None, None;
      startCursor, startScale, startOffset := None, None, None;
    }

    /** Opening a sample at one of its images. */
    constructor (ids: seq<nat>, index: nat, table: seq<MezoRow>, next: nat,
                 width: int, height: int, stored: Option<Mask>, windowWidth: int, windowHeight: int)
      requires index < |ids| && Wellformed(table, next) && next > 0
      requires width > 0 && height > 0 && windowWidth > 10 && windowHeight > 76
      ensures Valid() && ScalesAgree()
      ensures imageIds == ids && imageIndex == index && rows == table && nextId == next
      ensures viewerScale == 1.0 && scale == Some(1.0) && move == None
      ensures viewerOffset == Some(mainOffset) && margin == NoMargin
      ensures tool == None && currentCoord == None && prevMasks == []
    {
      imageIds := ids;
      imageIndex := index;
      rows := table;
      nextId := next;
      imageWidth, imageHeight := width, height;
      viewerWidth, viewerHeight := windowWidth - 10, windowHeight - 76;
      viewerScale, windowScale, imageScale := 1.0, 1.0, 1.0;
      scale := None;
      mainOffset := Pixel(0, 0);
      viewerOffset := None;
      margin := NoMargin;
      startCursor, startScale, startOffset := None, None, None;
      move := None;
      tool := None;
      currentCoord := None;
      mask := Blank();
      prevMasks := [];
      new;
      OpenImage(index, width, height, stored, windowWidth, windowHeight);
    }

    /** `reset_viewer`: back to zoom 1 with the offset re-seeded at the
        centre and no margins. The image scale that the source sets to the
        window scale before `window_resized` is recomputed there, to the same
        value, so it is not assigned twice here. */
    method ResetViewer(windowWidth: int, windowHeight: int)
      requires Valid() && windowWidth > 10 && windowHeight > 76
      modifies this`viewerWidth, this`viewerHeight, this`viewerScale, this`windowScale, this`imageScale,
               this`mainOffset, this`viewerOffset, this`margin, this`scale, this`startCursor, this`startScale,
               this`startOffset
      ensures Valid() && ScalesAgree()
      ensures viewerScale == 1.0 && imageScale == windowScale && scale == Some(1.0)
      ensures viewerOffset == Some(mainOffset) && margin == NoMargin
      ensures startCursor == None && startScale == None && startOffset == None
    {
      ForgetGesture();
      WindowResized(windowWidth, windowHeight);
      assert imageScale == windowScale * 1.0;
    }

    /** The zoom of `reset_viewer` and the session keys it removes. */
    method ForgetGesture()
      modifies this`viewerScale, this`viewerOffset, this`startCursor, this`startScale, this`startOffset
      ensures viewerScale == 1.0
      ensures viewerOffset == None && startCursor == None && startScale == None && startOffset == None
    {
      viewerScale := 1.0;
      viewerOffset := None;
      startCursor, startScale, startOffset := None, None, None;
    }

    /** `previous_image`: the image before the open one is opened, if there
        is one. */
    method PreviousImage(width: int, height: int, stored: Option<Mask>, windowWidth: int, windowHeight: int)
      requires Valid() && ScalesAgree() && width > 0 && height > 0 && windowWidth > 10 && windowHeight > 76
      modifies this
      ensures Valid() && ScalesAgree()
      ensures imageIndex == if old(imageIndex) > 0 then old(imageIndex) - 1 else old(imageIndex)
      ensures old(imageIndex) > 0 ==>
        && Opened(old(imageIndex) - 1, width, height, stored, windowWidth, windowHeight)
        && imageIds == old(imageIds) && rows == old(rows) && nextId == old(nextId) && move == old(move)
      ensures old(imageIndex) == 0 ==> unchanged(this)
    {
      if imageIndex > 0 {
        OpenImage(imageIndex - 1, width, height, stored, windowWidth, windowHeight);
      }
    }

    /** `next_image`: the image after the open one is opened, if there is
        one. */
    method NextImage(width: int, height: int, stored: Option<Mask>, windowWidth: int, windowHeight: int)
      requires Valid() && ScalesAgree() && width > 0 && height > 0 && windowWidth > 10 && windowHeight > 76
      modifies this
      ensures Valid() && ScalesAgree()
      ensures imageIndex == if old(imageIndex) < |imageIds| - 1 then old(imageIndex) + 1 else old(imageIndex)
      ensures old(imageIndex) < |imageIds| - 1 ==>
        && Opened(old(imageIndex) + 1, width, height, stored, windowWidth, windowHeight)
        && imageIds == old(imageIds) && rows == old(rows) && nextId == old(nextId) && move == old(move)
      ensures old(imageIndex) == |imageIds| - 1 ==> unchanged(this)
    {
      if imageIndex < |imageIds| - 1 {
        OpenImage(imageIndex + 1, width, height, stored, windowWidth, windowHeight);
      }
    }
  }

  /** Ids are unique in a well-formed table, so a row found by id is the row
      of the table with that id. */
  lemma UniqueId(rows: seq<MezoRow>, nextId: nat, row: MezoRow)
    requires Wellformed(rows, nextId) && row in rows
    ensures FindId(rows, row.id) == Some(row)
  {
    var i :| 0 <= i < |rows| && rows[i] == row;
    var r := FindId(rows, row.id);
    assert r.Some?;
    var j :| 0 <= j < |rows| && rows[j] == r.value;
    assert rows[j].id == rows[i].id;
    assert i == j;
  }
}
