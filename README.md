# AI_mezo annotation engine, in Dafny

AI_mezo is a desktop tool for marking mesophase inclusions ("mezo") on
microscope images of a sample. The user zooms and pans an image viewer and
picks one of three tools:

- Magic select: a segmentation model proposes a circle for the click.
- Manual select: two clicks give a centre and a point on the rim.
- Remove tool: deletes the newest circle under the click.

Each circle is stored as a row of the `mezo_data` table. The circle is also
painted onto a translucent overlay mask, and the last three masks are kept
for undo. Removing a circle erases it, then erases and repaints every circle
connected to it through overlaps, so the remaining circles look right again.
For a whole sample, the report groups the rows under their images and counts
their sizes in six classes. It computes per-image area figures, fills an HTML
template, and lays out a gallery of original and annotated images, three
pairs per page.

This project models that core in Dafny and proves what it promises:

- `geometry.dfy` (`Geometry`): rounding, squared distances, the disc test of
  the remove tool and the strict `circles_intersect` test. Each test is
  proved equal to the source's square-root comparison.
- `viewport.dfy` (`Viewport`): zoom clamping, the fit-to-window scale, the
  movement box, the clamping of margins after a pan or zoom, and the mapping
  from a tap to an image pixel.
- `store.dfy` (`Store`): the `mezo_data` table in memory. It has
  AUTOINCREMENT ids and models the insert, delete and select queries and the
  reverse hit-test loop of the remove tool.
- `compositor.dfy` (`Compositor`): the overlay mask, kept abstract. Each
  pixel holds the circles composited into it since it was last cleared.
- `history.dfy` (`History`): the undo list `prev_masks`, which keeps at most
  three snapshots.
- `overlap.dfy` (`Overlap`): the traversal shared by `recursive_removing` and
  `recursive_adding`, and the mask left after a removal.
- `editor.dfy` (`Editor`): the `page.session` state as a class,
  `EditorSession`, with one method per event handler. The handlers update
  the fields in place.
- `report.dfy` (`Report`):
  - placeholder filling and the `get_report` loop;
  - `generate_html` as an imperative string builder, proved against a line
    model of its output;
  - the grouping comprehension of `get_report_data`;
  - the loop of `create_pdf_report` that builds the size table and the
    results table.

Distances are compared through their squares. The lemmas in `Geometry` prove
this is the same comparison for the value `math.sqrt` returns. Where the
source takes a square root to build a record, the root is a parameter
constrained by `r >= 0 && r * r == squared distance`.

## Model

| member | source | states |
|---|---|---|
| Geometry.Round | mezo/editor.py:540-543 | `round(x)` lands within half a unit of `x` |
| Geometry.RoundIs | mezo/editor.py:540-543 | `round(x) == n` exactly for `x` in `[n - 1/2, n + 1/2)` |
| Geometry.Round5 | mezo/editor.py:471 | `round(x, 5)` as an integer numerator within half a unit of `x * 10^5` |
| Geometry.DistSq | mezo/editor.py:1448-1459 | the squared distance is non-negative and zero exactly for equal points |
| Geometry.InDiscIsDistanceTest | mezo/editor.py:813-820 | the disc test is `distance <= diameter / 2` for the non-negative root `math.sqrt` returns |
| Geometry.IntersectIsDistanceTest | mezo/editor.py:1461-1473 | `Intersect` is the strict test `distance < r1 + r2` |
| Geometry.IntersectSymmetric | mezo/editor.py:1461-1473 | intersection does not depend on the order of the circles |
| Viewport.ClampScale | mezo/editor.py:277-279 | `max(1, min(15, s))` lies in [1, 15]; it keeps `s` in range and gives the nearer limit outside |
| Viewport.WindowScale | mezo/editor.py:282 | the fit-to-window scale is at most 1 and positive for a viewer of positive size |
| Viewport.WindowScaleFits | mezo/editor.py:282 | the image scaled by it fits the viewer, and one of the three limits is met exactly |
| Viewport.WindowScaleIsLargest | mezo/editor.py:282 | no larger scale up to 1 fits, so it is the largest fitting scale |
| Viewport.CentredOffset | mezo/editor.py:287-291 | `main_offset` centres the scaled image to within half a pixel on each side |
| Viewport.BoxLength | mezo/editor.py:403-404 | the movement box is at least as long as the scaled image when zoomed in |
| Viewport.Slack | mezo/editor.py:435 | `bounding_box - scaled_image` is non-negative at zoom at least 1 |
| Viewport.AxisBounds | mezo/editor.py:405-413 | the rounded box edges span the box length to within a pixel and are centred on the viewer |
| Viewport.UnzoomedBox | mezo/editor.py:403-413 | at zoom 1 the box is the image and its near edge is the centring offset |
| Viewport.Clamp | mezo/editor.py:433-448 | a negative near margin becomes 0 with the far one taking the slack and the offset pinned to the near bound; a negative far margin is the mirror case; otherwise nothing changes; margins end non-negative |
| Viewport.PanKeepsMarginSum | mezo/editor.py:425-448 | an unclamped pan keeps `left + right` and moves the offset by exactly the pan; a clamped one gives margins summing to the slack |
| Viewport.ZoomKeepsFocalPoint | mezo/editor.py:476-480 | the zoom shift keeps the image point under the cursor in place |
| Viewport.ZoomOffsetNearFocal | mezo/editor.py:476-489 | an unclamped zoom lands within half a pixel of that position, margins non-negative |
| Viewport.TapAxisIs | mezo/editor.py:540-543 | a tap maps to pixel `q` exactly when the cursor lies in `q`'s screen cell |
| Viewport.TapInvertsPlacement | mezo/editor.py:540-543 | tapping the screen position of a pixel's centre gives back that pixel |
| Viewport.SmallImageCentred | mezo/editor.py:282-291 | an image smaller than the viewer is not enlarged and is centred |
| Store.Square | mezo/editor.py:584 | `0.25 * pi * d^2` is non-negative |
| Store.SquareIsDiscArea | mezo/editor.py:584 | the square is the area `pi * (d/2)^2` of the disc |
| Store.RowsOf | mezo/editor.py:1599-1600 | the rows of an image are exactly the table's rows with that `image_id` |
| Store.Delete | mezo/editor.py:1592 | the `DELETE` keeps exactly the rows with another id |
| Store.FindId | mezo/editor.py:1586-1589 | the lookup by id returns a table row with that id, or nothing when no row has it |
| Store.RowsOfOrdered | main.py:134 | the rows of one image keep the increasing AUTOINCREMENT ids |
| Store.LastRowHasLargestId | mezo/editor.py:1579-1583 | the undo query returns the image's row with the largest id, and nothing exactly when the image has no rows |
| Store.InsertAppends | mezo/editor.py:588-598 | an insert keeps ids increasing and appends the new row to its image's rows only |
| Store.DeleteKeepsOrder | mezo/editor.py:1592 | deleting keeps the table well formed |
| Store.DeleteCommutesWithRowsOf | mezo/editor.py:1592-1600 | selecting an image's rows after the delete is deleting from the image's rows |
| Store.LastContaining | mezo/editor.py:813-820 | the reverse scan finds the last row whose disc holds the tap, and nothing exactly when no disc holds it |
| Compositor.Covering | mezo/editor.py:643-663 | the circles painting a pixel are exactly those of the list whose footprint covers it |
| Compositor.EraseAllAppend | mezo/editor.py:1493-1496 | erasing two batches of circles is erasing one after the other |
| Compositor.PaintAllAppend | mezo/editor.py:643-663 | painting two batches is painting one after the other |
| Compositor.EraseAllAt | mezo/editor.py:1493-1496 | after erasures a pixel is cleared exactly when some erased disc covers it, else untouched |
| Compositor.PaintAllAt | mezo/editor.py:643-663 | after paints a pixel holds its old layers followed by the covering circles in painting order |
| Compositor.EraseThenPaintAt | mezo/editor.py:1621-1624 | erase-then-repaint leaves each pixel cleared or untouched, then the repainted circles covering it |
| Compositor.EraseClearsPaint | mezo/editor.py:646-660 | with radius at least 2 the erase footprint is the paint footprint, centre dot included |
| Compositor.SmallCircleLeavesDot | mezo/editor.py:646-660 | with radius below 1 the centre dot reaches a pixel the erase does not clear |
| History.Pop | mezo/editor.py:1608 | `pop(-1)` returns the newest snapshot and the list before it |
| History.PushKeepsNewest | mezo/editor.py:625-638 | after append-and-trim the history has `min(n + 1, 3)` snapshots, the newest ones, ending with the new snapshot |
| History.PushShifts | mezo/editor.py:633-636 | a push shifts the kept older snapshots back by one place |
| History.ThreePushes | mezo/editor.py:633-636 | three pushes leave exactly the three snapshots pushed |
| History.PopUndoesPush | mezo/editor.py:1606-1612 | an undo right after a push returns that snapshot and the previous history, less the oldest when it was dropped |
| History.ThreeUndos | mezo/editor.py:1606-1612 | three undos after three pushes return them newest first and empty the history |
| Overlap.Without | mezo/editor.py:1535-1536 | `copy()` then `pop(i)` is one element shorter and keeps every other row |
| Overlap.VisitUpTo | mezo/editor.py:1527-1538 | the rows handled by the first `i` iterations are rows of the list |
| Overlap.VisitStep | mezo/editor.py:1527-1538 | iteration `k` adds the row and the rows of its recursive call exactly when the row intersects the start |
| Overlap.VisitEmptyIff | mezo/editor.py:1527-1538 | nothing is handled exactly when no row intersects the start row |
| Overlap.VisitPrefix | mezo/editor.py:1527-1538 | rows handled by earlier iterations are handled first |
| Overlap.SubVisitIncluded | mezo/editor.py:1527-1538 | a hit row and everything its call handles are handled |
| Overlap.NeighboursVisited | mezo/editor.py:1527-1538 | every row intersecting the start row is handled |
| Overlap.VisitClosed | mezo/editor.py:1527-1538 | a row of the list intersecting a handled row is handled: the whole connected component |
| Overlap.VisitChained | mezo/editor.py:1527-1538 | every handled row intersects the start or an earlier handled row |
| Overlap.EraseVisitStep | mezo/editor.py:1527-1538 | one iteration of `recursive_removing`: erase the hit row, then its call's rows |
| Overlap.PaintVisitStep | mezo/editor.py:1554-1567 | one iteration of `recursive_adding`, the same traversal painting |
| Overlap.VisitedAreRows | mezo/editor.py:1592-1600 | the deleted row is not in `rows`, so it is never repainted |
| Overlap.RemovalAt | mezo/editor.py:1621-1624 | after a removal a pixel is cleared if the target or a handled disc covers it, then holds the handled circles repainting it |
| Overlap.VisitCanRepeat | mezo/editor.py:1527-1567 | without a visited set, three mutually intersecting rows make each neighbour handled twice |
| Overlap.VisitMiddleOfThree | mezo/editor.py:1621-1624 | removing B from a chain A-B-C handles A then C |
| Overlap.RemoveMiddleOfThree | mezo/editor.py:1621-1624 | that removal leaves exactly the mask of A and C painted |
| Editor.ToolAt | mezo/editor.py:1316-1317 | indices 0, 1, 2 select magic select, manual select, remove tool |
| Editor.Target | mezo/editor.py:1569-1589 | undo targets the image's newest row, an id its row, a falsy key nothing |
| Editor.UniqueId | main.py:134 | ids are unique, so the row found by id is that row |
| Editor.EditorSession.PanEnd | mezo/editor.py:415-460 | the margins after a pan are non-negative |
| Editor.EditorSession.ZoomEnd | mezo/editor.py:469-518 | back at the window scale the offset is `main_offset` with zero margins; margins are non-negative |
| Editor.EditorSession.UpdateScale | mezo/editor.py:268-308 | zoom clamped to [1, 15], scales agree, offset centred, offset and margins seeded only when unset, `scale` is the factor applied |
| Editor.EditorSession.WindowResized | mezo/editor.py:324-329 | the viewer takes the window less 10 and 76 px, the zoom is kept and the scales recomputed |
| Editor.EditorSession.InteractionStart | mezo/editor.py:345-350 | the start cursor, scale and offset are recorded |
| Editor.EditorSession.InteractionUpdate | mezo/editor.py:364-367 | a factor of 1 records the focal point; another factor zooms |
| Editor.EditorSession.InteractionEnd | mezo/editor.py:383-550 | pan first, else zoom unless at the limit; at the limit nothing changes; else the tap pixel is returned |
| Editor.EditorSession.Click | mezo/editor.py:545-558 | with no tool nothing changes; magic select records a row of diameter 2r for the found circle and paints it after saving the mask; manual select stores the centre on the first tap and on the second records, paints and clears it; the remove tool deletes the newest row whose disc holds the tap and repaints, or changes nothing on a miss, never saving the mask |
| Editor.EditorSession.AddMezoToDb | mezo/editor.py:579-598 | a row with the next id and the computed square is appended to the open image's rows |
| Editor.EditorSession.AddMezoToViewer | mezo/editor.py:622-679 | a non-recursive call pushes the mask (at most 3 kept); a recursive one leaves the history; the circle is painted |
| Editor.EditorSession.AddMezo | mezo/editor.py:705-722 | one row of diameter `2r` is recorded and the circle painted after the snapshot |
| Editor.EditorSession.ManualSelectAt | mezo/editor.py:739-789 | the first click only stores the centre; the second records the circle and clears the centre |
| Editor.EditorSession.RemoveToolAt | mezo/editor.py:809-823 | the newest row whose disc holds the tap is removed; no hit changes nothing; the history is never pushed |
| Editor.EditorSession.RemoveMezo | mezo/editor.py:1569-1624 | the target is deleted; undo with history restores the newest snapshot; otherwise erase and repaint along the traversal |
| Editor.EditorSession.RemoveRow | mezo/editor.py:1589-1624 | once the target is known: delete, then restore or repaint |
| Editor.EditorSession.RestoreSnapshot | mezo/editor.py:1606-1619 | the newest snapshot becomes the mask and leaves the history |
| Editor.EditorSession.Repaint | mezo/editor.py:1621-1624 | the mask becomes the removal mask; the history is untouched |
| Editor.EditorSession.RemoveFromViewer | mezo/editor.py:1489-1511 | the row's disc is erased |
| Editor.EditorSession.RecursiveRemoving | mezo/editor.py:1513-1538 | the mask is the old one with the traversal's discs erased in order |
| Editor.EditorSession.RecursiveAdding | mezo/editor.py:1540-1567 | the mask is the old one with the traversal's circles painted in order; history unchanged |
| Editor.EditorSession.ChangeTool | mezo/editor.py:1309-1344 | the tool is selected and a pending centre discarded |
| Editor.EditorSession.Cancel | mezo/editor.py:1403-1411 | Escape discards a pending centre, or else deselects the tool |
| Editor.EditorSession.UndoShortcut | mezo/editor.py:1432-1437 | with rows and no pending centre, the image's newest row is deleted; the newest snapshot is popped into the mask, or with an empty history the row is erased and its connected rows repainted; otherwise nothing changes |
| Editor.EditorSession.OnKeyboard | mezo/editor.py:1403-1437 | Escape cancels the centre or the tool, 1 to 3 select a tool, Ctrl+Z with rows and no pending centre does the undo above (row deleted, snapshot popped, or the removal repaint on an empty history); no other key touches the table, mask or history |
| Editor.EditorSession.OpenImage | mezo/editor.py:838-957 | gesture, tool and centre cleared, mask loaded or blank, zoom 1 centred, history emptied |
| Editor.EditorSession.LoadImage | mezo/editor.py:838-882 | the session keys are removed and the image's size and mask loaded at zoom 1 |
| Editor.EditorSession.LoadMask | mezo/editor.py:874-878 | the stored mask or a transparent one |
| Editor.EditorSession.ClearKeys | mezo/editor.py:838-851 | offset, tool, gesture and pending centre are removed |
| Editor.EditorSession.ResetViewer | mezo/editor.py:1361-1376 | back to zoom 1, offset re-seeded at the centre with no margins, gesture forgotten |
| Editor.EditorSession.ForgetGesture | mezo/editor.py:1364-1373 | zoom 1 and the offset and gesture keys removed |
| Editor.EditorSession.PreviousImage | mezo/editor.py:1035-1041 | above 0 the previous image is opened (its size and mask, zoom 1 centred, tool, centre, gesture and history cleared) and the table is kept; at 0 nothing changes |
| Editor.EditorSession.NextImage | mezo/editor.py:1055-1061 | below the last the next image is opened (its size and mask, zoom 1 centred, tool, centre, gesture and history cleared) and the table is kept; at the last nothing changes |
| Report.NatToString | mezo/report.py:212 | the numeral is non-empty, all digits, no leading zero |
| Report.NatToStringRoundTrip | mezo/report.py:212 | reading a numeral back gives the number |
| Report.NatToStringInjective | mezo/report.py:212 | different numbers give different numerals |
| Report.ReplaceLength | mezo/report.py:151 | `replace` changes the length by `count * (len(v) - len(p))` |
| Report.CountZeroIff | mezo/report.py:151 | a non-empty placeholder is counted exactly when it occurs |
| Report.ReplaceAbsent | mezo/report.py:151 | a template without the placeholder is returned unchanged |
| Report.ReplaceBySelf | mezo/report.py:151 | replacing a placeholder by itself changes nothing |
| Report.GetReport | mezo/report.py:171-174 | the loop fills the params in insertion order |
| Report.FillAllAppend | mezo/report.py:171-172 | filling with `a + b` is filling with `a`, then `b` |
| Report.FillAllAbsent | mezo/report.py:171-172 | a template with none of the placeholders is unchanged |
| Report.GenerateHtml | mezo/report.py:177-238 | the HTML built by `+=` is the rendering of the gallery's lines |
| Report.EmitPair | mezo/report.py:194-231 | one iteration appends the pair's lines and advances `page_number` by the pages it closes |
| Report.EmitPageStart | mezo/report.py:199-201 | the article and gallery opening at each third pair |
| Report.EmitPageBreak | mezo/report.py:226-231 | the intermediate page closing and its number |
| Report.EmitPageEnd | mezo/report.py:234-236 | the closing of a page with its number |
| Report.EmitItem | mezo/report.py:204-213 | the lines of one gallery item |
| Report.EmitItemHead | mezo/report.py:204-208 | the item opening and, on a page's first pair, its column title |
| Report.Emit | mezo/report.py:200 | one `html +=` appends one line's text |
| Report.PairHeadCount | mezo/report.py:199-218 | a pair opens an article and writes both titles exactly when `index % 3 == 0` |
| Report.HeadsUpTo | mezo/report.py:194-218 | `i` pairs open `ceil(i/3)` articles |
| Report.GalleryHeads | mezo/report.py:199-218 | `n` pairs open `ceil(n/3)` articles, each titled once per column |
| Report.PagesClosedBefore | mezo/report.py:226-231 | before the last pair a page was closed after every third pair |
| Report.PagesClosedInLoop | mezo/report.py:226-231 | the loop closes `ceil(n/3) - 1` pages for `n >= 1` |
| Report.GalleryEnd | mezo/report.py:233-236 | the HTML always ends with a page closing numbered `1 + ceil(n/3)` (2 for no pairs) |
| Report.PairCloseCount | mezo/report.py:226-229 | a pair closes an article exactly when `(index - 2) % 3 == 0` and it is not the last |
| Report.ClosesUpTo | mezo/report.py:194-231 | the closings up to `i` are the pages closed there |
| Report.GalleryBalanced | mezo/report.py:194-236 | with pairs, every article opened is closed once; with none, the HTML is a lone page closing |
| Report.PairCaptionCount | mezo/report.py:196-222 | a pair's two items are both captioned `index + 1` |
| Report.CaptionsUpTo | mezo/report.py:194-222 | captions 1 to `i`, each exactly twice |
| Report.GalleryCaptions | mezo/report.py:196-222 | the captions are 1 to `n`, each on exactly two items |
| Report.MezoDictFromMembers | mezo/report.py:121-127 | a pair is in the dict exactly when its key is the position of a row of the image and its value is that row |
| Report.MezoDictFromKeys | mezo/report.py:121-127 | keys increase, so no key repeats |
| Report.MezoDictFromValues | mezo/report.py:121-127 | the values are the image's rows in fetch order |
| Report.ReportImageRows | mezo/report.py:115-129 | each image holds exactly the rows with its id, keyed by global position |
| Report.ReportImagesDisjoint | mezo/report.py:115-129 | images with different ids share no key |
| Report.Bucket | mezo/report.py:296-301 | every size falls in one of the six classes |
| Report.BucketUnique | mezo/report.py:296-301 | the classes do not overlap |
| Report.CountsCoverSizes | mezo/report.py:296-302 | the six class counts sum to the number of sizes |
| Report.SizeColumn | mezo/report.py:296-302 | an image's seven entries: six counts summing to the seventh |
| Report.Sizes | mezo/report.py:292 | one size per annotation |
| Report.SizeColumns | mezo/report.py:268-302 | one balanced column per image |
| Report.CollectRows | mezo/report.py:268-315 | the loop fills the size and results rows as the transpose of the per-image columns, or stops where the source divides by zero |
| Report.BalancedRowsTotal | mezo/report.py:296-302 | over balanced columns the last row's total is the sum of the six class totals |
| Report.SizeRowsTotal | mezo/report.py:296-302 | in the size table, the total of `size_rows[6]` equals the sum of the six class totals |
| Report.SizeRowCells | mezo/report.py:327-329 | one cell per image, then the total |
| Report.CountCellReads | mezo/report.py:329 | a count cell reads back as its count |
| Report.SizeRowEndsWithTotal | mezo/report.py:327-329 | each size row's last cell reads back as the row's sum and each other cell as its image's count |
| Report.HeaderCells | mezo/report.py:323 | exactly `count` header cells |
| Report.HeaderCellsNumbered | mezo/report.py:323 | the headers are numbered 1 to `count`, each once |
| Report.MaxSize | mezo/report.py:305 | 0 for no annotations; else the largest size |
| Report.RealSumScaled | mezo/report.py:293 | squaring the scale factor scales the sum of squares |
| Report.PercentageAlgebra | mezo/report.py:306-309 | the constant and the squared scale cancel out of the percentage |
| Report.ImageAccepted | mezo/report.py:270-309 | an image gets results exactly when `scale_px`, `scale_mkm`, `1 - porosity` and both frame sides are non-zero, so `None` stands exactly for the two divisions by zero |
| Report.PercentageScaleFree | mezo/report.py:306-309 | the percentage is independent of the scale: annotated pixel area over the pore-free frame |

## Left out

- The segmentation model (`sam_init`, `predictor.predict` and the `cdist`
  centre and radius of `magic_select`) is an opaque given. Its circle is a
  parameter of `Click`.
- `math.sqrt`: comparisons use squared distances. The manual-select radius
  is a parameter constrained to be the non-negative root of the squared
  distance.
- PIL rasterisation, alpha compositing, PNG and base64 encoding, and the
  mask and result file writes (`save_image`). The mask is abstract:
  - The paint footprint is the disc or the centre dot.
  - The erase footprint is the disc.
  - The outline width, RGBA values and anti-aliasing are not modelled.
- The center indicator that the first manual-select click draws is not
  modelled. It is a separate overlay that the second click, Escape or a tool
  change deletes, and it never touches the mask.
- SQLite: the `mezo_data` table is an in-memory sequence with AUTOINCREMENT
  ids. Connection errors are not modelled.
- The Flet UI is not modelled: status bar, messages, toolbar styling, arrow
  styling, the results drawer, the library, routing and dialogs.
- Python's banker's rounding: `Geometry.Round` rounds ties up.
- IEEE-754: all arithmetic is on exact reals.
- Editor.EditorSession.OpenImage: the history is emptied before the window
  resize rather than after it. The resize touches neither the history nor
  the mask, so the final state is the same.
- Editor.EditorSession.ResetViewer: the source sets `image_scale` to the
  window scale, but the resize immediately overwrites it with the same value.
  That assignment is not repeated.
- Editor.EditorSession.RemoveMezo: an undo on an image without rows raises
  inside the source once `fetchone()` returns nothing. It is modelled as
  changing nothing, since the raise comes before any write. Ctrl+Z only
  calls it when the image has rows.
- Editor.EditorSession.UpdateScale, Editor.EditorSession.WindowResized: the
  session always has an open image (the constructor opens one), so the
  state before the first image is loaded is not modelled. In that state
  `update_scale` does nothing (the `image_size` check) while
  `window_resized` still stores the new viewer size; the model requires an
  open image for both.
- The "Magic select" tool change also loads the segmentation model. That is
  not modelled.
- The image file's pixel size in `create_pdf_report` is a parameter `dims`
  of `CollectRows`. Gallery paths are the `(original, annotated)` strings
  given to `GenerateHtml`. `os.path`, the existence check and the working
  directory are not modelled.
- The `ZeroDivisionError` of `create_pdf_report` (`scale_px == 0` or a zero
  material area) is modelled as `CollectRows` returning `None`.
- The results rows' cells are not modelled: `.2f`/`.3f` formatting, the
  `np.mean`, `max` and `sum` totals, and the date parsing, `webbrowser`
  and file write of `create_pdf_report`.
- Reading `report template/index.html` is not modelled. `GetReport` takes
  the template text as a parameter.
- `Report.GalleryBalanced`: with no pairs, `generate_html` emits a closing
  with no opening. This is modelled as written, and the lemma states that
  case separately.
- The first tap after opening an image or resizing the window is taken as
  the end of a zoom, because `update_scale(1)` leaves the `scale` key set.
  This is modelled as written: `InteractionEnd` handles a set `scale` as a
  zoom.
