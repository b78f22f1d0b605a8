# AutoSkribbler drawing engine in Dafny

AutoSkribbler draws a picture into the skribbl.io canvas by driving the
mouse. This project models the engine in `main-qt.py` that does the
drawing. The engine takes an image that is already reduced to the game's
22-colour palette. It then:

- groups the image's non-white pixels by colour, in scan order;
- selects the brush;
- for every colour, clicks the colour's swatch and walks that colour's
  pixel list.

Each pixel with a right-hand neighbour of the same colour starts a
horizontal drag (a "run"). The run steps six screen units per pixel, and
the entries it covers are then skipped. Every other pixel is drawn as a
single click by `draw_pixel`. Around the engine sit three small session
rules:

- when the start button may start a job, and which image it uses;
- the two-click calibration of the canvas and colour-area corners;
- the three-column grid of the image picker.

The mouse is an abstract device: a position and a log of move, press,
release and click events (`Pointer.Mouse`). Every step of the engine is
given twice:
- as a function on a `Device` value (pointer position, `prev_cursor`,
  event log);
- as a method of the class `Drawing.ImageDrawer`, which works on a `Mouse`
  and is proved to leave exactly the state the function describes.

`Painting` reads an event log as strokes on the canvas. A press or click
paints the point under the pointer, and a move with the button held
paints the point it reaches.

Modules:
- `Raster` (raster.dfy): colours, pixels, row-major order, images.
- `Pointer` (pointer.dfy): the abstract mouse.
- `Palette` (palette.dfy): the palette list, its padding, the swatch chain
  of `set_color`.
- `Grouping` (grouping.dfy): the colour-grouping loop.
- `Planner` (planner.dfy): `has_neighbor`, run lengths, the stroke plan of a
  colour list.
- `Drawing` (drawing.dfy): device steps, the drawing thread as a class, job
  outcome.
- `Painting` (painting.dfy): what the log paints; the corrected dot step.
- `Session` (session.dfy): start rules, calibration, picker grid.

An unknown colour ends the job. `set_color` means to show a warning box
(`app.warningBox`, main-qt.py:518), but `app` is the `QApplication`
created at main-qt.py:670, which has no such method. The resulting
`AttributeError` is caught at main-qt.py:601, which only prints it. The
job ends there, with the pointer at the colour area's corner.

## Model

| member | source | states |
|---|---|---|
| `Palette.PaddedPalette` | main-qt.py:370-374 | the padded palette has 768 entries: the 66 colour values first, in order, then zeros |
| `Palette.Swatch` | main-qt.py:370 | the k-th RGB triple of the flat palette list is the k-th colour of the hand-written 22-colour table, the order the swatches sit on the site |
| `Palette.SwatchOffset` | main-qt.py:422-516 | swatch k's offset lies inside the 11 × 2 block of 24-unit cells |
| `Palette.SwatchTable` | main-qt.py:422-516 | for the k-th palette colour, `set_color` moves by (24·(k mod 11) + 12, 24·(k div 11) + 12) from the colour area's corner |
| `Palette.UnknownColor` | main-qt.py:517-518 | the chain takes its error branch exactly for triples that are none of the 22 palette colours |
| `Palette.SwatchFor` | main-qt.py:422-518 | the colour chain of `set_color`; its result per colour is stated by `Palette.SwatchTable`, its error branch by `Palette.UnknownColor` |
| `Grouping.GroupByColor` | main-qt.py:552-562 | the nested scan loop builds exactly the key order and the per-colour lists of the row-major visit of the image |
| `Grouping.Keys` | main-qt.py:552-562 | the dictionary's key order after a visit: never white, at most one key per visited pixel; `Grouping.KeyOrder` and `Grouping.GroupingCorrect` state the order |
| `Grouping.Groups` | main-qt.py:552-562 | the per-colour lists after a visit: white never gets a list; `Grouping.GroupMembers` states their contents |
| `Grouping.GroupRow` | main-qt.py:553-562 | scanning one row left to right extends the keys and lists from those of the rows above to those of the rows up to and including this one |
| `Grouping.AddCell` | main-qt.py:554-562 | visiting one pixel leaves keys and lists as the row-major visit extended by that pixel describes: white skipped, a new colour keyed and listed, a known one appended |
| `Grouping.VisitOne` | main-qt.py:556-562 | visiting one pixel skips white, adds a key only for a colour not seen before, and appends the pixel to its own colour's list only |
| `Grouping.KeysMatchGroups` | main-qt.py:559-562 | a colour is a key exactly when it has a list, exactly when it is non-white and was visited |
| `Grouping.GroupMembers` | main-qt.py:552-562 | a pixel is in colour c's list exactly when it was visited with colour c; lists are non-empty and in row-major order |
| `Grouping.KeyOrder` | main-qt.py:559-561 | keys are distinct and ordered by the first row-major occurrence of their colour |
| `Grouping.GroupingCorrect` | main-qt.py:552-562 | on an image: every non-white pixel is in exactly the list of its own colour, white pixels in none, lists in scan order, keys in first-occurrence order |
| `Planner.RunLength` | main-qt.py:587-591 | the virtual pixel's walk stops at the first column with no right neighbour, and every column it passes is in the list |
| `Planner.HasNeighbor` | main-qt.py:540-545 | `has_neighbor`: the pixel one column to the right is in the list; `Planner.NextInRow` and `Planner.NeighborInImage` state what that means on a row-major list and on an image |
| `Planner.NextInRow` | main-qt.py:540-545 | in a row-major list, `has_neighbor` of an entry means the next entry is the pixel to its right |
| `Planner.RunIsNextEntries` | main-qt.py:587-593 | the k pixels a run walks over are exactly the k entries after its start |
| `Planner.RunSpanIsSlice` | main-qt.py:580-593 | a run's span is the slice of the list from its start over the skipped entries |
| `Planner.StrokesCover` | main-qt.py:574-598 | from any entry on, the strokes cover the rest of the list exactly, in order |
| `Planner.PlanCoversGroup` | main-qt.py:574-598 | the strokes of a colour list cover every entry exactly once, in list order |
| `Planner.NoLeftNeighbor` | main-qt.py:574-593 | an entry where a stroke starts has no left neighbour of the same colour |
| `Planner.StrokesMaximal` | main-qt.py:574-598 | every stroke from a stroke start on is maximal: no left neighbour, and no right neighbour past its end |
| `Planner.StrokeAtMaximal` | main-qt.py:576-593 | the stroke at a stroke start is maximal, and the walk goes on at another stroke start |
| `Planner.PlanIsMaximal` | main-qt.py:580-593 | every planned run or dot is a maximal horizontal segment of its colour |
| `Planner.NeighborInImage` | main-qt.py:540-545 | on an image's lists, `has_neighbor` holds exactly when the pixel to the right has the same colour |
| `Planner.JobPixelsFacts` | main-qt.py:566-598 | over disjoint, ordered lists, the strokes of all keys cover each listed pixel exactly once |
| `Planner.GroupsDisjoint` | main-qt.py:558-562 | no pixel is in two colours' lists |
| `Planner.PixelHasKey` | main-qt.py:552-562 | every non-white pixel is in the list of some key |
| `Planner.MemberIsForeground` | main-qt.py:556-562 | a listed pixel is a non-white pixel of the image with the list's colour |
| `Planner.ImagePlanCovers` | main-qt.py:552-598 | the whole job's strokes cover every non-white pixel of the image exactly once and no white pixel |
| `Drawing.DotMove` | main-qt.py:392-407 | off both axes: the scaled canvas point; on one axis: that axis unscaled; on both: no move |
| `Drawing.DrawPixelStep` | main-qt.py:386-410 | the pointer ends at the target of the eight-way test or, without one, stays; the log gains that move, if any, then exactly one click there; `prev_cursor` becomes the new position |
| `Planner.StrokeAt` | main-qt.py:576-596 | an entry for which `has_neighbor` holds starts a run over its run length, any other entry is a dot |
| `Planner.PlanStep` | main-qt.py:574-598 | unfolding of the plan, used by the drawing loop: the plan from an entry is the stroke at that entry, then the plan from right after the entries the run skipped |
| `Planner.StrokeAtSpan` | main-qt.py:580-593 | the stroke at an entry covers exactly the entries from it up to where the plan goes on, which lies after it and within the list |
| `Planner.StrokesFrom` | main-qt.py:574-598 | the skip loop as a list of strokes; `Planner.PlanStep`, `Planner.StrokesCover` and `Planner.StrokesMaximal` state what it is and covers |
| `Planner.Plan` | main-qt.py:574-598 | the strokes for a whole colour list; `Planner.PlanCoversGroup` and `Planner.PlanIsMaximal` state what they cover |
| `Drawing.ExecPlanStep` | main-qt.py:574-598 | unfolding of plan execution, used by the drawing loop: performing the plan from an entry is performing its stroke, then the plan from after the skipped entries |
| `Drawing.DotLandsOnTarget` | main-qt.py:386-409 | a dot lands on its canvas point exactly when each coordinate equal to `prev_cursor` is 0, or, with both equal, the pointer is already there |
| `Drawing.BrushStep` | main-qt.py:415-420 | `prev_cursor` is kept and exactly four events are appended: the move to the colour area's corner, a move to corner + (492, 24), then a press and a release there, where the pointer stays |
| `Drawing.ColorStep` | main-qt.py:422-518 | `prev_cursor` is kept and the move to the colour area's corner comes first; it succeeds exactly when the colour has a swatch, and then moves by the swatch offset and presses and releases there; an unknown colour stops at the corner after that one move |
| `Drawing.ColorStepAtSwatch` | main-qt.py:429-516 | selecting the k-th palette colour succeeds and presses and releases on its swatch, at corner + (24·(k mod 11) + 12, 24·(k div 11) + 12) |
| `Drawing.RunStep` | main-qt.py:580-593 | a run as the device sees it; `Drawing.RunsKeepPrev`, `Drawing.ImageDrawer.DrawRun` and `Painting.RunPaintsSpan` state its effect |
| `Drawing.ExecColors` | main-qt.py:566-601 | the colour loop; `Drawing.ColorsCompleteIffKnown` states when it runs to the end and where it stops otherwise |
| `Drawing.ExecJob` | main-qt.py:520-603 | a whole job; `Drawing.JobCompletesIffPaletteColors` states when it runs to the end |
| `Drawing.StrokesExtendLog` | main-qt.py:574-598 | drawing strokes only appends to the event log |
| `Drawing.RunsKeepPrev` | main-qt.py:580-593 | runs never change `prev_cursor` |
| `Drawing.ColorsCompleteIffKnown` | main-qt.py:566-601 | the colour loop runs to the end exactly when every key has a swatch; if not, it stops with the pointer at the colour area's corner |
| `Drawing.JobCompletesIffPaletteColors` | main-qt.py:520-603 | a job runs to the end exactly when every non-white colour of the image is one of the 22 palette colours |
| `Drawing.ImageDrawer.constructor` | main-qt.py:380-381 | a new drawer starts with `prev_cursor` (0, 0) |
| `Drawing.ImageDrawer.DrawPixel` | main-qt.py:386-410 | the method leaves exactly the device state of the `draw_pixel` step |
| `Drawing.ImageDrawer.MoveOneStepToRight` | main-qt.py:412-413 | one relative move of (step, 0) and nothing else |
| `Drawing.ImageDrawer.SetBrush` | main-qt.py:415-420 | the pointer goes to the colour area's corner, then by (492, 24), and presses and releases there |
| `Drawing.ImageDrawer.SetColor` | main-qt.py:422-518 | the pointer goes to the colour area's corner; for a known colour it clicks its swatch, otherwise it reports failure |
| `Drawing.ImageDrawer.DrawRun` | main-qt.py:580-593 | press at canvas + (6x, 6y), run-length moves of (6, 0), release at canvas + (6(x+k), 6y); returns k, the entries to skip |
| `Drawing.ImageDrawer.DrawEntry` | main-qt.py:579-596 | returns the entry's run length (0 for a dot) as the entries to skip, and leaves exactly the state of the one stroke planned there |
| `Drawing.ImageDrawer.DrawGroup` | main-qt.py:574-598 | the skip loop performs exactly the stroke plan of the list |
| `Drawing.ImageDrawer.Run` | main-qt.py:520-603 | a job groups the image, selects the brush, then selects and draws colour after colour, stopping at the first colour with no swatch |
| `Painting.ScaledInjective` | main-qt.py:582 | distinct image pixels have distinct canvas points |
| `Painting.DragPaints` | main-qt.py:587-591 | dragging with the button held paints every point stepped to |
| `Painting.RunPaintsSpan` | main-qt.py:580-593 | a run paints exactly the canvas points of the pixels it spans, left to right, and ends with the button up |
| `Painting.DotPaints` | main-qt.py:386-410 | a corrected dot paints only its pixel's canvas point |
| `Painting.IntendedLog` | main-qt.py:574-598 | with the corrected dot, the strokes only append their own events |
| `Painting.IntendedEventsPaint` | main-qt.py:574-598 | with the corrected dot, strokes paint the canvas points of the pixels they cover, in order |
| `Painting.IntendedGroupPaints` | main-qt.py:574-598 | with the corrected dot, a colour's plan paints the canvas point of each list entry exactly once, in list order |
| `Painting.OriginDotStaysPut` | main-qt.py:380-409 | a fresh drawer's dot at pixel (0, 0) does not move the pointer, and clicks where it already is |
| `Painting.BlackDotJob` | main-qt.py:565-598 | on a one-pixel black image, the only dot is clicked on the black swatch |
| `Painting.UnscaledColumn` | main-qt.py:396-407 | with the canvas at the origin, dots (1, 0) then (6, 2) click the second at (6, 12), not (36, 12) |
| `Session.ImageChoice` | main-qt.py:141-149 | with a path and a grabbed image, the local one is used exactly when preferred; otherwise whichever is present; an empty path counts as none |
| `Session.HasPath` | main-qt.py:142-147 | Python truthiness of `imgPath`: a missing path and the empty path of a cancelled file dialog both count as none; `Session.ImageChoice` and `Session.StartDraw` state what follows from it |
| `Session.StartDraw` | main-qt.py:140-157 | a job starts exactly when both corners are set and an image is present; missing corners are reported before a missing image |
| `Session.NextRelease` | main-qt.py:255-259 | the listener stops at the first release; all reports before it are presses |
| `Session.MainWindow.constructor` | main-qt.py:93-98 | both corners start unset; canvas is calibrated before colours |
| `Session.SelectCoordsThread.constructor` | main-qt.py:241 | the last reported position starts at (0, 0) |
| `Session.SelectCoordsThread.OnClick` | main-qt.py:255-259 | records the reported position; keeps listening only while the button is down |
| `Session.SelectCoordsThread.Run` | main-qt.py:243-259 | each action in order gets the position of the next release (`Session.Calibrated`), and `currentPos` ends as the position of the last report read, or unchanged if none was read |
| `Session.Calibrated` | main-qt.py:243-252 | the coordinate table that the listener loop produces; `Session.CalibrationOrder` states which release sets which corner |
| `Session.ReportsRead` | main-qt.py:243-259 | the listener reads at least as far as each action's release and never past the last report |
| `Session.CalibrationOrder` | main-qt.py:243-259 | the first release sets the canvas corner, the second the colour-area corner |
| `Session.CalibratedThenStart` | main-qt.py:140-157 | after two releases and with an image present, a job starts at the two reported corners |
| `Session.GrabSelector.constructor` | main-qt.py:312-313 | a new picker has no images and an empty grid |
| `Session.GrabSelector.Start` | main-qt.py:332-350 | image i gets the tile at row i div 3, column i mod 3; earlier tiles stay |
| `Session.GridCellsDistinct` | main-qt.py:338-350 | every image gets its own cell, and the cells follow the image order row by row |

## Left out

- Resizing and quantizing the image (`thumbnail`, `quantize`, main-qt.py:548-551) are library calls. The model takes the quantized RGB grid as input.
- `Image.open` of a local path (main-qt.py:143-147) is a library call. The image choice records the path instead. A file that fails to open is not modelled.
- The colour keys are "r g b" strings that `set_color` splits and converts back with `int`. The model keys by the RGB triple directly; the round trip is the identity on the integers involved.
- The only exception modelled is the unknown-colour branch of `set_color`. Others, such as an unset corner reaching `run`, are not.
- The pynput controller and listeners are foreign code. The mouse is the abstract `Pointer.Mouse`, and the listener's callbacks are a sequence of click reports.
  - A listener that never sees a release keeps waiting. The model stops once the reports run out.
- The ESC handler that ends the process from another thread (main-qt.py:658-667) is concurrency and process control.
- `time.sleep` pacing and `print` logging have no effect on the modelled state.
- The Qt windows, labels, previews (`reload_img_preview`, main-qt.py:106-122), dialogs, button enabling and QThread wiring are user interface. A drawing job is one sequential call, `Drawing.ImageDrawer.Run`.
- The canvas and colour-area corners are parameters of the drawing methods, not reads of the main window's table.
- Image search and downloads (main-qt.py:262-288, 606-655) are network I/O.
- The picker's `ImageQt` conversion and label widgets are not modelled. A tile records the grabbed image its label selects.
- Drawing.ImageDrawer.Run: the source returns nothing; `completed` only exposes whether the unknown-colour exception ended the job.

## Findings

| source | as written | input that shows it | evidently intended | confidence | as-written member | corrected member |
|---|---|---|---|---|---|---|
| main-qt.py:380-409 | `prev_cursor` starts at (0, 0). When it equals the pixel, no branch moves the pointer, so the click happens wherever the pointer is | a fresh drawer and a one-pixel black image: the dot is clicked on the black swatch | every single dot is clicked at canvas + (6x, 6y) | not executed; follows from the branch conditions | `Painting.BlackDotJob` | `Painting.IntendedGroupPaints` |
| main-qt.py:396-407 | `prev_cursor` holds a screen position but is compared with pixel coordinates. On equality in one axis, that axis is not scaled | canvas corner at (0, 0); dots (1, 0) then (6, 2): the second click is at (6, 12) | the click at canvas + (6·6, 6·2) = (36, 12) | not executed; needs a canvas corner near the screen origin | `Painting.UnscaledColumn` | `Painting.IntendedGroupPaints` |
