/**
 * The drawing thread: how it turns one quantized image into pointer actions.
 * The effect of every step on the device is first given as a function on a
 * `Device` value (pointer position, `prev_cursor`, event log); the class
 * `ImageDrawer` then performs the same steps on a `Mouse` object and is
 * proved to leave exactly the state those functions describe.
 */
module Drawing {
  import opened Raster
  import opened Pointer
  import opened Palette
  import opened Grouping
  import opened Planner

  /** Screen units per image pixel on the canvas (the literal 6 of the run loop). */
  const Step: int := 6

  /** What the drawer can observe of itself: pointer position, `prev_cursor` and the log. */
  datatype Device = Device(pos: Point, prev: Point, log: seq<Event>)

  /** The canvas point of image pixel (x, y) at the given scale. */
  function Scaled(canvas: Point, x: int, y: int, step: int): Point
  {
    Point(canvas.x + x * step, canvas.y + y * step)
  }

  /**
   * The eight-way test of `draw_pixel`: where the pointer is put before the
   * click, or None when the pointer is left where it is. `prev` is compared
   * with the logical (x, y) although it holds a screen position.
   */
  function DotMove(prev: Point, canvas: Point, x: int, y: int, step: int): (r: Option<Point>)
    ensures prev.x != x && prev.y != y ==> r == Some(Scaled(canvas, x, y, step))
    ensures prev.x == x && prev.y != y ==> r == Some(Point(canvas.x + x, canvas.y + y * step))
    ensures prev.x != x && prev.y == y ==> r == Some(Point(canvas.x + x * step, canvas.y + y))
    ensures prev.x == x && prev.y == y ==> r == None
  {
    if prev.x < x && prev.y < y then Some(Point(canvas.x + x * step, canvas.y + y * step))
    else if prev.x > x && prev.y > y then Some(Point(canvas.x + x * step, canvas.y + y * step))
    else if prev.x > x && prev.y < y then Some(Point(canvas.x + x * step, canvas.y + y * step))
    else if prev.x < x && prev.y > y then Some(Point(canvas.x + x * step, canvas.y + y * step))
    else if prev.x == x && prev.y > y then Some(Point(canvas.x + x, canvas.y + y * step))
    else if prev.x == x && prev.y < y then Some(Point(canvas.x + x, canvas.y + y * step))
    else if prev.x > x && prev.y == y then Some(Point(canvas.x + x * step, canvas.y + y))
    else if prev.x < x && prev.y == y then Some(Point(canvas.x + x * step, canvas.y + y))
    else None
  }

  /**
   * `draw_pixel`: maybe move, remember the pointer position as `prev_cursor`,
   * click once where the pointer now is.
   */
  function DrawPixelStep(d: Device, canvas: Point, x: int, y: int, step: int): (r: Device)
    ensures |r.log| == |d.log| + (if DotMove(d.prev, canvas, x, y, step).Some? then 2 else 1)
    ensures r.prev == r.pos && r.log[..|d.log|] == d.log
    ensures r.log[|r.log| - 1] == Click(r.pos)
    ensures r.pos == if DotMove(d.prev, canvas, x, y, step).Some? then DotMove(d.prev, canvas, x, y, step).value else d.pos
    ensures r.log == d.log + (if DotMove(d.prev, canvas, x, y, step).Some? then [MoveTo(r.pos)] else []) + [Click(r.pos)]
  {
    match DotMove(d.prev, canvas, x, y, step)
    case Some(t) => Device(t, t, d.log + [MoveTo(t), Click(t)])
    case None => Device(d.pos, d.pos, d.log + [Click(d.pos)])
  }

  /** n copies of e. */
  function Repeat(e: Event, n: nat): (r: seq<Event>)
    ensures |r| == n && forall i :: 0 <= i < n ==> r[i] == e
  {
    if n == 0 then [] else Repeat(e, n - 1) + [e]
  }

  /**
   * The events of one run from image pixel p over k further columns: move to
   * the start, press, k moves one pixel to the right, release at the end.
   */
  function RunEvents(canvas: Point, p: Pixel, k: nat): seq<Event>
  {
    var start := Scaled(canvas, p.x, p.y, Step);
    [MoveTo(start), Press(start)] + Repeat(MoveRel(Step, 0), k) + [Release(start.Plus(k * Step, 0))]
  }

  /** A run as the run loop performs it; `prev_cursor` is not touched. */
  function RunStep(d: Device, canvas: Point, p: Pixel, k: nat): Device
  {
    Device(Scaled(canvas, p.x, p.y, Step).Plus(k * Step, 0), d.prev, d.log + RunEvents(canvas, p, k))
  }

  function ExecStroke(d: Device, canvas: Point, s: Stroke): Device
  {
    match s
    case Dot(p) => DrawPixelStep(d, canvas, p.x, p.y, Step)
    case Run(p, k) => RunStep(d, canvas, p, k)
  }

  /** The device after performing the strokes in order. */
  function ExecStrokes(d: Device, canvas: Point, strokes: seq<Stroke>): Device
    decreases |strokes|
  {
    if strokes == [] then d else ExecStrokes(ExecStroke(d, canvas, strokes[0]), canvas, strokes[1..])
  }

  /** `set_brush`: go to the colour area's corner, move to the brush button, click it. */
  function BrushStep(d: Device, colors: Point): (r: Device)
    ensures r.prev == d.prev && |r.log| == |d.log| + 4 && r.log[..|d.log|] == d.log
    ensures r.log[|d.log|] == MoveTo(colors) && r.log[|r.log| - 1] == Release(r.pos)
    ensures r.pos == colors.Plus(492, 24) && r.log[|r.log| - 2] == Press(r.pos)
  {
    var b := colors.Plus(BrushOffset.x, BrushOffset.y);
    Device(b, d.prev, d.log + [MoveTo(colors), MoveRel(BrushOffset.x, BrushOffset.y), Press(b), Release(b)])
  }

  /**
   * `set_color`: go to the colour area's corner, then click the colour's
   * swatch; for a colour with no swatch the step fails (false) right after
   * the first move.
   */
  function ColorStep(d: Device, colors: Point, c: Rgb): (r: (Device, bool))
    ensures r.0.prev == d.prev && |r.0.log| > |d.log| && r.0.log[..|d.log|] == d.log
    ensures r.0.log[|d.log|] == MoveTo(colors)
    ensures !r.1 ==> r.0.pos == colors && |r.0.log| == |d.log| + 1
    ensures r.1 <==> SwatchFor(c).Some?
    ensures r.1 ==>
      var off := SwatchFor(c).value;
      var s := colors.Plus(off.x, off.y);
      r.0.pos == s && r.0.log == d.log + [MoveTo(colors), MoveRel(off.x, off.y), Press(s), Release(s)]
  {
    match SwatchFor(c)
    case None => (Device(colors, d.prev, d.log + [MoveTo(colors)]), false)
    case Some(off) =>
      var s := colors.Plus(off.x, off.y);
      (Device(s, d.prev, d.log + [MoveTo(colors), MoveRel(off.x, off.y), Press(s), Release(s)]), true)
  }

  /**
   * Selecting the k-th palette colour presses and releases the button on
   * its swatch, in the 11 by 2 grid of 24-unit cells.
   */
  lemma ColorStepAtSwatch(d: Device, colors: Point, k: nat)
    requires k < SwatchCount
    ensures var (r, found) := ColorStep(d, colors, Swatch(k));
      var s := colors.Plus(SwatchOffset(k).x, SwatchOffset(k).y);
      found && r.pos == s && r.log[|r.log| - 2] == Press(s) && r.log[|r.log| - 1] == Release(s)
  {
    SwatchTable();
  }

  /**
   * The colour loop: per key, select its colour and draw its strokes; the
   * first colour without a swatch ends the job (false).
   */
  function ExecColors(d: Device, canvas: Point, colors: Point, keys: seq<Rgb>,
                      groups: map<Rgb, seq<Pixel>>): (Device, bool)
    requires forall i :: 0 <= i < |keys| ==> keys[i] in groups
    decreases |keys|
  {
    if keys == [] then (d, true)
    else
      var (d1, found) := ColorStep(d, colors, keys[0]);
      if !found then (d1, false)
      else ExecColors(ExecStrokes(d1, canvas, Plan(groups[keys[0]])), canvas, colors, keys[1..], groups)
  }

  /** A whole drawing job on an already quantized image: brush first, then every colour. */
  function ExecJob(d: Device, canvas: Point, colors: Point, img: Image): (Device, bool)
    requires img.Valid()
  {
    JobShape(img);
    ExecColors(BrushStep(d, colors), canvas, colors, Keys(Scan(img)), Groups(Scan(img)))
  }

  /** Performing the plan from entry i is the stroke at i, then the plan from where the walk goes on. */
  lemma ExecPlanStep(d: Device, canvas: Point, g: seq<Pixel>, i: nat)
    requires i < |g|
    ensures ExecStrokes(d, canvas, StrokesFrom(g, i)) ==
      ExecStrokes(ExecStroke(d, canvas, StrokeAt(g, i)), canvas, StrokesFrom(g, After(g, i)))
  {
    PlanStep(g, i);
    var s, rest := StrokeAt(g, i), StrokesFrom(g, After(g, i));
    assert ([s] + rest)[0] == s && ([s] + rest)[1..] == rest;
  }

  /**
   * When the dot of pixel p lands on its canvas point: if `prev_cursor`
   * differs from p in a coordinate, that coordinate lands exactly when it
   * is scaled or is 0; if it equals p the pointer stays where it was.
   */
  lemma DotLandsOnTarget(d: Device, canvas: Point, p: Pixel)
    ensures DrawPixelStep(d, canvas, p.x, p.y, Step).pos == Scaled(canvas, p.x, p.y, Step) <==>
      if d.prev == Point(p.x, p.y) then d.pos == Scaled(canvas, p.x, p.y, Step)
      else (d.prev.x != p.x || p.x == 0) && (d.prev.y != p.y || p.y == 0)
  {
  }

  /** The strokes only add events: the earlier log is kept as a prefix. */
  lemma {:induction false} StrokesExtendLog(d: Device, canvas: Point, strokes: seq<Stroke>)
    ensures |ExecStrokes(d, canvas, strokes).log| >= |d.log|
    ensures ExecStrokes(d, canvas, strokes).log[..|d.log|] == d.log
    decreases |strokes|
  {
    if strokes != [] {
      var d1 := ExecStroke(d, canvas, strokes[0]);
      assert |d1.log| >= |d.log| && d1.log[..|d.log|] == d.log;
      StrokesExtendLog(d1, canvas, strokes[1..]);
    }
  }

  /** Runs never change `prev_cursor`; only dots do. */
  lemma {:induction false} RunsKeepPrev(d: Device, canvas: Point, strokes: seq<Stroke>)
    requires forall s :: s in strokes ==> s.Run?
    ensures ExecStrokes(d, canvas, strokes).prev == d.prev
    decreases |strokes|
  {
    if strokes != [] {
      assert strokes[0] in strokes;
      RunsKeepPrev(ExecStroke(d, canvas, strokes[0]), canvas, strokes[1..]);
    }
  }

  /**
   * The colour loop runs to the end exactly when every key has a swatch;
   * when it stops early the pointer is at the colour area's corner and the
   * last event is the move there.
   */
  lemma {:induction false} ColorsCompleteIffKnown(d: Device, canvas: Point, colors: Point,
                                                  keys: seq<Rgb>, groups: map<Rgb, seq<Pixel>>)
    requires forall i :: 0 <= i < |keys| ==> keys[i] in groups
    ensures ExecColors(d, canvas, colors, keys, groups).1 <==>
      forall i :: 0 <= i < |keys| ==> SwatchFor(keys[i]).Some?
    ensures !ExecColors(d, canvas, colors, keys, groups).1 ==>
      var r := ExecColors(d, canvas, colors, keys, groups).0;
      r.pos == colors && |r.log| > 0 && r.log[|r.log| - 1] == MoveTo(colors)
    decreases |keys|
  {
    if keys != [] {
      var (d1, found) := ColorStep(d, colors, keys[0]);
      if found {
        KnownSplit(keys);
        ColorsCompleteIffKnown(ExecStrokes(d1, canvas, Plan(groups[keys[0]])), canvas, colors, keys[1..], groups);
      }
    }
  }

  /** Every key has a swatch exactly when the first one has and every later one has. */
  lemma KnownSplit(keys: seq<Rgb>)
    requires keys != []
    ensures (forall i :: 0 <= i < |keys| ==> SwatchFor(keys[i]).Some?) <==>
      SwatchFor(keys[0]).Some? && forall i :: 0 <= i < |keys[1..]| ==> SwatchFor(keys[1..][i]).Some?
  {
    var rest := keys[1..];
    assert forall i :: 1 <= i < |keys| ==> keys[i] == rest[i - 1];
    assert forall i :: 0 <= i < |rest| ==> rest[i] == keys[i + 1];
  }

  /**
   * A job on an image runs to the end exactly when every colour that is
   * drawn (every non-white colour of the image) has a swatch, that is, is
   * one of the 22 palette colours.
   */
  lemma JobCompletesIffPaletteColors(d: Device, canvas: Point, colors: Point, img: Image)
    requires img.Valid()
    ensures ExecJob(d, canvas, colors, img).1 <==>
      forall p :: img.Contains(p) && img.At(p) != White ==>
        exists k :: 0 <= k < SwatchCount && img.At(p) == Swatch(k)
  {
    var keys, groups := Keys(Scan(img)), Groups(Scan(img));
    JobShape(img);
    ColorsCompleteIffKnown(BrushStep(d, colors), canvas, colors, keys, groups);
    if ExecJob(d, canvas, colors, img).1 {
      forall p | img.Contains(p) && img.At(p) != White
        ensures exists k :: 0 <= k < SwatchCount && img.At(p) == Swatch(k)
      {
        PixelHasKey(img, p);
        var i :| 0 <= i < |keys| && keys[i] in groups && p in groups[keys[i]];
        MemberIsForeground(img, keys[i], p);
        UnknownColor(keys[i]);
      }
    } else {
      var i :| 0 <= i < |keys| && SwatchFor(keys[i]).None?;
      KeyHasPixel(img, i);
      var p := groups[keys[i]][0];
      MemberIsForeground(img, keys[i], p);
      UnknownColor(keys[i]);
    }
  }

  /** Every key of an image has a non-empty list. */
  lemma KeyHasPixel(img: Image, i: nat)
    requires img.Valid() && i < |Keys(Scan(img))|
    ensures Keys(Scan(img))[i] in Groups(Scan(img)) && |Groups(Scan(img))[Keys(Scan(img))[i]]| > 0
  {
    GroupingCorrect(img);
  }

  /**
   * The drawing thread's state: the pointer it drives and `prev_cursor`,
   * the last position a single dot was clicked at.
   */
  class ImageDrawer {
    const mouse: Mouse
    var prevCursor: Point

    constructor (mouse: Mouse)
      ensures this.mouse == mouse && prevCursor == Point(0, 0)
    {
      this.mouse := mouse;
      prevCursor := Point(0, 0);
    }

    function State(): Device
      reads this, mouse
    {
      Device(mouse.position, prevCursor, mouse.log)
    }

    /** `draw_pixel(x, y, step_size)` with the canvas corner passed in. */
    method DrawPixel(canvas: Point, x: int, y: int, step: int)
      modifies this, mouse
      ensures State() == DrawPixelStep(old(State()), canvas, x, y, step)
    {
      var target := DotMove(prevCursor, canvas, x, y, step);
      if target.Some? {
        mouse.SetPosition(target.value);
      }
      prevCursor := mouse.position;
      mouse.ClickLeft();
    }

    /** `move_one_step_to_right(step_size)`: a relative move, nothing else. */
    method MoveOneStepToRight(step: int)
      modifies mouse
      ensures mouse.position == old(mouse.position).Plus(step, 0)
      ensures mouse.log == old(mouse.log) + [MoveRel(step, 0)]
    {
      mouse.Move(step, 0);
    }

    /** `set_brush` with the colour area's corner passed in. */
    method SetBrush(colors: Point)
      modifies mouse
      ensures State() == BrushStep(old(State()), colors)
    {
      mouse.SetPosition(colors);
      mouse.Move(BrushOffset.x, BrushOffset.y);
      mouse.PressLeft();
      mouse.ReleaseLeft();
      assert mouse.log == old(mouse.log) + [MoveTo(colors), MoveRel(BrushOffset.x, BrushOffset.y),
                                            Press(mouse.position), Release(mouse.position)];
    }

    /** `set_color(r, g, b)`; `found` is false where the source raises. */
    method SetColor(colors: Point, c: Rgb) returns (found: bool)
      modifies mouse
      ensures (State(), found) == ColorStep(old(State()), colors, c)
    {
      mouse.SetPosition(colors);
      var off := SwatchFor(c);
      if off.Some? {
        ghost var log0 := old(mouse.log);
        mouse.Move(off.value.x, off.value.y);
        mouse.PressLeft();
        mouse.ReleaseLeft();
        found := true;
        assert mouse.log == log0 + [MoveTo(colors), MoveRel(off.value.x, off.value.y),
                                    Press(mouse.position), Release(mouse.position)];
      } else {
        found := false;
      }
    }

    /**
     * One run of the loop over a colour's list: press at the pixel's canvas
     * point, step right while the virtual pixel has a neighbour, release.
     * Returns how many steps were taken, the number of entries to skip.
     */
    method DrawRun(canvas: Point, g: seq<Pixel>, pixel: Pixel) returns (skipped: nat)
      modifies mouse
      ensures skipped == RunLength(g, pixel)
      ensures State() == RunStep(old(State()), canvas, pixel, skipped)
    {
      var start := Scaled(canvas, pixel.x, pixel.y, Step);
      mouse.SetPosition(start);
      mouse.PressLeft();
      ghost var pressed := mouse.log;
      var virtual := pixel;
      skipped := 0;
      while HasNeighbor(virtual, g)
        invariant virtual == Shifted(pixel, skipped)
        invariant RunLength(g, pixel) == skipped + RunLength(g, virtual)
        invariant mouse.position == start.Plus(skipped * Step, 0)
        invariant mouse.log == pressed + Repeat(MoveRel(Step, 0), skipped)
        decreases Bound(g) - virtual.x
      {
        MoveOneStepToRight(Step);
        virtual := Pixel(virtual.x + 1, pixel.y);
        skipped := skipped + 1;
      }
      mouse.ReleaseLeft();
      assert mouse.log == old(mouse.log) + RunEvents(canvas, pixel, skipped);
    }

    /**
     * The body of the loop over a colour's list for an entry that is not
     * skipped: a run if it has a right neighbour, a single dot otherwise.
     * Returns the number of following entries to skip.
     */
    method DrawEntry(canvas: Point, g: seq<Pixel>, idx: nat) returns (skip: nat)
      requires idx < |g|
      modifies this, mouse
      ensures skip == RunLength(g, g[idx])
      ensures State() == ExecStroke(old(State()), canvas, StrokeAt(g, idx))
      ensures ExecStrokes(State(), canvas, StrokesFrom(g, idx + 1 + skip)) ==
        ExecStrokes(old(State()), canvas, StrokesFrom(g, idx))
    {
      ExecPlanStep(State(), canvas, g, idx);
      var pixel := g[idx];
      if HasNeighbor(pixel, g) {
        skip := DrawRun(canvas, g, pixel);
      } else {
        DrawPixel(canvas, pixel.x, pixel.y, Step);
        skip := 0;
      }
    }

    /**
     * The loop over one colour's list: runs for entries with a right
     * neighbour, skipping as many entries as the run took steps, and single
     * dots for the others.
     */
    method DrawGroup(canvas: Point, g: seq<Pixel>)
      modifies this, mouse
      ensures State() == ExecStrokes(old(State()), canvas, Plan(g))
    {
      ghost var goal := ExecStrokes(State(), canvas, Plan(g));
      var skip: nat := 0;
      var idx := 0;
      ghost var next := 0;  // the entry the plan goes on from
      while idx < |g|
        invariant idx <= |g| && next == idx + skip
        invariant ExecStrokes(State(), canvas, StrokesFrom(g, next)) == goal
      {
        if skip > 0 {
          skip := skip - 1;
        } else {
          skip := DrawEntry(canvas, g, idx);
          next := idx + 1 + skip;
        }
        idx := idx + 1;
      }
    }

    /**
     * The body of the drawing thread on an already quantized image: group
     * the pixels, select the brush, then per colour select it and draw its
     * list. `completed` is false when a colour had no swatch; the source
     * raises there and the job ends.
     */
    method Run(img: Image, canvas: Point, colors: Point) returns (completed: bool)
      requires img.Valid()
      modifies this, mouse
      ensures (State(), completed) == ExecJob(old(State()), canvas, colors, img)
    {
      var keys, groups := GroupByColor(img);
      JobShape(img);
      SetBrush(colors);
      var n := 0;
      while n < |keys|
        invariant n <= |keys|
        invariant ExecColors(State(), canvas, colors, keys[n..], groups) ==
          ExecJob(old(State()), canvas, colors, img)
      {
        ghost var before := State();
        assert keys[n..][0] == keys[n] && keys[n..][1..] == keys[n + 1..];
        var found := SetColor(colors, keys[n]);
        if !found {
          return false;
        }
        DrawGroup(canvas, groups[keys[n]]);
        n := n + 1;
      }
      return true;
    }
  }
}
