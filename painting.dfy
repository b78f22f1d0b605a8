/**
 * What an event log does to the canvas: a press or click paints the point
 * under the pointer, and every move while the button is held paints the
 * point it arrives at. With this reading the run strokes paint exactly
 * their pixels, while the single-dot step of `draw_pixel` can click off
 * target; the corrected dot step, which always goes to the pixel's canvas
 * point, makes a colour's plan paint every entry of its list exactly once.
 */
module Painting {
  import opened Raster
  import opened Pointer
  import opened Palette
  import opened Grouping
  import opened Planner
  import opened Drawing

  /** The pointer as a pen: where it is, whether the button is held, what it painted. */
  datatype Pen = Pen(at: Point, down: bool, marks: seq<Point>)

  function Apply(pen: Pen, e: Event): Pen
  {
    match e
    case MoveTo(p) => Pen(p, pen.down, if pen.down then pen.marks + [p] else pen.marks)
    case MoveRel(dx, dy) =>
      var p := pen.at.Plus(dx, dy);
      Pen(p, pen.down, if pen.down then pen.marks + [p] else pen.marks)
    case Press(p) => Pen(p, true, pen.marks + [p])
    case Release(p) => Pen(p, false, pen.marks)
    case Click(p) => Pen(p, pen.down, pen.marks + [p])
  }

  /** The pen after the events, in order. */
  function Replay(pen: Pen, events: seq<Event>): Pen
  {
    if events == [] then pen
    else Apply(Replay(pen, events[..|events| - 1]), events[|events| - 1])
  }

  lemma {:induction false} ReplayAppend(pen: Pen, a: seq<Event>, b: seq<Event>)
    ensures Replay(pen, a + b) == Replay(Replay(pen, a), b)
    decreases |b|
  {
    if b == [] {
      assert a + b == a;
    } else {
      var b' := b[..|b| - 1];
      assert (a + b)[..|a + b| - 1] == a + b';
      ReplayAppend(pen, a, b');
    }
  }

  /** The canvas points of a list of image pixels. */
  function ScaledAll(canvas: Point, ps: seq<Pixel>): (r: seq<Point>)
    ensures |r| == |ps|
  {
    seq(|ps|, i requires 0 <= i < |ps| => Scaled(canvas, ps[i].x, ps[i].y, Step))
  }

  lemma ScaledAllAppend(canvas: Point, a: seq<Pixel>, b: seq<Pixel>)
    ensures ScaledAll(canvas, a + b) == ScaledAll(canvas, a) + ScaledAll(canvas, b)
  {
    var l, r := ScaledAll(canvas, a + b), ScaledAll(canvas, a) + ScaledAll(canvas, b);
    forall i | 0 <= i < |l|
      ensures l[i] == r[i]
    {
      if i >= |a| {
        assert (a + b)[i] == b[i - |a|];
      }
    }
  }

  /** Image pixels map to canvas points one to one. */
  lemma ScaledInjective(canvas: Point, p: Pixel, q: Pixel)
    ensures Scaled(canvas, p.x, p.y, Step) == Scaled(canvas, q.x, q.y, Step) <==> p == q
  {
  }

  /** Dragging with the button held paints every intermediate step point. */
  lemma {:induction false} DragPaints(pen: Pen, n: nat)
    requires pen.down
    ensures Replay(pen, Repeat(MoveRel(Step, 0), n)) ==
      Pen(pen.at.Plus(n * Step, 0), true,
          pen.marks + seq(n, j requires 0 <= j < n => pen.at.Plus((j + 1) * Step, 0)))
  {
    if n == 0 {
      assert pen.marks + [] == pen.marks;
    } else {
      var s := Repeat(MoveRel(Step, 0), n - 1);
      assert Repeat(MoveRel(Step, 0), n)[..n - 1] == s;
      DragPaints(pen, n - 1);
      var before := seq(n - 1, j requires 0 <= j < n - 1 => pen.at.Plus((j + 1) * Step, 0));
      var after := seq(n, j requires 0 <= j < n => pen.at.Plus((j + 1) * Step, 0));
      assert after == before + [pen.at.Plus(n * Step, 0)];
    }
  }

  /**
   * A run stroke, started with the button up, paints exactly the canvas
   * points of its span, left to right, and ends with the button up.
   */
  lemma RunPaintsSpan(pen: Pen, canvas: Point, p: Pixel, k: nat)
    requires !pen.down
    ensures !Replay(pen, RunEvents(canvas, p, k)).down
    ensures Replay(pen, RunEvents(canvas, p, k)).marks ==
      pen.marks + ScaledAll(canvas, Span(Stroke.Run(p, k)))
  {
    var start := Scaled(canvas, p.x, p.y, Step);
    var head := [MoveTo(start), Press(start)];
    var drag := Repeat(MoveRel(Step, 0), k);
    var tail := [Release(start.Plus(k * Step, 0))];
    assert RunEvents(canvas, p, k) == head + drag + tail;
    assert head[..1] == [MoveTo(start)] && [MoveTo(start)][..0] == [];
    var pressed := Replay(pen, head);
    assert Replay(pen, [MoveTo(start)]) == Pen(start, false, pen.marks);
    assert pressed == Pen(start, true, pen.marks + [start]);
    ReplayAppend(pen, head, drag);
    ReplayAppend(pen, head + drag, tail);
    DragPaints(pressed, k);
    var painted := [start] + seq(k, j requires 0 <= j < k => start.Plus((j + 1) * Step, 0));
    var span := ScaledAll(canvas, Span(Stroke.Run(p, k)));
    forall j | 0 <= j < k + 1
      ensures span[j] == painted[j]
    {
      assert Span(Stroke.Run(p, k))[j] == Shifted(p, j);
    }
    assert span == painted;
    assert tail[..0] == [];
  }

  /** A corrected dot, started with the button up, paints its pixel's canvas point only. */
  lemma DotPaints(pen: Pen, canvas: Point, p: Pixel)
    requires !pen.down
    ensures !Replay(pen, StrokeEvents(canvas, Dot(p))).down
    ensures Replay(pen, StrokeEvents(canvas, Dot(p))).marks == pen.marks + ScaledAll(canvas, Span(Dot(p)))
  {
    var t := Scaled(canvas, p.x, p.y, Step);
    var e := StrokeEvents(canvas, Dot(p));
    assert e[..1] == [MoveTo(t)] && [MoveTo(t)][..0] == [];
    assert Replay(pen, [MoveTo(t)]) == Pen(t, false, pen.marks);
    assert ScaledAll(canvas, [p]) == [t];
  }

  /** The `draw_pixel` step as evidently intended: always go to the pixel's canvas point, then click. */
  function IntendedDrawPixelStep(d: Device, canvas: Point, x: int, y: int, step: int): Device
  {
    var t := Scaled(canvas, x, y, step);
    Device(t, t, d.log + [MoveTo(t), Click(t)])
  }

  function IntendedStroke(d: Device, canvas: Point, s: Stroke): Device
  {
    match s
    case Dot(p) => IntendedDrawPixelStep(d, canvas, p.x, p.y, Step)
    case Run(p, k) => RunStep(d, canvas, p, k)
  }

  /** The device after the strokes, with the corrected dot step. */
  function IntendedStrokes(d: Device, canvas: Point, strokes: seq<Stroke>): Device
    decreases |strokes|
  {
    if strokes == [] then d else IntendedStrokes(IntendedStroke(d, canvas, strokes[0]), canvas, strokes[1..])
  }

  /** The events one stroke adds with the corrected dot step. */
  function StrokeEvents(canvas: Point, s: Stroke): seq<Event>
  {
    match s
    case Dot(p) =>
      var t := Scaled(canvas, p.x, p.y, Step);
      [MoveTo(t), Click(t)]
    case Run(p, k) => RunEvents(canvas, p, k)
  }

  function IntendedEvents(canvas: Point, strokes: seq<Stroke>): seq<Event>
    decreases |strokes|
  {
    if strokes == [] then [] else StrokeEvents(canvas, strokes[0]) + IntendedEvents(canvas, strokes[1..])
  }

  /** The corrected strokes only append their own events to the log. */
  lemma {:induction false} IntendedLog(d: Device, canvas: Point, strokes: seq<Stroke>)
    ensures IntendedStrokes(d, canvas, strokes).log == d.log + IntendedEvents(canvas, strokes)
    decreases |strokes|
  {
    if strokes != [] {
      var d1 := IntendedStroke(d, canvas, strokes[0]);
      assert d1.log == d.log + StrokeEvents(canvas, strokes[0]);
      IntendedLog(d1, canvas, strokes[1..]);
    }
  }

  /** Concatenation of mark lists regroups freely. */
  lemma MarksCompose(marks: seq<Point>, here: seq<Point>, later: seq<Point>)
    ensures marks + here + later == marks + (here + later)
  {
  }

  /** The events and the painted points of a stroke list split after its first stroke. */
  lemma FirstStrokeSplits(pen: Pen, canvas: Point, strokes: seq<Stroke>)
    requires strokes != []
    ensures Replay(pen, IntendedEvents(canvas, strokes)) ==
      Replay(Replay(pen, StrokeEvents(canvas, strokes[0])), IntendedEvents(canvas, strokes[1..]))
    ensures ScaledAll(canvas, Flatten(strokes)) ==
      ScaledAll(canvas, Span(strokes[0])) + ScaledAll(canvas, Flatten(strokes[1..]))
  {
    var s, rest := strokes[0], strokes[1..];
    assert IntendedEvents(canvas, strokes) == StrokeEvents(canvas, s) + IntendedEvents(canvas, rest);
    ReplayAppend(pen, StrokeEvents(canvas, s), IntendedEvents(canvas, rest));
    assert Flatten(strokes) == Span(s) + Flatten(rest);
    ScaledAllAppend(canvas, Span(s), Flatten(rest));
  }

  /** One corrected stroke, started with the button up, paints exactly its span. */
  lemma StrokePaints(pen: Pen, canvas: Point, s: Stroke)
    requires !pen.down
    ensures !Replay(pen, StrokeEvents(canvas, s)).down
    ensures Replay(pen, StrokeEvents(canvas, s)).marks == pen.marks + ScaledAll(canvas, Span(s))
  {
    match s
    case Dot(p) => DotPaints(pen, canvas, p);
    case Run(p, k) => RunPaintsSpan(pen, canvas, p, k);
  }

  /**
   * With the corrected dot step, the strokes paint the canvas points of the
   * pixels they cover, in order, and leave the button up.
   */
  lemma {:induction false} IntendedEventsPaint(pen: Pen, canvas: Point, strokes: seq<Stroke>)
    requires !pen.down
    ensures !Replay(pen, IntendedEvents(canvas, strokes)).down
    ensures Replay(pen, IntendedEvents(canvas, strokes)).marks ==
      pen.marks + ScaledAll(canvas, Flatten(strokes))
    decreases |strokes|
  {
    if strokes == [] {
      assert pen.marks + ScaledAll(canvas, []) == pen.marks;
    } else {
      var s, rest := strokes[0], strokes[1..];
      var mid := Replay(pen, StrokeEvents(canvas, s));
      var here, later := ScaledAll(canvas, Span(s)), ScaledAll(canvas, Flatten(rest));
      FirstStrokeSplits(pen, canvas, strokes);
      StrokePaints(pen, canvas, s);
      IntendedEventsPaint(mid, canvas, rest);
      MarksCompose(pen.marks, here, later);
    }
  }

  /**
   * The corrected drawing of one colour's list: its plan paints the canvas
   * point of every entry, in list order, each exactly once, and nothing else.
   */
  lemma IntendedGroupPaints(d: Device, canvas: Point, g: seq<Pixel>)
    requires Sorted(g)
    ensures IntendedStrokes(d, canvas, Plan(g)).log == d.log + IntendedEvents(canvas, Plan(g))
    ensures Replay(Pen(d.pos, false, []), IntendedEvents(canvas, Plan(g))).marks == ScaledAll(canvas, g)
    ensures Distinct(ScaledAll(canvas, g))
  {
    IntendedLog(d, canvas, Plan(g));
    IntendedEventsPaint(Pen(d.pos, false, []), canvas, Plan(g));
    PlanCoversGroup(g);
    SortedIsDistinct(g);
    var m := ScaledAll(canvas, g);
    forall i, j | 0 <= i < j < |m|
      ensures m[i] != m[j]
    {
      ScaledInjective(canvas, g[i], g[j]);
    }
  }

  /**
   * As written, a fresh drawer (`prev_cursor` (0, 0)) whose first single dot
   * is pixel (0, 0) does not move: it clicks wherever the pointer is, which
   * in a job is the colour swatch just chosen.
   */
  lemma OriginDotStaysPut(pos: Point, canvas: Point, log: seq<Event>)
    ensures Plan([Pixel(0, 0)]) == [Dot(Pixel(0, 0))]
    ensures ExecStrokes(Device(pos, Point(0, 0), log), canvas, Plan([Pixel(0, 0)])) ==
      Device(pos, pos, log + [Click(pos)])
  {
    var g := [Pixel(0, 0)];
    assert !HasNeighbor(g[0], g);
    assert StrokesFrom(g, 0) == [Dot(Pixel(0, 0))] + StrokesFrom(g, 1);
  }

  /** A one-pixel black image. */
  const BlackDot: Image := Image(1, 1, [[Rgb(0, 0, 0)]])

  /**
   * The whole job on a one-pixel black image from a fresh drawer: after the
   * brush and the black swatch (offset (12, 36)) the only dot is clicked on
   * the swatch, never on the canvas.
   */
  lemma BlackDotJob(start: Point, canvas: Point, colors: Point)
    ensures BlackDot.Valid()
    ensures ExecJob(Device(start, Point(0, 0), []), canvas, colors, BlackDot).1
    ensures ExecJob(Device(start, Point(0, 0), []), canvas, colors, BlackDot).0.log ==
      [MoveTo(colors), MoveRel(492, 24), Press(colors.Plus(492, 24)), Release(colors.Plus(492, 24)),
       MoveTo(colors), MoveRel(12, 36), Press(colors.Plus(12, 36)), Release(colors.Plus(12, 36)),
       Click(colors.Plus(12, 36))]
  {
    var img := BlackDot;
    var black := Rgb(0, 0, 0);
    var cells := [Cell(Pixel(0, 0), black)];
    assert RowPrefix(img, 0, 1) == cells by {
      assert RowPrefix(img, 0, 0) == [];
    }
    assert ScanRows(img, 1) == cells by {
      assert ScanRows(img, 0) == [];
    }
    assert Scan(img) == cells;
    assert cells[..0] == [];
    assert Keys(cells) == [black];
    assert Groups(cells[..0]) == map[];
    assert [] + [Pixel(0, 0)] == [Pixel(0, 0)];
    assert Groups(cells) == map[black := [Pixel(0, 0)]];
    var groups := map[black := [Pixel(0, 0)]];
    var d0 := Device(start, Point(0, 0), []);
    var b := BrushStep(d0, colors);
    var (d1, found) := ColorStep(b, colors, black);
    assert found && d1.pos == colors.Plus(12, 36) && d1.prev == Point(0, 0);
    var dot := Dot(Pixel(0, 0));
    assert Plan(groups[black]) == [dot] by {
      assert !HasNeighbor(Pixel(0, 0), [Pixel(0, 0)]);
    }
    var d2 := DrawPixelStep(d1, canvas, 0, 0, Step);
    assert ExecStrokes(d1, canvas, [dot]) == d2 by {
      assert [dot][1..] == [];
    }
    assert ExecColors(b, canvas, colors, [black], groups) == (d2, true) by {
      assert [black][1..] == [];
    }
    OriginDotStaysPut(d1.pos, canvas, d1.log);
  }

  /**
   * As written, with the canvas corner at the screen origin, a dot at
   * pixel (1, 0) leaves `prev_cursor` at the screen point (6, 0); the next
   * dot, pixel (6, 2), then takes the "same column" branch and is clicked
   * at (6, 12) instead of its canvas point (36, 12).
   */
  lemma UnscaledColumn(pos: Point, log: seq<Event>)
    ensures Plan([Pixel(1, 0), Pixel(6, 2)]) == [Dot(Pixel(1, 0)), Dot(Pixel(6, 2))]
    ensures ExecStrokes(Device(pos, Point(0, 0), log), Point(0, 0), Plan([Pixel(1, 0), Pixel(6, 2)])).log ==
      log + [MoveTo(Point(6, 0)), Click(Point(6, 0)), MoveTo(Point(6, 12)), Click(Point(6, 12))]
    ensures Scaled(Point(0, 0), 6, 2, Step) == Point(36, 12)
  {
    var g := [Pixel(1, 0), Pixel(6, 2)];
    assert !HasNeighbor(g[0], g) && !HasNeighbor(g[1], g);
    assert StrokesFrom(g, 1) == [Dot(Pixel(6, 2))] + StrokesFrom(g, 2);
    assert StrokesFrom(g, 0) == [Dot(Pixel(1, 0))] + StrokesFrom(g, 1);
    var strokes := [Dot(Pixel(1, 0)), Dot(Pixel(6, 2))];
    var d0 := Device(pos, Point(0, 0), log);
    var d1 := ExecStroke(d0, Point(0, 0), strokes[0]);
    assert d1 == Device(Point(6, 0), Point(6, 0), log + [MoveTo(Point(6, 0)), Click(Point(6, 0))]);
    var d2 := ExecStroke(d1, Point(0, 0), strokes[1]);
    assert d2.log == d1.log + [MoveTo(Point(6, 12)), Click(Point(6, 12))];
    assert strokes[1..][1..] == [];
  }
}
