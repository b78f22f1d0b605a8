/**
 * The small rules around a drawing job: when the start button may start
 * one and which image it uses, the two-click calibration of the canvas and
 * colour-area corners, and where the image picker places each candidate.
 */
module Session {
  import opened Raster
  import opened Pointer

  /** The image a job is started with: a file to open, or an image already grabbed. */
  datatype Choice<I> = Local(path: string) | Grabbed(obj: I)

  /** What pressing the start button does. */
  datatype StartOutcome<I> =
    | CoordsNotSet                                          // first warning box
    | NoImageSelected                                       // second warning box
    | Started(canvas: Point, colors: Point, choice: Choice<I>)

  /** A path counts only when it is set and not empty (an empty string is false). */
  predicate HasPath(path: Option<string>)
  {
    path.Some? && path.value != ""
  }

  /**
   * The image choice of `start_draw_btn_click`: with both a path and a
   * grabbed image the preference decides, otherwise whichever is present.
   */
  function ImageChoice<I>(path: Option<string>, obj: Option<I>, preferLocal: bool): (r: Option<Choice<I>>)
    ensures r.None? <==> !HasPath(path) && obj.None?
    ensures r.Some? && r.value.Local? ==> HasPath(path) && r.value.path == path.value
    ensures r.Some? && r.value.Grabbed? ==> obj.Some? && r.value.obj == obj.value
    ensures HasPath(path) && obj.Some? ==> r.Some? && (r.value.Local? <==> preferLocal)
  {
    if HasPath(path) && obj.Some? then
      if preferLocal then Some(Local(path.value)) else Some(Grabbed(obj.value))
    else if HasPath(path) then Some(Local(path.value))
    else if obj.Some? then Some(Grabbed(obj.value))
    else None
  }

  /**
   * `start_draw_btn_click`: both corners must be calibrated (checked first),
   * then an image must be present; only then is a job started, with the
   * calibrated corners and the chosen image.
   */
  function StartDraw<I>(canvas: Option<Point>, colors: Option<Point>, path: Option<string>,
                        obj: Option<I>, preferLocal: bool): (r: StartOutcome<I>)
    ensures r.CoordsNotSet? <==> canvas.None? || colors.None?
    ensures r.NoImageSelected? <==> canvas.Some? && colors.Some? && !HasPath(path) && obj.None?
    ensures r.Started? <==> canvas.Some? && colors.Some? && (HasPath(path) || obj.Some?)
    ensures r.Started? ==>
      r.canvas == canvas.value && r.colors == colors.value &&
      Some(r.choice) == ImageChoice(path, obj, preferLocal)
  {
    var choice := ImageChoice(path, obj, preferLocal);
    if canvas.None? || colors.None? then CoordsNotSet
    else if choice.None? then NoImageSelected
    else Started(canvas.value, colors.value, choice.value)
  }

  /** One report of the click listener: where, and whether the button went down or up. */
  datatype ClickReport = ClickReport(x: int, y: int, pressed: bool)

  /** The index of the first button release at or after `from`, if any. */
  function NextRelease(reports: seq<ClickReport>, from: nat): (r: Option<nat>)
    ensures r.Some? ==> from <= r.value < |reports| && !reports[r.value].pressed
    ensures r.Some? ==> forall j :: from <= j < r.value ==> reports[j].pressed
    ensures r.None? ==> forall j :: from <= j < |reports| ==> reports[j].pressed
    decreases |reports| - from
  {
    if from >= |reports| then None
    else if !reports[from].pressed then Some(from)
    else NextRelease(reports, from + 1)
  }

  function Position(c: ClickReport): Point
  {
    Point(c.x, c.y)
  }

  /**
   * The coordinate table after calibrating `actions` in order from the
   * reports starting at `from`: each action takes the position of the next
   * release; once the reports run out the listener is still waiting and
   * nothing more is assigned.
   */
  function Calibrated(coords: map<string, Option<Point>>, actions: seq<string>,
                      reports: seq<ClickReport>, from: nat): map<string, Option<Point>>
    decreases |actions|
  {
    if actions == [] then coords
    else
      match NextRelease(reports, from)
      case None => coords
      case Some(i) =>
        Calibrated(coords[actions[0] := Some(Position(reports[i]))], actions[1..], reports, i + 1)
  }

  /**
   * How far into the reports the calibration of `count` actions from
   * `from` reads: up to and including each action's release, or to the end
   * once the reports run out.
   */
  function ReportsRead(count: nat, reports: seq<ClickReport>, from: nat): (n: nat)
    requires from <= |reports|
    ensures from <= n <= |reports|
    ensures count > 0 && NextRelease(reports, from).Some? ==> NextRelease(reports, from).value < n
    decreases count
  {
    if count == 0 then from
    else
      match NextRelease(reports, from)
      case None => |reports|
      case Some(i) => ReportsRead(count - 1, reports, i + 1)
  }

  const CanvasKey: string := "canvasTopLeft"
  const ColorsKey: string := "colorsTopLeft"

  /** The main window's coordinate table and the calibration order. */
  class MainWindow {
    var coords: map<string, Option<Point>>
    const actions: seq<string>

    constructor ()
      ensures coords == map[CanvasKey := None, ColorsKey := None]
      ensures actions == [CanvasKey, ColorsKey]
    {
      coords := map[CanvasKey := None, ColorsKey := None];
      actions := [CanvasKey, ColorsKey];
    }
  }

  /** The calibration thread: the last position the listener reported. */
  class SelectCoordsThread {
    var currentPos: Point

    constructor ()
      ensures currentPos == Point(0, 0)
    {
      currentPos := Point(0, 0);
    }

    /** `on_click`: remember the position; stop listening on a release. */
    method OnClick(x: int, y: int, pressed: bool) returns (keepListening: bool)
      modifies this
      ensures currentPos == Point(x, y)
      ensures keepListening == pressed
    {
      currentPos := Point(x, y);
      keepListening := pressed;
    }

    /**
     * `run`: for each action in order, listen until a release and store
     * the last reported position under that action.
     */
    method Run(window: MainWindow, reports: seq<ClickReport>)
      modifies this, window
      ensures window.coords == Calibrated(old(window.coords), window.actions, reports, 0)
      ensures var n := ReportsRead(|window.actions|, reports, 0);
        currentPos == if n == 0 then old(currentPos) else Position(reports[n - 1])
    {
      var a := 0;
      var next := 0;
      while a < |window.actions|
        invariant a <= |window.actions| && next <= |reports|
        invariant Calibrated(window.coords, window.actions[a..], reports, next) ==
          Calibrated(old(window.coords), window.actions, reports, 0)
        invariant ReportsRead(|window.actions| - a, reports, next) == ReportsRead(|window.actions|, reports, 0)
        invariant currentPos == if next == 0 then old(currentPos) else Position(reports[next - 1])
      {
        ghost var from := next;
        ghost var before := window.coords;
        var listening := true;
        while listening && next < |reports|
          invariant from <= next <= |reports|
          invariant listening ==> NextRelease(reports, next) == NextRelease(reports, from)
          invariant !listening ==>
            from < next && NextRelease(reports, from) == Some(next - 1) &&
            currentPos == Position(reports[next - 1])
          invariant window.coords == before
          invariant currentPos == if next == 0 then old(currentPos) else Position(reports[next - 1])
        {
          var c := reports[next];
          listening := OnClick(c.x, c.y, c.pressed);
          next := next + 1;
        }
        if listening {
          // the reports ran out: the listener would still be waiting
          return;
        }
        assert window.actions[a..][0] == window.actions[a] && window.actions[a..][1..] == window.actions[a + 1..];
        window.coords := window.coords[window.actions[a] := Some(currentPos)];
        a := a + 1;
      }
    }
  }

  /**
   * Calibration order: the first release sets the canvas corner, the
   * second the colour-area corner, each to the position reported with it;
   * without a release nothing changes.
   */
  lemma CalibrationOrder(coords: map<string, Option<Point>>, reports: seq<ClickReport>)
    ensures NextRelease(reports, 0).None? ==> Calibrated(coords, [CanvasKey, ColorsKey], reports, 0) == coords
    ensures NextRelease(reports, 0).Some? ==>
      var i := NextRelease(reports, 0).value;
      var r := Calibrated(coords, [CanvasKey, ColorsKey], reports, 0);
      CanvasKey in r && r[CanvasKey] == Some(Position(reports[i])) &&
      (NextRelease(reports, i + 1).None? ==> r == coords[CanvasKey := Some(Position(reports[i]))]) &&
      (NextRelease(reports, i + 1).Some? ==>
        r == coords[CanvasKey := Some(Position(reports[i]))]
                   [ColorsKey := Some(Position(reports[NextRelease(reports, i + 1).value]))])
  {
    var actions := [CanvasKey, ColorsKey];
    assert actions[1..][1..] == [];
    match NextRelease(reports, 0)
    case None =>
    case Some(i) =>
      var c1 := coords[CanvasKey := Some(Position(reports[i]))];
      match NextRelease(reports, i + 1)
      case None =>
      case Some(j) =>
        var c2 := c1[ColorsKey := Some(Position(reports[j]))];
        assert actions[1..] == [ColorsKey];
        assert Calibrated(coords, actions, reports, 0) == Calibrated(c1, [ColorsKey], reports, i + 1);
        assert Calibrated(c1, [ColorsKey], reports, i + 1) == Calibrated(c2, [], reports, j + 1);
        assert CanvasKey != ColorsKey;
        assert c2[CanvasKey] == Some(Position(reports[i]));
  }

  /**
   * After two releases, starting a job with an image present uses the two
   * reported positions as the canvas and colour-area corners.
   */
  lemma CalibratedThenStart<I>(reports: seq<ClickReport>, path: Option<string>, obj: Option<I>, preferLocal: bool)
    requires NextRelease(reports, 0).Some? && NextRelease(reports, NextRelease(reports, 0).value + 1).Some?
    requires HasPath(path) || obj.Some?
    ensures
      var i := NextRelease(reports, 0).value;
      var j := NextRelease(reports, i + 1).value;
      var r := Calibrated(map[CanvasKey := None, ColorsKey := None], [CanvasKey, ColorsKey], reports, 0);
      CanvasKey in r && ColorsKey in r &&
      StartDraw(r[CanvasKey], r[ColorsKey], path, obj, preferLocal) ==
        Started(Position(reports[i]), Position(reports[j]), ImageChoice(path, obj, preferLocal).value)
  {
    CalibrationOrder(map[CanvasKey := None, ColorsKey := None], reports);
    assert CanvasKey != ColorsKey;
  }

  /** One cell of the picker's grid: row, column and the image it shows. */
  datatype Tile<I> = Tile(row: nat, col: nat, image: I)

  /** The picker of grabbed images, laid out three to a row. */
  class GrabSelector<I> {
    var pilimages: seq<I>
    var grid: seq<Tile<I>>

    constructor ()
      ensures pilimages == [] && grid == []
    {
      pilimages := [];
      grid := [];
    }

    /** `start`: add one tile per image, filling rows of three left to right. */
    method Start(images: seq<I>)
      modifies this
      ensures pilimages == images
      ensures |grid| == |old(grid)| + |images| && grid[..|old(grid)|] == old(grid)
      ensures forall i :: 0 <= i < |images| ==> grid[|old(grid)| + i] == Tile(i / 3, i % 3, images[i])
    {
      var row, col := 0, 0;
      pilimages := images;
      var i := 0;
      while i < |images|
        invariant i <= |images| && pilimages == images
        invariant row == i / 3 && col == i % 3
        invariant |grid| == |old(grid)| + i && grid[..|old(grid)|] == old(grid)
        invariant forall j :: 0 <= j < i ==> grid[|old(grid)| + j] == Tile(j / 3, j % 3, images[j])
      {
        grid := grid + [Tile(row, col, pilimages[i])];
        if col < 2 {
          col := col + 1;
        } else {
          row := row + 1;
          col := 0;
        }
        i := i + 1;
      }
    }
  }

  /** The grid position of image i: every image gets its own cell, and the cells follow the image order row by row. */
  lemma GridCellsDistinct(i: nat, j: nat)
    ensures (i / 3, i % 3) == (j / 3, j % 3) <==> i == j
    ensures i < j ==> i / 3 < j / 3 || (i / 3 == j / 3 && i % 3 < j % 3)
  {
  }
}
