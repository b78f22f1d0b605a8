/**
 * The simulated pointer device (a pynput mouse controller) as an abstract
 * object: a current position and the log of everything done with it.
 */
module Pointer {

  /** A physical screen coordinate, or an offset between two of them. */
  datatype Point = Point(x: int, y: int)
  {
    function Plus(dx: int, dy: int): Point
    {
      Point(x + dx, y + dy)
    }
  }

  /** One action performed on the device, in the order it happened. */
  datatype Event =
    | MoveTo(to: Point)           // absolute move: `position = ...`
    | MoveRel(dx: int, dy: int)   // relative move: `move(dx, dy)`
    | Press(at: Point)            // left button down
    | Release(at: Point)          // left button up
    | Click(at: Point)            // left button click

  class Mouse {
    var position: Point
    var log: seq<Event>

    constructor (start: Point)
      ensures position == start && log == []
    {
      position := start;
      log := [];
    }

    method SetPosition(p: Point)
      modifies this
      ensures position == p
      ensures log == old(log) + [MoveTo(p)]
    {
      position := p;
      log := log + [MoveTo(p)];
    }

    method Move(dx: int, dy: int)
      modifies this
      ensures position == old(position).Plus(dx, dy)
      ensures log == old(log) + [MoveRel(dx, dy)]
    {
      position := position.Plus(dx, dy);
      log := log + [MoveRel(dx, dy)];
    }

    method PressLeft()
      modifies this
      ensures position == old(position)
      ensures log == old(log) + [Press(position)]
    {
      log := log + [Press(position)];
    }

    method ReleaseLeft()
      modifies this
      ensures position == old(position)
      ensures log == old(log) + [Release(position)]
    {
      log := log + [Release(position)];
    }

    method ClickLeft()
      modifies this
      ensures position == old(position)
      ensures log == old(log) + [Click(position)]
    {
      log := log + [Click(position)];
    }
  }
}
