/** The pointer handlers of the canvas (app.js, pointerdown, pointermove,
    pointerup, pointercancel) as a state machine over the drag state and the
    photo offset. Pointer positions arrive already converted to canvas
    pixels. */
module Drag {

  /** The state the handlers read and write. */
  datatype Pointer = Pointer(isDragging: bool, lastX: real, lastY: real, offsetX: real, offsetY: real)

  /** A pointer event with its canvas-space position where it has one. */
  datatype PointerEvent = Down(x: real, y: real) | Move(x: real, y: real) | Up | Cancel

  /** One handler run. Down starts a drag at its position when a photo is
      loaded; Move, while dragging a loaded photo, pans by the distance from
      the last point and records the new point; Up and Cancel end the drag. */
  function Handle(g: Pointer, hasPhoto: bool, e: PointerEvent): (r: Pointer)
    ensures !hasPhoto ==> r.offsetX == g.offsetX && r.offsetY == g.offsetY
    ensures e.Down? && !hasPhoto ==> r == g
    ensures e.Down? && hasPhoto ==>
      r.isDragging && r.lastX == e.x && r.lastY == e.y && r.offsetX == g.offsetX && r.offsetY == g.offsetY
    ensures !hasPhoto && !g.isDragging ==> !r.isDragging
    ensures e.Move? && !(g.isDragging && hasPhoto) ==> r == g
    ensures e.Move? && g.isDragging && hasPhoto ==>
      r.isDragging && r.lastX == e.x && r.lastY == e.y &&
      r.offsetX - r.lastX == g.offsetX - g.lastX && r.offsetY - r.lastY == g.offsetY - g.lastY
    ensures (e.Up? || e.Cancel?) ==>
      !r.isDragging && r.lastX == g.lastX && r.lastY == g.lastY && r.offsetX == g.offsetX && r.offsetY == g.offsetY
  {
    match e
    case Down(x, y) =>
      if !hasPhoto then g else g.(isDragging := true, lastX := x, lastY := y)
    case Move(x, y) =>
      if !g.isDragging || !hasPhoto then g
      else
        var dx, dy := x - g.lastX, y - g.lastY;
        g.(lastX := x, lastY := y, offsetX := g.offsetX + dx, offsetY := g.offsetY + dy)
    case Up => g.(isDragging := false)
    case Cancel => g.(isDragging := false)
  }

  /** The state after handling the events in order. */
  function Run(g: Pointer, hasPhoto: bool, es: seq<PointerEvent>): Pointer
    decreases |es|
  {
    if es == [] then g else Run(Handle(g, hasPhoto, es[0]), hasPhoto, es[1..])
  }

  /** All events are moves. */
  predicate AllMoves(es: seq<PointerEvent>)
  {
    forall i :: 0 <= i < |es| ==> es[i].Move?
  }

  /** A run of moves keeps the distance between the offset and the last
      pointer position, so the photo point under the pointer stays under it,
      and leaves the last position at the final move. */
  lemma {:induction false} MovesKeepGrip(g: Pointer, es: seq<PointerEvent>)
    requires g.isDragging && AllMoves(es)
    ensures var r := Run(g, true, es);
      r.isDragging &&
      r.offsetX - r.lastX == g.offsetX - g.lastX && r.offsetY - r.lastY == g.offsetY - g.lastY &&
      (es != [] ==> r.lastX == es[|es| - 1].x && r.lastY == es[|es| - 1].y)
    decreases |es|
  {
    if es != [] {
      var g' := Handle(g, true, es[0]);
      assert AllMoves(es[1..]) by {
        forall i | 0 <= i < |es[1..]| ensures es[1..][i].Move? { assert es[1..][i] == es[i + 1]; }
      }
      MovesKeepGrip(g', es[1..]);
      if |es| > 1 {
        assert es[1..][|es[1..]| - 1] == es[|es| - 1];
      }
    }
  }

  /** A drag that goes down at (x0, y0) and moves, ending at (xn, yn), pans
      the photo by exactly (xn − x0, yn − y0). */
  lemma DragPansByDisplacement(g: Pointer, x0: real, y0: real, moves: seq<PointerEvent>)
    requires AllMoves(moves) && moves != []
    ensures var r := Run(g, true, [Down(x0, y0)] + moves);
      var last := moves[|moves| - 1];
      r.isDragging &&
      r.offsetX == g.offsetX + (last.x - x0) && r.offsetY == g.offsetY + (last.y - y0)
  {
    var es := [Down(x0, y0)] + moves;
    assert es[1..] == moves;
    var g' := Handle(g, true, Down(x0, y0));
    MovesKeepGrip(g', moves);
  }

  /** With no photo loaded, no sequence of events starts a drag or moves the
      photo. */
  lemma {:induction false} NoPhotoNoPan(g: Pointer, es: seq<PointerEvent>)
    requires !g.isDragging
    ensures var r := Run(g, false, es);
      !r.isDragging && r.offsetX == g.offsetX && r.offsetY == g.offsetY
    decreases |es|
  {
    if es != [] {
      NoPhotoNoPan(Handle(g, false, es[0]), es[1..]);
    }
  }

  /** Once the pointer is released, later moves do not pan the photo. */
  lemma {:induction false} ReleasedMovesDoNothing(g: Pointer, hasPhoto: bool, moves: seq<PointerEvent>)
    requires !g.isDragging && AllMoves(moves)
    ensures Run(g, hasPhoto, moves) == g
    decreases |moves|
  {
    if moves != [] {
      assert AllMoves(moves[1..]) by {
        forall i | 0 <= i < |moves[1..]| ensures moves[1..][i].Move? { assert moves[1..][i] == moves[i + 1]; }
      }
      ReleasedMovesDoNothing(g, hasPhoto, moves[1..]);
    }
  }

  /** Dragging by (10, −5) twice pans by (20, −10). */
  lemma DragTwiceExample(ox: real, oy: real)
    ensures Run(Pointer(false, 0.0, 0.0, ox, oy), true,
                [Down(0.0, 0.0), Move(10.0, -5.0), Move(20.0, -10.0), Up])
         == Pointer(false, 20.0, -10.0, ox + 20.0, oy - 10.0)
  {
  }
}
